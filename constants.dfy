/**
 * The constants hash both builders are constructed from, and the
 * `[constants[:programs]].flatten` normalisation the completeness builder
 * applies to its program names.
 */
module Constants {
  import opened Marc

  /** The symbol keys the builders read. */
  datatype Key = Action | ActionDate | ActionInterval | Programs | ValidationLevel | Institution

  /** A constants hash: any subset of the keys, each bound to a Ruby value. */
  type Constants = map<Key, Value>

  /** `constants[key]`: a missing key reads as nil, never as an error. */
  function Lookup(constants: Constants, key: Key): Value
  {
    if key in constants then constants[key] else Nil
  }

  /** `Array#flatten`: nested arrays spliced in place, recursively; every other element kept in order. */
  function Flatten(vs: seq<Value>): (r: seq<Value>)
    ensures forall k :: 0 <= k < |r| ==> !r[k].List?
    decreases vs
  {
    if vs == [] then []
    else
      assert vs[0] in vs;
      (match vs[0]
       case List(items) => Flatten(items)
       case _ => [vs[0]])
      + Flatten(vs[1..])
  }

  /** `[programs].flatten`: the program list stored by the completeness builder. */
  function NormalizePrograms(programs: Value): seq<Value>
  {
    Flatten([programs])
  }

  /** Flattening splits over concatenation. */
  lemma {:induction false} FlattenAppend(a: seq<Value>, b: seq<Value>)
    ensures Flatten(a + b) == Flatten(a) + Flatten(b)
  {
    if a == [] {
      assert a + b == b;
    } else {
      assert (a + b)[0] == a[0];
      assert (a + b)[1..] == a[1..] + b;
      FlattenAppend(a[1..], b);
    }
  }

  /** A list with no nested arrays is its own flattening: order and values are kept. */
  lemma {:induction false} FlattenOfFlat(vs: seq<Value>)
    requires forall k :: 0 <= k < |vs| ==> !vs[k].List?
    ensures Flatten(vs) == vs
  {
    if vs != [] {
      FlattenOfFlat(vs[1..]);
    }
  }

  /** Flattening twice is flattening once. */
  lemma FlattenIdempotent(vs: seq<Value>)
    ensures Flatten(Flatten(vs)) == Flatten(vs)
  {
    FlattenOfFlat(Flatten(vs));
  }

  /** A scalar and a one-element array holding it normalise alike; a non-array value becomes a one-element list. */
  lemma NormalizeScalarOrSingleton(v: Value)
    ensures NormalizePrograms(List([v])) == NormalizePrograms(v)
    ensures !v.List? ==> NormalizePrograms(v) == [v]
  {
    assert [List([v])][1..] == [] && [v][1..] == [];
    assert Flatten([List([v])]) == Flatten([v]) + Flatten([]);
    if !v.List? {
      assert Flatten([v]) == [v] + Flatten([]);
    }
  }

  /** An array of plain values is stored as given, in order. */
  lemma NormalizeFlatList(vs: seq<Value>)
    requires forall k :: 0 <= k < |vs| ==> !vs[k].List?
    ensures NormalizePrograms(List(vs)) == vs
  {
    assert Flatten([List(vs)]) == Flatten(vs) + Flatten([]);
    FlattenOfFlat(vs);
  }

  /** Absent programs (nil) give one nil program. */
  lemma NormalizeAbsent(constants: Constants)
    requires Programs !in constants
    ensures NormalizePrograms(Lookup(constants, Programs)) == [Nil]
  {
  }
}
