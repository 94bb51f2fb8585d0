/**
 * The slice of MARC 21 (and of the ruby-marc library) that the 583 builders use:
 * data fields with a tag, two indicators and ordered subfields, and a record as
 * its sequence of data fields.
 */
module Marc {

  /** The Ruby objects a subfield value or a constant can be here: nil, a String, or an Array of such objects. */
  datatype Value = Nil | Str(s: string) | List(items: seq<Value>)

  /** A subfield: a one-character code and its value (ruby-marc stores whatever value it is given). */
  datatype Subfield = Subfield(code: char, value: Value)

  /** A data field: tag, two indicator characters and the subfields in order. */
  datatype DataField = DataField(tag: string, ind1: char, ind2: char, subfields: seq<Subfield>)
  {
    /** `DataField#append`: the subfield goes at the end. */
    function Append(sf: Subfield): DataField
    {
      this.(subfields := subfields + [sf])
    }
  }

  /** A MARC record, as its data fields in record order. */
  type Record = seq<DataField>

  /** `DataField#[](code)`: the value of the first subfield with that code, nil when there is none. */
  function FirstValue(f: DataField, code: char): Value
  {
    FirstValueIn(f.subfields, code)
  }

  function FirstValueIn(subfields: seq<Subfield>, code: char): Value
  {
    if subfields == [] then Nil
    else if subfields[0].code == code then subfields[0].value
    else FirstValueIn(subfields[1..], code)
  }

  /** `f[code]` is the value of the first subfield carrying the code, whatever follows it. */
  lemma {:induction false} FirstValueAt(f: DataField, code: char, k: nat)
    requires k < |f.subfields| && f.subfields[k].code == code
    requires forall j :: 0 <= j < k ==> f.subfields[j].code != code
    ensures FirstValue(f, code) == f.subfields[k].value
    decreases k
  {
    if k > 0 {
      var rest := f.(subfields := f.subfields[1..]);
      assert f.subfields[0].code != code;
      FirstValueAt(rest, code, k - 1);
    }
  }

  /** `f[code]` is nil when no subfield carries the code. */
  lemma {:induction false} FirstValueAbsent(f: DataField, code: char)
    requires forall k :: 0 <= k < |f.subfields| ==> f.subfields[k].code != code
    ensures FirstValue(f, code) == Nil
    decreases |f.subfields|
  {
    if f.subfields != [] {
      var rest := f.(subfields := f.subfields[1..]);
      assert f.subfields[0].code != code;
      FirstValueAbsent(rest, code);
    }
  }

  /** `Record#fields(tag)`: the fields carrying that tag, in record order. */
  function FieldsTagged(rec: Record, tag: string): (fs: seq<DataField>)
    ensures |fs| <= |rec|
    ensures forall f :: f in fs ==> f in rec && f.tag == tag
  {
    if rec == [] then []
    else (if rec[0].tag == tag then [rec[0]] else []) + FieldsTagged(rec[1..], tag)
  }

  /** No field with the tag is missed. */
  lemma {:induction false} FieldsTaggedComplete(rec: Record, tag: string, f: DataField)
    requires f in rec && f.tag == tag
    ensures f in FieldsTagged(rec, tag)
  {
    if rec[0] != f {
      FieldsTaggedComplete(rec[1..], tag, f);
    }
  }

  /** Selecting by tag distributes over concatenation of records. */
  lemma {:induction false} FieldsTaggedAppend(a: Record, b: Record, tag: string)
    ensures FieldsTagged(a + b, tag) == FieldsTagged(a, tag) + FieldsTagged(b, tag)
  {
    if a == [] {
      assert a + b == b;
    } else {
      assert (a + b)[0] == a[0];
      assert (a + b)[1..] == a[1..] + b;
      FieldsTaggedAppend(a[1..], b, tag);
    }
  }

  /** The subfield codes of a field, in order. */
  function Codes(subfields: seq<Subfield>): seq<char>
  {
    seq(|subfields|, k requires 0 <= k < |subfields| => subfields[k].code)
  }

  /** The values of the subfields with the given code, in order. */
  function ValuesOf(subfields: seq<Subfield>, code: char): seq<Value>
  {
    if subfields == [] then []
    else (if subfields[0].code == code then [subfields[0].value] else []) + ValuesOf(subfields[1..], code)
  }

  /** Selecting by code distributes over concatenation of subfield lists. */
  lemma {:induction false} ValuesOfAppend(a: seq<Subfield>, b: seq<Subfield>, code: char)
    ensures ValuesOf(a + b, code) == ValuesOf(a, code) + ValuesOf(b, code)
  {
    if a != [] {
      assert (a + b)[1..] == a[1..] + b;
      ValuesOfAppend(a[1..], b, code);
    } else {
      assert a + b == b;
    }
  }

  /** No subfield with the code: nothing is selected. */
  lemma {:induction false} ValuesOfAbsent(subfields: seq<Subfield>, code: char)
    requires forall k :: 0 <= k < |subfields| ==> subfields[k].code != code
    ensures ValuesOf(subfields, code) == []
  {
    if subfields != [] {
      ValuesOfAbsent(subfields[1..], code);
    }
  }

  /** A code carried by exactly one subfield selects exactly that subfield's value. */
  lemma ValuesOfSingle(subfields: seq<Subfield>, k: nat, code: char)
    requires k < |subfields| && subfields[k].code == code
    requires forall j :: 0 <= j < |subfields| && j != k ==> subfields[j].code != code
    ensures ValuesOf(subfields, code) == [subfields[k].value]
  {
    var a, b := subfields[..k], subfields[k + 1..];
    assert subfields == a + [subfields[k]] + b;
    ValuesOfAppend(a + [subfields[k]], b, code);
    ValuesOfAppend(a, [subfields[k]], code);
    assert forall j :: 0 <= j < |a| ==> a[j] == subfields[j];
    assert forall j :: 0 <= j < |b| ==> b[j] == subfields[k + 1 + j];
    ValuesOfAbsent(a, code);
    ValuesOfAbsent(b, code);
    assert [subfields[k]][1..] == [];
  }

  /** `n` copies of `c`. */
  function Repeat(c: char, n: nat): (s: seq<char>)
  {
    seq(n, _ => c)
  }
}
