/**
 * The retention 583 builder (`Retention583`): a MARC 583 Action Note
 * recording a retention commitment. Unlike the completeness builder it
 * reads no holdings record: every subfield carries one of the caller's
 * constants, as given, under the published indicators '1',' '.
 */
module Retention {
  import opened Marc
  import opened Constants

  /** The field `marc` appends together: $a action, $c date, $d interval, $f programs, $5 institution. */
  function RetentionField(action: Value, actionDate: Value, actionInterval: Value,
                          programs: Value, institution: Value): DataField
  {
    DataField("583", '1', ' ',
      [Subfield('a', action), Subfield('c', actionDate), Subfield('d', actionInterval),
       Subfield('f', programs), Subfield('5', institution)])
  }

  /** `Retention583.new(constants).marc`. */
  function RetentionFromConstants(constants: Constants): DataField
  {
    RetentionField(Lookup(constants, Action), Lookup(constants, ActionDate), Lookup(constants, ActionInterval),
                   Lookup(constants, Programs), Lookup(constants, Institution))
  }

  /**
   * The field is tagged 583 with indicators '1',' ' (first indicator 1: the
   * note is not private) and holds exactly the codes a, c, d, f, 5 in that
   * order, each once, whatever the values: no $3, $i or $l.
   */
  lemma RetentionLayout(action: Value, actionDate: Value, actionInterval: Value, programs: Value, institution: Value)
    ensures var f := RetentionField(action, actionDate, actionInterval, programs, institution);
      f.tag == "583" && f.ind1 == '1' && f.ind2 == ' ' &&
      Codes(f.subfields) == "acdf5" &&
      '3' !in Codes(f.subfields) && 'i' !in Codes(f.subfields) && 'l' !in Codes(f.subfields)
  {
    var subs := RetentionField(action, actionDate, actionInterval, programs, institution).subfields;
    assert Codes(subs) == [subs[0].code, subs[1].code, subs[2].code, subs[3].code, subs[4].code];
  }

  /** Each subfield carries its attribute unchanged: $f holds the programs value itself, an Array included. */
  lemma RetentionValues(action: Value, actionDate: Value, actionInterval: Value, programs: Value, institution: Value)
    ensures var subs := RetentionField(action, actionDate, actionInterval, programs, institution).subfields;
      ValuesOf(subs, 'a') == [action] && ValuesOf(subs, 'c') == [actionDate] &&
      ValuesOf(subs, 'd') == [actionInterval] && ValuesOf(subs, 'f') == [programs] &&
      ValuesOf(subs, '5') == [institution]
  {
    var subs := RetentionField(action, actionDate, actionInterval, programs, institution).subfields;
    ValuesOfSingle(subs, 0, 'a');
    ValuesOfSingle(subs, 1, 'c');
    ValuesOfSingle(subs, 2, 'd');
    ValuesOfSingle(subs, 3, 'f');
    ValuesOfSingle(subs, 4, '5');
  }

  /** A constant missing from the hash gives a nil-valued subfield in its place: the field always has five subfields. */
  lemma RetentionMissingConstants(constants: Constants)
    ensures var subs := RetentionFromConstants(constants).subfields;
      |subs| == 5 &&
      (Action !in constants ==> subs[0] == Subfield('a', Nil)) &&
      (ActionDate !in constants ==> subs[1] == Subfield('c', Nil)) &&
      (ActionInterval !in constants ==> subs[2] == Subfield('d', Nil)) &&
      (Programs !in constants ==> subs[3] == Subfield('f', Nil)) &&
      (Institution !in constants ==> subs[4] == Subfield('5', Nil))
  {
  }

  /**
   * Changing one attribute changes only its own subfield: a field built with
   * one attribute replaced is the original field with that one subfield
   * replaced, at its fixed position.
   */
  lemma RetentionAttributeLocal(action: Value, actionDate: Value, actionInterval: Value, programs: Value,
                                institution: Value, v: Value)
    ensures var f := RetentionField(action, actionDate, actionInterval, programs, institution);
      |f.subfields| == 5 &&
      RetentionField(v, actionDate, actionInterval, programs, institution)
        == f.(subfields := f.subfields[0 := Subfield('a', v)]) &&
      RetentionField(action, v, actionInterval, programs, institution)
        == f.(subfields := f.subfields[1 := Subfield('c', v)]) &&
      RetentionField(action, actionDate, v, programs, institution)
        == f.(subfields := f.subfields[2 := Subfield('d', v)]) &&
      RetentionField(action, actionDate, actionInterval, v, institution)
        == f.(subfields := f.subfields[3 := Subfield('f', v)]) &&
      RetentionField(action, actionDate, actionInterval, programs, v)
        == f.(subfields := f.subfields[4 := Subfield('5', v)])
  {
    var a, c, d, p, i := Subfield('a', action), Subfield('c', actionDate), Subfield('d', actionInterval),
                         Subfield('f', programs), Subfield('5', institution);
    var subs := [a, c, d, p, i];
    assert subs[0 := Subfield('a', v)] == [Subfield('a', v), c, d, p, i];
    assert subs[1 := Subfield('c', v)] == [a, Subfield('c', v), d, p, i];
    assert subs[2 := Subfield('d', v)] == [a, c, Subfield('d', v), p, i];
    assert subs[3 := Subfield('f', v)] == [a, c, d, Subfield('f', v), i];
    assert subs[4 := Subfield('5', v)] == [a, c, d, p, Subfield('5', v)];
  }

  /**
   * The two documented examples: Scholars Trust ($d "20351231") and TRLN
   * Collaborative Print Retention ($d "retention period not specified").
   */
  lemma DocumentedRetentionExamples()
    ensures var constants := map[Action := Str("committed to retain"), ActionDate := Str("20190701"),
                                 ActionInterval := Str("20351231"), Programs := Str("Scholars Trust"),
                                 Institution := Str("NcU")];
      RetentionFromConstants(constants)
        == DataField("583", '1', ' ',
             [Subfield('a', Str("committed to retain")), Subfield('c', Str("20190701")),
              Subfield('d', Str("20351231")), Subfield('f', Str("Scholars Trust")),
              Subfield('5', Str("NcU"))])
    ensures var constants := map[Action := Str("committed to retain"), ActionDate := Str("20190701"),
                                 ActionInterval := Str("retention period not specified"),
                                 Programs := Str("TRLN Collaborative Print Retention"), Institution := Str("NcU")];
      RetentionFromConstants(constants)
        == DataField("583", '1', ' ',
             [Subfield('a', Str("committed to retain")), Subfield('c', Str("20190701")),
              Subfield('d', Str("retention period not specified")),
              Subfield('f', Str("TRLN Collaborative Print Retention")), Subfield('5', Str("NcU"))])
  {
  }

  /**
   * `Retention583`: the action, date, interval, programs and institution all
   * have setters (`attr_accessor`); nothing else is stored.
   */
  class Retention583 {
    var action: Value
    var actionDate: Value
    var actionInterval: Value
    var programs: Value
    var institution: Value

    /** `initialize(constants = {})`: each attribute read from the hash, programs included, without normalisation. */
    constructor (constants: Constants)
      ensures action == Lookup(constants, Action) && actionDate == Lookup(constants, ActionDate)
      ensures actionInterval == Lookup(constants, ActionInterval)
      ensures programs == Lookup(constants, Programs)
      ensures institution == Lookup(constants, Institution)
    {
      action := Lookup(constants, Action);
      actionDate := Lookup(constants, ActionDate);
      actionInterval := Lookup(constants, ActionInterval);
      programs := Lookup(constants, Programs);
      institution := Lookup(constants, Institution);
    }

    /** `action=` */
    method SetAction(v: Value)
      modifies this`action
      ensures action == v
    {
      action := v;
    }

    /** `action_date=` */
    method SetActionDate(v: Value)
      modifies this`actionDate
      ensures actionDate == v
    {
      actionDate := v;
    }

    /** `action_interval=` */
    method SetActionInterval(v: Value)
      modifies this`actionInterval
      ensures actionInterval == v
    {
      actionInterval := v;
    }

    /** `programs=` */
    method SetPrograms(v: Value)
      modifies this`programs
      ensures programs == v
    {
      programs := v;
    }

    /** `institution=` */
    method SetInstitution(v: Value)
      modifies this`institution
      ensures institution == v
    {
      institution := v;
    }

    /** `marc`: a fresh 583 with indicators '1',' ', with $a, $c, $d, $f and $5 appended in that order. */
    method Marc() returns (f: DataField)
      ensures f == RetentionField(action, actionDate, actionInterval, programs, institution)
    {
      f := DataField("583", '1', ' ', []);
      f := f.Append(Subfield('a', action));
      f := f.Append(Subfield('c', actionDate));
      f := f.Append(Subfield('d', actionInterval));
      f := f.Append(Subfield('f', programs));
      f := f.Append(Subfield('5', institution));
    }
  }

  /** `Retention583.new(constants).marc`, through the class. */
  method BuildRetention(constants: Constants) returns (f: DataField)
    ensures f == RetentionFromConstants(constants)
  {
    var builder := new Retention583(constants);
    f := builder.Marc();
  }

  /** Setting the interval after construction changes only $d in the next `marc` result. */
  method ChangeInterval(builder: Retention583, v: Value) returns (before: DataField, after: DataField)
    modifies builder
    ensures |before.subfields| == 5
    ensures after == before.(subfields := before.subfields[2 := Subfield('d', v)])
  {
    before := builder.Marc();
    builder.SetActionInterval(v);
    after := builder.Marc();
  }
}
