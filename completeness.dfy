/**
 * The completeness 583 builder (`Completeness583`): a MARC 583 Action Note
 * recording a completeness review of a holdings record. Its $3 (materials
 * specified) is assembled from the record's 866/867/868 textual holdings,
 * "$l missing issues" is added when the statements show gaps, and the other
 * subfields carry the caller's constants. The indicators are the placeholder
 * pair '9','9' so that the field can be found and corrected afterwards.
 */
module Completeness {
  import opened Wrappers
  import opened Marc
  import opened RubyStrings
  import opened Constants
  import opened Holdings

  /** One $f per program, in order. */
  function ProgramSubfields(programs: seq<Value>): seq<Subfield>
  {
    seq(|programs|, k requires 0 <= k < |programs| => Subfield('f', programs[k]))
  }

  /** The subfield when there is one, nothing otherwise. */
  function OptionalSubfield(sf: Option<Subfield>): seq<Subfield>
  {
    if sf.Some? then [sf.value] else []
  }

  /** The field `marc` appends together, given its $3 text and its optional $l. */
  function Field583(sf3: string, action: Value, actionDate: Value, programs: seq<Value>,
                    validationLevel: Value, missing: Option<Subfield>, institution: Value): DataField
  {
    DataField("583", '9', '9',
      [Subfield('3', Str(sf3)), Subfield('a', action), Subfield('c', actionDate)]
      + ProgramSubfields(programs)
      + [Subfield('i', validationLevel)]
      + OptionalSubfield(missing)
      + [Subfield('5', institution)])
  }

  /** What `marc` returns for a record and the builder's attributes. */
  function CompletenessField(rec: Record, action: Value, actionDate: Value, programs: seq<Value>,
                             validationLevel: Value, institution: Value): DataField
    requires StatementsReadable(rec)
  {
    Field583(Sf3(rec), action, actionDate, programs, validationLevel, MissingIssues(rec), institution)
  }

  /** `Completeness583.new(rec, constants).marc`. */
  function FromConstants(rec: Record, constants: Constants): DataField
    requires StatementsReadable(rec)
  {
    CompletenessField(rec, Lookup(constants, Action), Lookup(constants, ActionDate),
                      NormalizePrograms(Lookup(constants, Programs)),
                      Lookup(constants, ValidationLevel), Lookup(constants, Institution))
  }

  /** The code order 3, a, c, f for each program, i, l only with gaps, 5. */
  function ExpectedCodes(programCount: nat, gaps: bool): seq<char>
  {
    "3ac" + Repeat('f', programCount) + "i" + (if gaps then "l" else "") + "5"
  }

  /** The $l that `m583sfl` can produce. */
  predicate IsMissingIssues(missing: Option<Subfield>)
  {
    missing == None || missing == Some(Subfield('l', Str("missing issues")))
  }

  /** Codes and size of the appended field, whatever its $3 text. */
  lemma Field583Codes(sf3: string, action: Value, actionDate: Value, programs: seq<Value>,
                      validationLevel: Value, missing: Option<Subfield>, institution: Value)
    requires IsMissingIssues(missing)
    ensures var subs := Field583(sf3, action, actionDate, programs, validationLevel, missing, institution).subfields;
      Codes(subs) == ExpectedCodes(|programs|, missing.Some?) &&
      |subs| == 5 + |programs| + (if missing.Some? then 1 else 0)
  {
    var subs := Field583(sf3, action, actionDate, programs, validationLevel, missing, institution).subfields;
    var n := |programs|;
    var expected := ExpectedCodes(n, missing.Some?);
    assert |subs| == |expected|;
    forall k | 0 <= k < |expected|
      ensures subs[k].code == expected[k]
    {
      if 3 <= k < 3 + n {
        assert subs[k] == ProgramSubfields(programs)[k - 3];
      } else if k == 3 + n {
        assert subs[k] == Subfield('i', validationLevel);
      }
    }
  }

  /**
   * The field is tagged 583 with the placeholder indicators '9','9' (never
   * the published pair '1',' '); its codes are 3, a, c, one f per program,
   * i, l only when there are gaps, and 5, so it holds
   * 5 + |programs| (+1 with gaps) subfields.
   */
  lemma CompletenessLayout(rec: Record, action: Value, actionDate: Value, programs: seq<Value>,
                           validationLevel: Value, institution: Value)
    requires StatementsReadable(rec)
    ensures var f := CompletenessField(rec, action, actionDate, programs, validationLevel, institution);
      f.tag == "583" && f.ind1 == '9' && f.ind2 == '9' && !(f.ind1 == '1' && f.ind2 == ' ') &&
      Codes(f.subfields) == ExpectedCodes(|programs|, HasGaps(rec)) &&
      |f.subfields| == 5 + |programs| + (if HasGaps(rec) then 1 else 0)
  {
    Field583Codes(Sf3(rec), action, actionDate, programs, validationLevel, MissingIssues(rec), institution);
  }

  /** Another action changes only the second subfield, $a, of the appended field. */
  lemma Field583ActionLocal(sf3: string, action: Value, v: Value, actionDate: Value, programs: seq<Value>,
                            validationLevel: Value, missing: Option<Subfield>, institution: Value)
    ensures var f := Field583(sf3, action, actionDate, programs, validationLevel, missing, institution);
      |f.subfields| >= 5 &&
      Field583(sf3, v, actionDate, programs, validationLevel, missing, institution)
        == f.(subfields := f.subfields[1 := Subfield('a', v)])
  {
    var rest := ProgramSubfields(programs) + [Subfield('i', validationLevel)] + OptionalSubfield(missing)
                + [Subfield('5', institution)];
    var head := [Subfield('3', Str(sf3)), Subfield('a', action), Subfield('c', actionDate)];
    assert (head + rest)[1 := Subfield('a', v)] == head[1 := Subfield('a', v)] + rest;
  }

  /** One more program appends one more $f. */
  lemma ProgramSubfieldsSnoc(programs: seq<Value>, k: nat)
    requires k < |programs|
    ensures ProgramSubfields(programs[..k + 1]) == ProgramSubfields(programs[..k]) + [Subfield('f', programs[k])]
  {
  }

  /** Selecting $f from the program subfields gives back the programs. */
  lemma {:induction false} ProgramValues(programs: seq<Value>)
    ensures ValuesOf(ProgramSubfields(programs), 'f') == programs
  {
    if programs != [] {
      assert ProgramSubfields(programs) == [Subfield('f', programs[0])] + ProgramSubfields(programs[1..]);
      ProgramValues(programs[1..]);
    }
  }

  /** Values of the appended field, whatever its $3 text. */
  lemma Field583Values(sf3: string, action: Value, actionDate: Value, programs: seq<Value>,
                       validationLevel: Value, missing: Option<Subfield>, institution: Value)
    requires IsMissingIssues(missing)
    ensures var subs := Field583(sf3, action, actionDate, programs, validationLevel, missing, institution).subfields;
      |subs| >= 5 + |programs| &&
      subs[0] == Subfield('3', Str(sf3)) &&
      subs[1] == Subfield('a', action) &&
      subs[2] == Subfield('c', actionDate) &&
      ValuesOf(subs, 'f') == programs &&
      subs[3 + |programs|] == Subfield('i', validationLevel) &&
      subs[|subs| - 1] == Subfield('5', institution)
  {
    var head := [Subfield('3', Str(sf3)), Subfield('a', action), Subfield('c', actionDate)];
    var tail := [Subfield('i', validationLevel)] + OptionalSubfield(missing) + [Subfield('5', institution)];
    var subs := Field583(sf3, action, actionDate, programs, validationLevel, missing, institution).subfields;
    assert subs == head + ProgramSubfields(programs) + tail;
    ValuesOfAppend(head + ProgramSubfields(programs), tail, 'f');
    ValuesOfAppend(head, ProgramSubfields(programs), 'f');
    ProgramValues(programs);
    ValuesOfAbsent(head, 'f');
    ValuesOfAbsent(tail, 'f');
  }

  /**
   * The constants are carried as they are: $a the action, $c the date, the
   * $f values exactly the programs in order, $i the validation level, $5 the
   * institution, and $3 the assembled statement text.
   */
  lemma CompletenessValues(rec: Record, action: Value, actionDate: Value, programs: seq<Value>,
                           validationLevel: Value, institution: Value)
    requires StatementsReadable(rec)
    ensures var subs := CompletenessField(rec, action, actionDate, programs, validationLevel, institution).subfields;
      |subs| >= 5 + |programs| &&
      subs[0] == Subfield('3', Str(Sf3(rec))) &&
      subs[1] == Subfield('a', action) &&
      subs[2] == Subfield('c', actionDate) &&
      ValuesOf(subs, 'f') == programs &&
      subs[3 + |programs|] == Subfield('i', validationLevel) &&
      subs[|subs| - 1] == Subfield('5', institution)
  {
    Field583Values(Sf3(rec), action, actionDate, programs, validationLevel, MissingIssues(rec), institution);
  }

  /**
   * $l appears only as the second-to-last subfield, only when there are gaps,
   * and then it is "missing issues", right after $i and right before $5.
   */
  lemma MissingIssuesPlacement(rec: Record, action: Value, actionDate: Value, programs: seq<Value>,
                               validationLevel: Value, institution: Value)
    requires StatementsReadable(rec)
    ensures var subs := CompletenessField(rec, action, actionDate, programs, validationLevel, institution).subfields;
      (forall k :: 0 <= k < |subs| && subs[k].code == 'l' ==> k == |subs| - 2 && HasGaps(rec)) &&
      (HasGaps(rec) ==>
         subs[|subs| - 2] == Subfield('l', Str("missing issues")) &&
         subs[|subs| - 3].code == 'i' && subs[|subs| - 1].code == '5')
  {
    var missing := MissingIssues(rec);
    var subs := Field583(Sf3(rec), action, actionDate, programs, validationLevel, missing, institution).subfields;
    Field583Codes(Sf3(rec), action, actionDate, programs, validationLevel, missing, institution);
    var codes := ExpectedCodes(|programs|, missing.Some?);
    assert forall k :: 0 <= k < |subs| ==> subs[k].code == codes[k];
    if missing.Some? {
      assert subs[|subs| - 2] == missing.value;
    }
  }

  /** A constant missing from the hash yields a nil-valued subfield, not an error and not an omission. */
  lemma MissingConstantsGiveNil(rec: Record, constants: Constants)
    requires StatementsReadable(rec)
    ensures var subs := FromConstants(rec, constants).subfields;
      var n := |NormalizePrograms(Lookup(constants, Programs))|;
      |subs| >= 5 + n &&
      (Action !in constants ==> subs[1] == Subfield('a', Nil)) &&
      (ActionDate !in constants ==> subs[2] == Subfield('c', Nil)) &&
      (Programs !in constants ==> n == 1 && ValuesOf(subs, 'f') == [Nil]) &&
      (ValidationLevel !in constants ==> subs[3 + n] == Subfield('i', Nil)) &&
      (Institution !in constants ==> subs[|subs| - 1] == Subfield('5', Nil))
  {
    var programs := NormalizePrograms(Lookup(constants, Programs));
    CompletenessValues(rec, Lookup(constants, Action), Lookup(constants, ActionDate), programs,
                       Lookup(constants, ValidationLevel), Lookup(constants, Institution));
  }

  /** Programs given as a scalar and as a one-element array holding it build the same field. */
  lemma ScalarProgramsLikeSingleton(rec: Record, constants: Constants, program: Value)
    requires StatementsReadable(rec)
    ensures FromConstants(rec, constants[Programs := program])
         == FromConstants(rec, constants[Programs := List([program])])
  {
    NormalizeScalarOrSingleton(program);
  }

  /**
   * `Completeness583`: the holdings record is read-only (`attr_reader`), the
   * action, date, interval, programs and institution have setters
   * (`attr_accessor`), and the validation level is set only by the
   * constructor.
   */
  class Completeness583 {
    const hrec: Record
    var action: Value
    var actionDate: Value
    var actionInterval: Value
    var programs: Value
    const validationLevel: Value
    var institution: Value

    /** `initialize(holdings_record, constants = {})`: programs normalised with `[...].flatten`. */
    constructor (holdingsRecord: Record, constants: Constants)
      ensures hrec == holdingsRecord
      ensures action == Lookup(constants, Action) && actionDate == Lookup(constants, ActionDate)
      ensures actionInterval == Lookup(constants, ActionInterval)
      ensures programs == List(NormalizePrograms(Lookup(constants, Programs)))
      ensures validationLevel == Lookup(constants, ValidationLevel)
      ensures institution == Lookup(constants, Institution)
    {
      hrec := holdingsRecord;
      action := Lookup(constants, Action);
      actionDate := Lookup(constants, ActionDate);
      actionInterval := Lookup(constants, ActionInterval);
      programs := List(NormalizePrograms(Lookup(constants, Programs)));
      validationLevel := Lookup(constants, ValidationLevel);
      institution := Lookup(constants, Institution);
    }

    /** `action=` */
    method SetAction(v: Value)
      modifies this`action
      ensures action == v
    {
      action := v;
    }

    /** `action_date=` */
    method SetActionDate(v: Value)
      modifies this`actionDate
      ensures actionDate == v
    {
      actionDate := v;
    }

    /** `action_interval=` */
    method SetActionInterval(v: Value)
      modifies this`actionInterval
      ensures actionInterval == v
    {
      actionInterval := v;
    }

    /** `programs=`: stored as given, without the constructor's flattening. */
    method SetPrograms(v: Value)
      modifies this`programs
      ensures programs == v
    {
      programs := v;
    }

    /** `institution=` */
    method SetInstitution(v: Value)
      modifies this`institution
      ensures institution == v
    {
      institution := v;
    }

    /** `m583sf3`: the basic text, the two optional segments appended with `+=`, then `gsub!(/^; /, '')`. */
    method M583Sf3() returns (sf3: string)
      requires StatementsReadable(hrec)
      ensures sf3 == Sf3(hrec)
    {
      var m866s := Join(FieldToHoldings(hrec, "866"), ", ");
      sf3 := m866s;
      var m867s := Join(FieldToHoldings(hrec, "867"), ", ");
      if m867s != "" {
        SegmentText(m867s);
        sf3 := sf3 + "; Supplement: " + m867s;
      }
      assert sf3 == m866s + Segment("Supplement", m867s);
      var m868s := Join(FieldToHoldings(hrec, "868"), ", ");
      if m868s != "" {
        SegmentText(m868s);
        sf3 := sf3 + "; Index: " + m868s;
      }
      assert sf3 == Layout(m866s, m867s, m868s);
      sf3 := GsubLineStartSep(sf3);
    }

    /**
     * `marc`: a fresh 583 with indicators '9','9', built by appending $3, $a,
     * $c, one $f per program, $i, $l when there are gaps, and $5. The
     * object is not modified, so every call gives the same field.
     */
    method Marc() returns (f: DataField)
      requires StatementsReadable(hrec)
      requires programs.List?
      ensures f == CompletenessField(hrec, action, actionDate, programs.items, validationLevel, institution)
    {
      var sf3 := M583Sf3();
      f := DataField("583", '9', '9', []);
      f := f.Append(Subfield('3', Str(sf3)));
      f := f.Append(Subfield('a', action));
      f := f.Append(Subfield('c', actionDate));
      var head := f.subfields;
      assert head == [Subfield('3', Str(sf3)), Subfield('a', action), Subfield('c', actionDate)];
      var ps := programs.items;
      var k := 0;
      while k < |ps|
        invariant 0 <= k <= |ps|
        invariant f == DataField("583", '9', '9', head + ProgramSubfields(ps[..k]))
      {
        ProgramSubfieldsSnoc(ps, k);
        f := f.Append(Subfield('f', ps[k]));
        k := k + 1;
      }
      assert ps[..k] == ps;
      f := f.Append(Subfield('i', validationLevel));
      var gaps := HasGaps(hrec);
      if gaps {
        f := f.Append(MissingIssues(hrec).value);
      }
      assert f.subfields == head + ProgramSubfields(ps) + [Subfield('i', validationLevel)]
                            + OptionalSubfield(MissingIssues(hrec));
      f := f.Append(Subfield('5', institution));
      assert f == Field583(sf3, action, actionDate, ps, validationLevel, MissingIssues(hrec), institution);
    }
  }

  /** `Completeness583.new(rec, constants).marc`, through the class. */
  method BuildFromConstants(rec: Record, constants: Constants) returns (f: DataField)
    requires StatementsReadable(rec)
    ensures f == FromConstants(rec, constants)
  {
    var builder := new Completeness583(rec, constants);
    f := builder.Marc();
  }

  /** Calling `marc` twice on the same object gives equal fields. */
  method MarcTwice(builder: Completeness583) returns (first: DataField, second: DataField)
    requires StatementsReadable(builder.hrec)
    requires builder.programs.List?
    ensures first == second
  {
    first := builder.Marc();
    second := builder.Marc();
  }

  /** Setting the action changes only $a in the next `marc` result. */
  method ChangeAction(builder: Completeness583, v: Value) returns (before: DataField, after: DataField)
    requires StatementsReadable(builder.hrec)
    requires builder.programs.List?
    modifies builder
    ensures |before.subfields| >= 5
    ensures after == before.(subfields := before.subfields[1 := Subfield('a', v)])
  {
    before := builder.Marc();
    Field583ActionLocal(Sf3(builder.hrec), builder.action, v, builder.actionDate, builder.programs.items,
                        builder.validationLevel, MissingIssues(builder.hrec), builder.institution);
    builder.SetAction(v);
    after := builder.Marc();
  }
}
