/**
 * Holdings records built from statement texts, and what `m583sf3` and
 * `gaps?` make of them: the two outputs shown in the completeness builder's
 * documentation, and the case where the same $3 text comes with or without
 * "$l missing issues" depending on how the statements are split into fields.
 */
module HoldingsExamples {
  import opened Marc
  import opened RubyStrings
  import opened Holdings
  import opened Wrappers

  /** A textual holdings field (866, 867 or 868) whose only subfield is $a. */
  function TextField(tag: string, text: string): DataField
  {
    DataField(tag, ' ', ' ', [Subfield('a', Str(text))])
  }

  /** One such field per text, all with the same tag, in order. */
  function TextFields(tag: string, texts: seq<string>): Record
  {
    seq(|texts|, k requires 0 <= k < |texts| => TextField(tag, texts[k]))
  }

  /** A statement that `sub(/[\s,]*$/, '')` leaves as it is: single-line, non-empty, not ending in `[\s,]`. */
  predicate Kept(text: string)
  {
    '\n' !in text && text != [] && !IsSpaceOrComma(text[|text| - 1])
  }

  /** Fields of one tag give their stripped texts, in order, under that tag. */
  lemma {:induction false} TextFieldsHoldings(tag: string, texts: seq<string>)
    ensures Readable(TextFields(tag, texts), tag)
    ensures FieldToHoldings(TextFields(tag, texts), tag)
         == seq(|texts|, k requires 0 <= k < |texts| => SubTrailing(texts[k]))
  {
    var rec := TextFields(tag, texts);
    if texts != [] {
      var rest := TextFields(tag, texts[1..]);
      TextFieldsHoldings(tag, texts[1..]);
      assert rec == [rec[0]] + rest;
      FieldToHoldingsOne(rec[0], tag);
      FieldToHoldingsAppend([rec[0]], rest, tag);
      assert FieldToHoldings(rec, tag) == [SubTrailing(texts[0])] + FieldToHoldings(rest, tag);
    }
  }

  /** Fields of one tag give nothing under another tag. */
  lemma {:induction false} TextFieldsOtherTag(tag: string, texts: seq<string>, other: string)
    requires other != tag
    ensures Readable(TextFields(tag, texts), other)
    ensures FieldToHoldings(TextFields(tag, texts), other) == []
  {
    var rec := TextFields(tag, texts);
    if texts != [] {
      var rest := TextFields(tag, texts[1..]);
      TextFieldsOtherTag(tag, texts[1..], other);
      assert rec == [rec[0]] + rest;
      FieldToHoldingsOne(rec[0], other);
      FieldToHoldingsAppend([rec[0]], rest, other);
    }
  }

  /**
   * Two comma-free 866 statements in separate fields: $3 joins them with
   * ", ", yet `gaps?` finds no comma, because it joins them with nothing.
   */
  lemma SeparateStatementsNoGap(first: string, second: string)
    requires Kept(first) && Kept(second) && ',' !in first && ',' !in second && !StartsWithSep(first)
    ensures var rec := TextFields("866", [first, second]);
      StatementsReadable(rec) && Sf3(rec) == first + ", " + second && !HasGaps(rec)
  {
    var texts := [first, second];
    var rec := TextFields("866", texts);
    TextFieldsHoldings("866", texts);
    TextFieldsOtherTag("866", texts, "867");
    TextFieldsOtherTag("866", texts, "868");
    SubTrailingKeeps(first);
    SubTrailingKeeps(second);
    assert FieldToHoldings(rec, "866") == texts;
    JoinTwo(first, second, ", ");
    JoinNoSeparatorHasComma(texts);
    Sf3OnlyBasic(texts);
  }

  /** The same text as one 866 statement: the same $3, and now a gap. */
  lemma OneStatementGap(first: string, second: string)
    requires '\n' !in first && Kept(second) && !StartsWithSep(first)
    ensures var rec := TextFields("866", [first + ", " + second]);
      StatementsReadable(rec) && Sf3(rec) == first + ", " + second && HasGaps(rec)
  {
    var text := first + ", " + second;
    var rec := TextFields("866", [text]);
    assert text[|text| - 1] == second[|second| - 1];
    TextFieldsHoldings("866", [text]);
    TextFieldsOtherTag("866", [text], "867");
    TextFieldsOtherTag("866", [text], "868");
    SubTrailingKeeps(text);
    assert FieldToHoldings(rec, "866") == [text];
    assert text[|first|] == ',';
    JoinNoSeparatorHasComma([text]);
    Sf3OnlyBasic([text]);
  }

  /** The holdings of a record with one 866, one 867 and one 868 field, under any tag. */
  lemma OneFieldPerTagHoldings(basic: string, supplement: string, index: string, tag: string)
    ensures var rec := [TextField("866", basic), TextField("867", supplement), TextField("868", index)];
      Readable(rec, tag) &&
      FieldToHoldings(rec, tag) == (if tag == "866" then [SubTrailing(basic)] else [])
        + (if tag == "867" then [SubTrailing(supplement)] else [])
        + (if tag == "868" then [SubTrailing(index)] else [])
  {
    var x, y, z := TextField("866", basic), TextField("867", supplement), TextField("868", index);
    assert [x, y, z] == [x] + [y] + [z];
    FieldToHoldingsOne(x, tag);
    FieldToHoldingsOne(y, tag);
    FieldToHoldingsOne(z, tag);
    assert forall f :: f in [x, y, z] ==> FirstValue(f, 'a').Str?;
    FieldToHoldingsAppend([x] + [y], [z], tag);
    FieldToHoldingsAppend([x], [y], tag);
  }

  /**
   * One statement of each kind: $3 is "basic; Supplement: ...; Index: ...",
   * and there is a gap exactly when one of the three texts has a comma.
   */
  lemma OneStatementPerTag(basic: string, supplement: string, index: string)
    requires Kept(basic) && Kept(supplement) && Kept(index) && !StartsWithSep(basic)
    ensures var rec := [TextField("866", basic), TextField("867", supplement), TextField("868", index)];
      StatementsReadable(rec) &&
      Sf3(rec) == basic + "; Supplement: " + supplement + "; Index: " + index &&
      (HasGaps(rec) <==> ',' in basic || ',' in supplement || ',' in index)
  {
    var rec := [TextField("866", basic), TextField("867", supplement), TextField("868", index)];
    assert "866" != "867" && "866" != "868" && "867" != "868";
    OneFieldPerTagHoldings(basic, supplement, index, "866");
    OneFieldPerTagHoldings(basic, supplement, index, "867");
    OneFieldPerTagHoldings(basic, supplement, index, "868");
    SubTrailingKeeps(basic);
    SubTrailingKeeps(supplement);
    SubTrailingKeeps(index);
    assert FieldToHoldings(rec, "866") == [basic];
    assert FieldToHoldings(rec, "867") == [supplement];
    assert FieldToHoldings(rec, "868") == [index];
    Sf3Shape([basic], [supplement], [index]);
    assert Sf3(rec) == Layout(basic, supplement, index);
    LayoutText(basic, supplement, index);
  }

  /**
   * A statement ending in a comma on its second line keeps that comma: `$`
   * matches before the newline first, so `sub` removes the empty run there.
   * One such 866 statement is reported as a gap.
   */
  lemma TrailingCommaAfterNewline()
    ensures SubTrailing("a\nb,") == "a\nb,"
    ensures var rec := TextFields("866", ["a\nb,"]);
      StatementsReadable(rec) && HasGaps(rec)
  {
    var s := "a\nb,";
    assert RunLength(s) == 0;
    assert LastLineEnd(s, 0) == None;
    var t := s[1..];
    assert t == "\nb,";
    assert t[1..] == "b,";
    assert RunLength(t[1..]) == 0;
    assert RunLength(t) == 1;
    assert LastLineEnd(t, 1) == Some(0);
    assert SubTrailing(s) == s;
    var rec := TextFields("866", [s]);
    TextFieldsHoldings("866", [s]);
    TextFieldsOtherTag("866", [s], "867");
    TextFieldsOtherTag("866", [s], "868");
    assert FieldToHoldings(rec, "866") == [s];
    assert Join([s], "") == s;
    assert s[3] == ',';
  }

  /** The documented statements have no comma; kept apart so that the larger proofs do not unfold these literals. */
  lemma CommaFreeTexts()
    ensures ',' !in "v.1-v.3" && ',' !in "v.1/3" && ',' !in "v.5-6"
  {
  }

  /**
   * The documented output for holdings without gaps: 866 "v.1-v.3", 867
   * "v.1-v.3" and 868 "v.1/3" give "v.1-v.3; Supplement: v.1-v.3; Index:
   * v.1/3", and no gap is found, so no $l is added.
   */
  lemma DocumentedNoGaps()
    ensures var rec := [TextField("866", "v.1-v.3"), TextField("867", "v.1-v.3"), TextField("868", "v.1/3")];
      StatementsReadable(rec) &&
      Sf3(rec) == "v.1-v.3" + "; Supplement: " + "v.1-v.3" + "; Index: " + "v.1/3" &&
      !HasGaps(rec)
  {
    CommaFreeTexts();
    OneStatementPerTag("v.1-v.3", "v.1-v.3", "v.1/3");
  }

  /**
   * The documented output for holdings with gaps, $3 "v.1-v.3, v.5-6": a gap
   * is found when that text is one 866 statement, and none when it comes from
   * two 866 fields.
   */
  lemma DocumentedGaps()
    ensures var rec := TextFields("866", ["v.1-v.3" + ", " + "v.5-6"]);
      StatementsReadable(rec) && Sf3(rec) == "v.1-v.3" + ", " + "v.5-6" && HasGaps(rec)
    ensures var rec := TextFields("866", ["v.1-v.3", "v.5-6"]);
      StatementsReadable(rec) && Sf3(rec) == "v.1-v.3" + ", " + "v.5-6" && !HasGaps(rec)
  {
    CommaFreeTexts();
    OneStatementGap("v.1-v.3", "v.5-6");
    SeparateStatementsNoGap("v.1-v.3", "v.5-6");
  }
}
