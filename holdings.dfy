/**
 * What the completeness 583 reads from a holdings record: the textual holdings
 * statements of fields 866 (basic unit), 867 (supplementary material) and 868
 * (indexes), the $3 display string assembled from them, and the gap test that
 * decides whether "$l missing issues" is added. These are the expression-level
 * private methods of completeness_583.rb, as functions of the record.
 */
module Holdings {
  import opened Wrappers
  import opened Marc
  import opened RubyStrings

  /** `f['a'].sub(...)` needs the first $a of every field with the tag to be a String; nil (no $a) fails. */
  predicate Readable(rec: Record, tag: string)
  {
    forall f :: f in rec && f.tag == tag ==> FirstValue(f, 'a').Str?
  }

  /** All three statement tags are readable. */
  predicate StatementsReadable(rec: Record)
  {
    Readable(rec, "866") && Readable(rec, "867") && Readable(rec, "868")
  }

  /** Every first $a with the tag is a String on a single line, so Ruby's line anchors are string ends. */
  predicate SingleLine(rec: Record, tag: string)
  {
    forall f :: f in rec && f.tag == tag ==> FirstValue(f, 'a').Str? && '\n' !in FirstValue(f, 'a').s
  }

  /** All three statement tags hold single-line text. */
  predicate StatementsSingleLine(rec: Record)
  {
    SingleLine(rec, "866") && SingleLine(rec, "867") && SingleLine(rec, "868")
  }

  /** One statement: a field's first $a with `sub(/[\s,]*$/, '')` applied. */
  function Statement(f: DataField): string
    requires FirstValue(f, 'a').Str?
  {
    SubTrailing(FirstValue(f, 'a').s)
  }

  /** `field_to_holdings(tag)`: the statements of the fields with the tag, in record order. */
  function FieldToHoldings(rec: Record, tag: string): seq<string>
    requires Readable(rec, tag)
  {
    var fs := FieldsTagged(rec, tag);
    seq(|fs|, k requires 0 <= k < |fs| && FirstValue(fs[k], 'a').Str? => Statement(fs[k]))
  }

  /** `field_to_holdings` on single-line text: one trimmed statement per field with the tag, in record order. */
  lemma FieldToHoldingsTrimmed(rec: Record, tag: string)
    requires SingleLine(rec, tag)
    ensures var hs := FieldToHoldings(rec, tag);
      var fs := FieldsTagged(rec, tag);
      |hs| == |fs| &&
      forall k :: 0 <= k < |hs| ==>
        FirstValue(fs[k], 'a').Str? &&
        hs[k] == TrimRight(FirstValue(fs[k], 'a').s) &&
        '\n' !in hs[k] &&
        (hs[k] == [] || !IsSpaceOrComma(hs[k][|hs[k]| - 1])) &&
        SubTrailing(hs[k]) == hs[k]
  {
    var hs := FieldToHoldings(rec, tag);
    var fs := FieldsTagged(rec, tag);
    forall k | 0 <= k < |hs|
      ensures FirstValue(fs[k], 'a').Str?
      ensures hs[k] == Statement(fs[k])
      ensures '\n' !in FirstValue(fs[k], 'a').s
    {
      assert fs[k] in fs;
    }
    forall k | 0 <= k < |hs| {
      SubTrailingTrimmed(FirstValue(fs[k], 'a').s);
    }
  }

  /** `field_to_holdings` maps over the record in order: it splits over concatenation of records. */
  lemma FieldToHoldingsAppend(a: Record, b: Record, tag: string)
    requires Readable(a + b, tag)
    ensures Readable(a, tag) && Readable(b, tag)
    ensures FieldToHoldings(a + b, tag) == FieldToHoldings(a, tag) + FieldToHoldings(b, tag)
  {
    assert forall f :: f in a || f in b ==> f in a + b;
    FieldsTaggedAppend(a, b, tag);
    var fa, fb := FieldsTagged(a, tag), FieldsTagged(b, tag);
    var h, ha, hb := FieldToHoldings(a + b, tag), FieldToHoldings(a, tag), FieldToHoldings(b, tag);
    forall k | 0 <= k < |h|
      ensures h[k] == (ha + hb)[k]
    {
      if k < |fa| {
        assert (fa + fb)[k] == fa[k];
      } else {
        assert (fa + fb)[k] == fb[k - |fa|];
      }
    }
  }

  /** A one-field record gives that field's statement when the tag matches, nothing otherwise. */
  lemma FieldToHoldingsOne(f: DataField, tag: string)
    requires f.tag == tag ==> FirstValue(f, 'a').Str?
    ensures Readable([f], tag)
    ensures FieldToHoldings([f], tag) == if f.tag == tag then [Statement(f)] else []
  {
    assert [f][1..] == [];
  }

  /** The statements of all three kinds, basic first. */
  function AllStatements(rec: Record): seq<string>
    requires StatementsReadable(rec)
  {
    FieldToHoldings(rec, "866") + FieldToHoldings(rec, "867") + FieldToHoldings(rec, "868")
  }

  /** `gaps?`: the statements of each tag, joined with no separator, tested for a comma. */
  predicate HasGaps(rec: Record)
    requires StatementsReadable(rec)
  {
    ',' in Join(FieldToHoldings(rec, "866"), "")
    || ',' in Join(FieldToHoldings(rec, "867"), "")
    || ',' in Join(FieldToHoldings(rec, "868"), "")
  }

  /** Gaps are found exactly when some single (stripped) statement contains a comma: joining adds none. */
  lemma GapsIffStatementHasComma(rec: Record)
    requires StatementsReadable(rec)
    ensures HasGaps(rec) <==> exists v :: v in AllStatements(rec) && ',' in v
  {
    JoinNoSeparatorHasComma(FieldToHoldings(rec, "866"));
    JoinNoSeparatorHasComma(FieldToHoldings(rec, "867"));
    JoinNoSeparatorHasComma(FieldToHoldings(rec, "868"));
  }

  /** A statement whose only commas lie in its trailing run is stripped to a comma-free value: no gap. */
  lemma TrailingCommaIsNoGap(text: string)
    requires '\n' !in text
    requires forall i :: 0 <= i < |text| && text[i] == ',' ==>
      forall j :: i <= j < |text| ==> IsSpaceOrComma(text[j])
    ensures ',' !in SubTrailing(text)
  {
    SubTrailingIsTrimRight(text);
    var r := TrimRight(text);
    forall i | 0 <= i < |r|
      ensures r[i] != ','
    {
      var last := |r| - 1;
      assert r[i] == text[i] && r[last] == text[last];
      assert !IsSpaceOrComma(text[last]) ==> text[i] != ',';
    }
  }

  /** `m583sfl`: "$l missing issues" when there are gaps, nil otherwise. */
  function MissingIssues(rec: Record): Option<Subfield>
    requires StatementsReadable(rec)
  {
    if HasGaps(rec) then Some(Subfield('l', Str("missing issues"))) else None
  }

  // ---------------------------------------------------------------------------
  // m583sf3

  /** `"; #{heading}: #{joined}" unless joined.empty?` */
  function Segment(heading: string, joined: string): string
  {
    if joined == "" then "" else "; " + heading + ": " + joined
  }

  /** The $3 text before the leading-separator fix, from the three joined texts. */
  function Layout(basic: string, supplement: string, index: string): string
  {
    basic + Segment("Supplement", supplement) + Segment("Index", index)
  }

  /** The $3 text before the leading-separator fix: each kind's statements joined by ", ". */
  function RawSf3(basic: seq<string>, supplement: seq<string>, index: seq<string>): string
  {
    Layout(Join(basic, ", "), Join(supplement, ", "), Join(index, ", "))
  }

  /** `m583sf3` over given statements: the raw text with `gsub!(/^; /, '')` applied. */
  function AssembleSf3(basic: seq<string>, supplement: seq<string>, index: seq<string>): string
  {
    GsubLineStartSep(RawSf3(basic, supplement, index))
  }

  /** `m583sf3` for a record. */
  function Sf3(rec: Record): string
    requires StatementsReadable(rec)
  {
    AssembleSf3(FieldToHoldings(rec, "866"), FieldToHoldings(rec, "867"), FieldToHoldings(rec, "868"))
  }

  /** No statement contains a newline. */
  predicate NoNewlines(values: seq<string>)
  {
    forall k :: 0 <= k < |values| ==> '\n' !in values[k]
  }

  /** On single-line statements the substitution only drops a leading "; ". */
  lemma AssembleSf3SingleLine(basic: seq<string>, supplement: seq<string>, index: seq<string>)
    requires NoNewlines(basic) && NoNewlines(supplement) && NoNewlines(index)
    ensures AssembleSf3(basic, supplement, index) == DropLeadingSep(RawSf3(basic, supplement, index))
  {
    JoinNewlineFree(basic, ", ");
    JoinNewlineFree(supplement, ", ");
    JoinNewlineFree(index, ", ");
    var raw := RawSf3(basic, supplement, index);
    LayoutNewlineFree(Join(basic, ", "), Join(supplement, ", "), Join(index, ", "));
    GsubLineStartSepIsDropLeadingSep(raw);
  }

  /** A segment of single-line text under a single-line heading is single-line. */
  lemma SegmentNewlineFree(heading: string, joined: string)
    requires '\n' !in heading && '\n' !in joined
    ensures '\n' !in Segment(heading, joined)
  {
  }

  /** The layout of single-line texts is single-line. */
  lemma LayoutNewlineFree(basic: string, supplement: string, index: string)
    requires '\n' !in basic && '\n' !in supplement && '\n' !in index
    ensures '\n' !in Layout(basic, supplement, index)
  {
    assert '\n' !in "Supplement" && '\n' !in "Index";
    SegmentNewlineFree("Supplement", supplement);
    SegmentNewlineFree("Index", index);
  }

  /** A segment is its "; " followed by the heading, ": " and the joined text. */
  lemma SegmentSplit(heading: string, joined: string)
    requires joined != ""
    ensures Segment(heading, joined) == "; " + (heading + ": " + joined)
  {
  }

  /** Dropping the leading "; " of a text that starts with it gives the rest. */
  lemma DropLeadingSepOfSep(rest: string)
    ensures DropLeadingSep("; " + rest) == rest
  {
    assert ("; " + rest)[2..] == rest;
  }

  /** With basic text not opening with "; ", nothing is dropped. */
  lemma DropLeadingSepKeepsBasic(basic: string, supplement: string, index: string)
    requires basic != "" && !StartsWithSep(basic)
    ensures DropLeadingSep(Layout(basic, supplement, index)) == Layout(basic, supplement, index)
  {
    var raw := Layout(basic, supplement, index);
    assert raw[0] == basic[0];
    assert |basic| >= 2 ==> raw[1] == basic[1];
  }

  /** Without basic text, the supplement segment opens the text and loses its "; ". */
  lemma DropLeadingSepOfSupplement(supplement: string, index: string)
    requires supplement != ""
    ensures DropLeadingSep(Layout("", supplement, index)) == "Supplement: " + supplement + Segment("Index", index)
  {
    SegmentSplit("Supplement", supplement);
    var rest := "Supplement" + ": " + supplement + Segment("Index", index);
    assert Layout("", supplement, index) == "; " + rest;
    DropLeadingSepOfSep(rest);
    assert "Supplement" + ": " == "Supplement: ";
  }

  /** Without basic or supplement text, the index segment opens the text and loses its "; ". */
  lemma DropLeadingSepOfIndex(index: string)
    ensures DropLeadingSep(Layout("", "", index)) == if index == "" then "" else "Index: " + index
  {
    if index != "" {
      SegmentSplit("Index", index);
      assert Layout("", "", index) == "; " + ("Index" + ": " + index);
      DropLeadingSepOfSep("Index" + ": " + index);
      assert "Index" + ": " == "Index: ";
    } else {
      assert Layout("", "", index) == "";
    }
  }

  /** The layout written out when both optional segments are present. */
  lemma LayoutText(basic: string, supplement: string, index: string)
    requires supplement != "" && index != ""
    ensures Layout(basic, supplement, index) == basic + "; Supplement: " + supplement + "; Index: " + index
  {
    SegmentText(supplement);
    SegmentText(index);
  }

  /** The two segments written out, as `m583sf3` appends them. */
  lemma SegmentText(joined: string)
    requires joined != ""
    ensures Segment("Supplement", joined) == "; Supplement: " + joined
    ensures Segment("Index", joined) == "; Index: " + joined
  {
    assert "; Supplement: " == "; " + "Supplement" + ": ";
    assert "; Index: " == "; " + "Index" + ": ";
  }

  /** With no 867 or 868 statements, $3 is the basic statements joined by ", " (unless that text itself opens with "; "). */
  lemma Sf3OnlyBasic(basic: seq<string>)
    requires NoNewlines(basic)
    requires !StartsWithSep(Join(basic, ", "))
    ensures AssembleSf3(basic, [], []) == Join(basic, ", ")
  {
    AssembleSf3SingleLine(basic, [], []);
    assert RawSf3(basic, [], []) == Join(basic, ", ");
  }

  /**
   * The shape of $3 on single-line statements: the basic text, then
   * "; Supplement: ..." iff the joined 867 text is non-empty, then
   * "; Index: ..." iff the joined 868 text is non-empty; with no basic text the
   * first segment loses its leading "; ".
   */
  lemma Sf3Shape(basic: seq<string>, supplement: seq<string>, index: seq<string>)
    requires NoNewlines(basic) && NoNewlines(supplement) && NoNewlines(index)
    ensures var b, s, i := Join(basic, ", "), Join(supplement, ", "), Join(index, ", ");
      var sf3 := AssembleSf3(basic, supplement, index);
      (b != "" && !StartsWithSep(b) ==> sf3 == b + Segment("Supplement", s) + Segment("Index", i)) &&
      (b == "" && s != "" ==> sf3 == "Supplement: " + s + Segment("Index", i)) &&
      (b == "" && s == "" && i != "" ==> sf3 == "Index: " + i) &&
      (b == "" && s == "" && i == "" ==> sf3 == "")
  {
    AssembleSf3SingleLine(basic, supplement, index);
    var b, s, i := Join(basic, ", "), Join(supplement, ", "), Join(index, ", ");
    if b != "" && !StartsWithSep(b) {
      DropLeadingSepKeepsBasic(b, s, i);
    } else if b == "" && s != "" {
      DropLeadingSepOfSupplement(s, i);
    } else if b == "" {
      DropLeadingSepOfIndex(i);
    }
  }

  /**
   * $3 opens with "; " only when the raw text opened with "; ; " (the
   * substitution removes one). In particular, when there is no basic text
   * the result never opens with "; ".
   */
  lemma Sf3LeadingSep(basic: seq<string>, supplement: seq<string>, index: seq<string>)
    ensures var raw := RawSf3(basic, supplement, index);
      StartsWithSep(AssembleSf3(basic, supplement, index)) <==> |raw| >= 4 && raw[..4] == "; ; "
    ensures Join(basic, ", ") == "" ==> !StartsWithSep(AssembleSf3(basic, supplement, index))
  {
    var raw := RawSf3(basic, supplement, index);
    GsubLeavesLeadingSep(raw);
    var s, i := Join(supplement, ", "), Join(index, ", ");
    if Join(basic, ", ") == "" && raw != "" {
      assert raw == Segment("Supplement", s) + Segment("Index", i);
      assert raw[2] == 'S' || raw[2] == 'I';
    }
  }

  /** No statement is a lone "; " (true of every stripped statement, by `SubTrailingNotSep`). */
  predicate NoLoneSep(values: seq<string>)
  {
    forall k :: 0 <= k < |values| ==> values[k] != "; "
  }

  /** The layout is a lone "; " only when the basic text is. */
  lemma LayoutIsSep(basic: string, supplement: string, index: string)
    ensures Layout(basic, supplement, index) == "; " ==> basic == "; "
  {
    var segs := Segment("Supplement", supplement) + Segment("Index", index);
    assert Layout(basic, supplement, index) == basic + segs;
    assert segs == [] || |segs| > 2;
  }

  /** Statements none of which is a lone "; " never join to a lone "; ". */
  lemma JoinIsNotSep(values: seq<string>)
    requires NoLoneSep(values)
    ensures Join(values, ", ") != "; "
  {
    if |values| > 1 {
      var j := Join(values, ", ");
      assert j == values[0] + ", " + Join(values[1..], ", ");
      assert |j| >= |values[0]| + 2;
      if |j| == 2 {
        assert j[0] == ',';
      }
    }
  }

  /** $3 is empty exactly when all three joined texts are empty. */
  lemma Sf3Empty(basic: seq<string>, supplement: seq<string>, index: seq<string>)
    requires NoLoneSep(basic)
    ensures AssembleSf3(basic, supplement, index) == "" <==>
      Join(basic, ", ") == "" && Join(supplement, ", ") == "" && Join(index, ", ") == ""
  {
    var b, s, i := Join(basic, ", "), Join(supplement, ", "), Join(index, ", ");
    GsubEmpty(RawSf3(basic, supplement, index));
    LayoutIsSep(b, s, i);
    JoinIsNotSep(basic);
    if b == "" && s == "" && i == "" {
      assert RawSf3(basic, supplement, index) == "";
    } else {
      assert RawSf3(basic, supplement, index) != "";
    }
  }

  /** For any readable record, $3 is empty exactly when no statement text remains. */
  lemma Sf3EmptyForRecord(rec: Record)
    requires StatementsReadable(rec)
    ensures Sf3(rec) == "" <==>
      Join(FieldToHoldings(rec, "866"), ", ") == "" &&
      Join(FieldToHoldings(rec, "867"), ", ") == "" &&
      Join(FieldToHoldings(rec, "868"), ", ") == ""
  {
    var fs, hs := FieldsTagged(rec, "866"), FieldToHoldings(rec, "866");
    forall k | 0 <= k < |hs|
      ensures hs[k] != "; "
    {
      assert fs[k] in fs;
      SubTrailingNotSep(FirstValue(fs[k], 'a').s);
    }
    Sf3Empty(FieldToHoldings(rec, "866"), FieldToHoldings(rec, "867"), FieldToHoldings(rec, "868"));
  }
}
