/**
 * The Ruby string operations the 583 builders rely on, with Ruby's regular
 * expression anchors taken literally: `$` matches at the end of the string or
 * just before any newline, `^` at the start of the string or just after any
 * newline. Each regex operation is paired with a plain reference definition
 * and a lemma saying when the two agree.
 */
module RubyStrings {
  import opened Wrappers

  /** The character class `[\s,]`: Ruby's `\s` (space, \t, \n, \v, \f, \r) or a comma. */
  predicate IsSpaceOrComma(c: char)
  {
    c == ' ' || c == '\t' || c == '\n' || c == '\U{0B}' || c == '\U{0C}' || c == '\r' || c == ','
  }

  /** `Array#join(sep)` over strings. */
  function Join(parts: seq<string>, sep: string): string
  {
    if parts == [] then ""
    else if |parts| == 1 then parts[0]
    else parts[0] + sep + Join(parts[1..], sep)
  }

  /** Joining with no separator keeps exactly the characters of the parts: a comma is in the result iff it is in some part. */
  lemma {:induction false} JoinNoSeparatorHasComma(parts: seq<string>)
    ensures ',' in Join(parts, "") <==> exists v :: v in parts && ',' in v
  {
    if |parts| > 1 {
      JoinNoSeparatorHasComma(parts[1..]);
      assert Join(parts, "") == parts[0] + Join(parts[1..], "");
      assert forall v :: v in parts <==> v == parts[0] || v in parts[1..];
    }
  }

  /** Two parts join to the first, the separator and the second. */
  lemma JoinTwo(a: string, b: string, sep: string)
    ensures Join([a, b], sep) == a + sep + b
  {
    assert [a, b][1..] == [b];
  }

  /** A join with a non-empty separator is empty only for no parts or one empty part. */
  lemma JoinEmpty(parts: seq<string>, sep: string)
    requires sep != ""
    ensures Join(parts, sep) == "" <==> parts == [] || parts == [""]
  {
    if |parts| > 1 {
      assert |Join(parts, sep)| >= |sep|;
    }
  }

  /** Joining newline-free parts with a newline-free separator gives newline-free text. */
  lemma {:induction false} JoinNewlineFree(parts: seq<string>, sep: string)
    requires '\n' !in sep
    requires forall k :: 0 <= k < |parts| ==> '\n' !in parts[k]
    ensures '\n' !in Join(parts, sep)
  {
    if |parts| > 1 {
      JoinNewlineFree(parts[1..], sep);
    }
  }

  // ---------------------------------------------------------------------------
  // s.sub(/[\s,]*$/, '')

  /** Length of the longest prefix of `s` drawn from `[\s,]`. */
  function RunLength(s: string): (n: nat)
    ensures n <= |s|
    ensures forall k :: 0 <= k < n ==> IsSpaceOrComma(s[k])
    ensures n < |s| ==> !IsSpaceOrComma(s[n])
  {
    if s == [] || !IsSpaceOrComma(s[0]) then 0 else 1 + RunLength(s[1..])
  }

  /** Ruby's `$`: at the end of `s`, or just before a newline. */
  predicate LineEndAt(s: string, j: nat)
    requires j <= |s|
  {
    j == |s| || s[j] == '\n'
  }

  /**
   * The greedy `[\s,]*$` tried at position 0, once the star has consumed
   * `limit` characters: backtracking gives back characters until `$` holds.
   * The result is the largest `j <= limit` at a line end, if any.
   */
  function LastLineEnd(s: string, limit: nat): (r: Option<nat>)
    requires limit <= |s|
    ensures r.Some? ==> r.value <= limit && LineEndAt(s, r.value)
    ensures r.Some? ==> forall j :: r.value < j <= limit ==> !LineEndAt(s, j)
    ensures r.None? ==> forall j :: 0 <= j <= limit ==> !LineEndAt(s, j)
    decreases limit
  {
    if LineEndAt(s, limit) then Some(limit)
    else if limit == 0 then None
    else LastLineEnd(s, limit - 1)
  }

  /**
   * `s.sub(/[\s,]*$/, '')`: the leftmost match is removed. Scanning from the
   * left, the first position where the greedy match succeeds starts the
   * removed run; the text after the run is kept.
   */
  function SubTrailing(s: string): string
    decreases |s|
  {
    if s == [] then []
    else match LastLineEnd(s, RunLength(s))
      case Some(j) => s[j..]
      case None => [s[0]] + SubTrailing(s[1..])
  }

  /** Reference definition: `s` without its maximal trailing run of `[\s,]` characters. */
  function TrimRight(s: string): (r: string)
    ensures r <= s
    ensures forall k :: |r| <= k < |s| ==> IsSpaceOrComma(s[k])
    ensures r == [] || !IsSpaceOrComma(r[|r| - 1])
  {
    if s != [] && IsSpaceOrComma(s[|s| - 1]) then TrimRight(s[..|s| - 1]) else s
  }

  /** Trimming is idempotent. */
  lemma TrimRightIdempotent(s: string)
    ensures TrimRight(TrimRight(s)) == TrimRight(s)
  {
  }

  /** When `s` is not all `[\s,]`, its first character survives trimming. */
  lemma {:induction false} TrimRightCons(s: string)
    requires exists k :: 0 <= k < |s| && !IsSpaceOrComma(s[k])
    ensures TrimRight(s) == [s[0]] + TrimRight(s[1..])
    decreases |s|
  {
    var last := |s| - 1;
    if IsSpaceOrComma(s[last]) {
      var k :| 0 <= k < |s| && !IsSpaceOrComma(s[k]);
      assert k < last;
      var init := s[..last];
      assert !IsSpaceOrComma(init[k]);
      TrimRightCons(init);
      assert init[1..] == s[1..][..|s[1..]| - 1];
      assert s[1..][|s[1..]| - 1] == s[last];
    } else if |s| > 1 {
      assert s[1..][|s[1..]| - 1] == s[last];
    }
  }

  /** On text without newlines, Ruby's `sub(/[\s,]*$/, '')` removes exactly the maximal trailing run. */
  lemma {:induction false} SubTrailingIsTrimRight(s: string)
    requires '\n' !in s
    ensures SubTrailing(s) == TrimRight(s)
    decreases |s|
  {
    if s != [] {
      var n := RunLength(s);
      if n == |s| {
        assert LineEndAt(s, n);
        assert SubTrailing(s) == [];
      } else {
        assert LastLineEnd(s, n).None?;
        SubTrailingIsTrimRight(s[1..]);
        assert !IsSpaceOrComma(s[n]);
        TrimRightCons(s);
      }
    }
  }

  /** On single-line text the stripped value is single-line, ends in neither whitespace nor a comma, and stripping again changes nothing. */
  lemma SubTrailingTrimmed(text: string)
    requires '\n' !in text
    ensures SubTrailing(text) == TrimRight(text)
    ensures '\n' !in SubTrailing(text)
    ensures SubTrailing(text) == [] || !IsSpaceOrComma(SubTrailing(text)[|SubTrailing(text)| - 1])
    ensures SubTrailing(SubTrailing(text)) == SubTrailing(text)
  {
    SubTrailingIsTrimRight(text);
    var r := TrimRight(text);
    assert '\n' !in r by {
      assert forall k :: 0 <= k < |r| ==> r[k] == text[k];
    }
    SubTrailingIsTrimRight(r);
    TrimRightIdempotent(text);
  }

  /** A single-line value that does not end in whitespace or a comma is left as it is. */
  lemma SubTrailingKeeps(text: string)
    requires '\n' !in text
    requires text != [] && !IsSpaceOrComma(text[|text| - 1])
    ensures SubTrailing(text) == text
  {
    SubTrailingIsTrimRight(text);
  }

  /**
   * With an embedded newline, `$` matches before it, so the removed run can
   * stop short of the end: the result may still end in a comma.
   */
  lemma SubTrailingStopsAtNewline()
    ensures SubTrailing("a,\nb ,") == "a\nb ,"
  {
    var s := "a,\nb ,";
    assert RunLength(s) == 0;
    assert LastLineEnd(s, 0) == None;
    var t := s[1..];
    assert t == ",\nb ,";
    assert t[1..] == "\nb ,";
    assert t[2..] == "b ,";
    assert RunLength(t[2..]) == 0;
    assert RunLength(t) == 2;
    assert LastLineEnd(t, 2) == Some(1);
  }

  /** `sub` leaves nothing only when every character is whitespace or a comma. */
  lemma SubTrailingEmpty(s: string)
    requires SubTrailing(s) == []
    ensures forall k :: 0 <= k < |s| ==> IsSpaceOrComma(s[k])
  {
    if s != [] {
      match LastLineEnd(s, RunLength(s))
      case Some(j) =>
        assert |s[j..]| == 0;
      case None =>
    }
  }

  /** A stripped value is never a lone space: a single trailing space is always removed. */
  lemma SubTrailingNotSpace(s: string)
    ensures SubTrailing(s) != " "
  {
    if s != [] {
      match LastLineEnd(s, RunLength(s))
      case Some(j) =>
        assert j < |s| ==> s[j..][0] == '\n';
      case None =>
        var rest := SubTrailing(s[1..]);
        if rest == [] {
          SubTrailingEmpty(s[1..]);
          assert forall k :: 1 <= k < |s| ==> IsSpaceOrComma(s[k]) by {
            forall k | 1 <= k < |s|
              ensures IsSpaceOrComma(s[k])
            {
              assert s[k] == s[1..][k - 1];
            }
          }
          assert LineEndAt(s, |s|);
          assert RunLength(s) < |s|;
          assert RunLength(s) == 0;
          assert SubTrailing(s) == [s[0]] && s[0] != ' ';
        }
    }
  }

  /** A stripped value is never a lone "; ", whatever the text, newlines included. */
  lemma SubTrailingNotSep(s: string)
    ensures SubTrailing(s) != "; "
  {
    if s != [] {
      match LastLineEnd(s, RunLength(s))
      case Some(j) =>
        assert j < |s| ==> s[j..][0] == '\n';
      case None =>
        var rest := SubTrailing(s[1..]);
        SubTrailingNotSpace(s[1..]);
        assert ([s[0]] + rest)[1..] == rest;
    }
  }

  // ---------------------------------------------------------------------------
  // sf3.gsub!(/^; /, '')

  /** Whether `s` starts with the separator "; ". */
  predicate StartsWithSep(s: string)
  {
    |s| >= 2 && s[0] == ';' && s[1] == ' '
  }

  /**
   * Every "; " that begins a line of `s` removed; `atLineStart` says whether
   * position 0 of `s` begins a line. After a removal the next position follows
   * a space, so it does not begin a line.
   */
  function RemoveLineStartSeps(s: string, atLineStart: bool): string
    decreases |s|
  {
    if s == [] then []
    else if atLineStart && StartsWithSep(s) then RemoveLineStartSeps(s[2..], false)
    else [s[0]] + RemoveLineStartSeps(s[1..], s[0] == '\n')
  }

  /** `s.gsub(/^; /, '')`. */
  function GsubLineStartSep(s: string): string
  {
    RemoveLineStartSeps(s, true)
  }

  /** Reference definition: one leading "; " removed. */
  function DropLeadingSep(s: string): string
  {
    if StartsWithSep(s) then s[2..] else s
  }

  /** Away from line starts, newline-free text is left alone. */
  lemma {:induction false} RemoveLineStartSepsInsideLine(s: string)
    requires '\n' !in s
    ensures RemoveLineStartSeps(s, false) == s
    decreases |s|
  {
    if s != [] {
      RemoveLineStartSepsInsideLine(s[1..]);
    }
  }

  /** On text without newlines, `gsub(/^; /, '')` removes only a leading "; ". */
  lemma GsubLineStartSepIsDropLeadingSep(s: string)
    requires '\n' !in s
    ensures GsubLineStartSep(s) == DropLeadingSep(s)
  {
    if StartsWithSep(s) {
      RemoveLineStartSepsInsideLine(s[2..]);
    } else if s != [] {
      RemoveLineStartSepsInsideLine(s[1..]);
    }
  }

  /** The substitution leaves a leading "; " exactly when the text began with two of them. */
  lemma GsubLeavesLeadingSep(s: string)
    ensures StartsWithSep(GsubLineStartSep(s)) <==> |s| >= 4 && s[..4] == "; ; "
  {
    var r := GsubLineStartSep(s);
    if StartsWithSep(s) {
      var t := s[2..];
      assert r == RemoveLineStartSeps(t, false);
      if t != [] {
        assert r == [t[0]] + RemoveLineStartSeps(t[1..], t[0] == '\n');
        if t[0] == ';' && |t| >= 2 {
          assert RemoveLineStartSeps(t[1..], false) == [t[1]] + RemoveLineStartSeps(t[2..], t[1] == '\n');
          assert r[1] == t[1];
        }
      }
      if |s| >= 4 && s[..4] == "; ; " {
        assert t[0] == ';' && t[1] == ' ';
      }
    } else if s != [] {
      assert r == [s[0]] + RemoveLineStartSeps(s[1..], s[0] == '\n');
      if s[0] == ';' && |s| >= 2 {
        assert RemoveLineStartSeps(s[1..], false) == [s[1]] + RemoveLineStartSeps(s[2..], s[1] == '\n');
        assert r[1] == s[1];
      }
    }
  }

  /** The substitution yields "" exactly for "" and for a lone "; ". */
  lemma GsubEmpty(s: string)
    ensures GsubLineStartSep(s) == "" <==> s == "" || s == "; "
  {
    if StartsWithSep(s) {
      if |s| > 2 {
        var t := s[2..];
        assert RemoveLineStartSeps(t, false) == [t[0]] + RemoveLineStartSeps(t[1..], t[0] == '\n');
      } else {
        assert s == "; ";
        assert GsubLineStartSep(s) == RemoveLineStartSeps(s[2..], false);
        assert s[2..] == [];
      }
    } else if s != [] {
      assert GsubLineStartSep(s) == [s[0]] + RemoveLineStartSeps(s[1..], s[0] == '\n');
    }
  }
}
