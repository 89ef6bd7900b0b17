/** What the merged identity file is worth: it settles, keeps every other line, and reads back. */
module IdentityMerged {
  import opened Basics
  import opened IdentityText
  import opened IdentityMerge

  /** Values as the identity code passes them: trimmed and on one line. */
  ghost predicate Clean(values: seq<string>)
    requires |values| == 3
  {
    forall k :: 0 <= k < 3 ==> Trim(values[k]) == values[k] && '\n' !in values[k]
  }

  // ---- Single lines ----

  lemma PlainKeys()
    ensures Plain(SECTION) && HEADER == "[" + SECTION + "]"
    ensures Plain(KEYS[0]) && Plain(KEYS[1]) && Plain(KEYS[2])
  {
  }

  lemma KeyNumberOf(k: nat)
    requires k < 3
    ensures KeyNumber(KEYS[k]) == Some(k) && Plain(KEYS[k])
  {
    PlainKeys();
    assert |KEYS[0]| == 11 && |KEYS[1]| == 9 && |KEYS[2]| == 8;
  }

  lemma KeyLineSets(k: nat, values: seq<string>, eol: string)
    requires k < 3 && |values| == 3 && Clean(values)
    ensures Sets(KeyLine(k, values, eol)) == Some((k, values[k])) && !IsHeader(KeyLine(k, values, eol))
  {
    hide KeyText, Section, KeyValue, KeyNumber, Plain, Trim;
    KeyNumberOf(k);
    KeyTextParses(KEYS[k], values[k]);
  }

  lemma HeaderOpens(eol: string)
    ensures Opens(Line(HEADER, eol))
  {
    hide Section, Plain;
    PlainKeys();
    HeaderParses(SECTION);
  }

  /** An edited line sets the key it set; in the section it is still no header. */
  lemma EditedSets(ls: seq<Line>, s: nat, e: nat, values: seq<string>, i: nat)
    requires |values| == 3 && Clean(values) && i < |ls| && Within(ls, s, e)
    ensures var l := EditLine(ls, s, e, values, i);
      && (IsHeader(l) <==> IsHeader(ls[i])) && (Opens(l) <==> Opens(ls[i]))
      && (forall k :: SetsKey(l, k) <==> SetsKey(ls[i], k))
      && (s < i < e && FirstSetting(ls, s, i) ==> Sets(l) == Some((Sets(ls[i]).value.0, values[Sets(ls[i]).value.0])))
      && (!(s < i < e) ==> l == ls[i])
      && l.eol == ls[i].eol
  {
    hide Section, KeyValue, KeyLine, Trim;
    if s < i < e && FirstSetting(ls, s, i) {
      KeyLineSets(Sets(ls[i]).value.0, values, ls[i].eol);
      KeyLineEol(Sets(ls[i]).value.0, values, ls[i].eol);
    }
  }

  lemma KeyLineEol(k: nat, values: seq<string>, eol: string)
    requires k < 3 && |values| == 3
    ensures KeyLine(k, values, eol).eol == eol
  {
  }

  // ---- The missing lines ----

  lemma {:induction false} MissingExact(k: nat, written: seq<bool>, values: seq<string>, eol: string, p: nat)
    returns (j: nat)
    requires k <= 3 && |written| == 3 && |values| == 3 && p < |MissingFrom(k, written, values, eol)|
    ensures k <= j < 3 && !written[j] && MissingFrom(k, written, values, eol)[p] == KeyLine(j, values, eol)
    decreases 3 - k
  {
    hide KeyLine;
    if !written[k] && p == 0 {
      j := k;
    } else {
      j := MissingExact(k + 1, written, values, eol, if written[k] then p else p - 1);
    }
  }

  /** The line sets one of the keys from `lo` to `hi`. */
  ghost predicate ForKey(l: Line, lo: nat, hi: nat, values: seq<string>, eol: string)
    requires hi <= 3 && |values| == 3
  {
    exists i :: lo <= i < hi && l == KeyLine(i, values, eol)
  }

  /**
   * Where the line for an unwritten key stands; the lines before it are for smaller keys, those behind it for larger
   * ones.
   */
  lemma {:induction false} MissingPlace(k: nat, written: seq<bool>, values: seq<string>, eol: string, j: nat)
    returns (p: nat)
    requires k <= j < 3 && |written| == 3 && |values| == 3 && !written[j]
    ensures var missing := MissingFrom(k, written, values, eol);
      && p < |missing| && missing[p] == KeyLine(j, values, eol)
      && (forall q :: 0 <= q < p ==> ForKey(missing[q], k, j, values, eol))
      && (forall q :: p < q < |missing| ==> ForKey(missing[q], j + 1, 3, values, eol))
    decreases 3 - k
  {
    hide KeyLine, ForKey;
    var missing, rest := MissingFrom(k, written, values, eol), MissingFrom(k + 1, written, values, eol);
    if j == k {
      p := 0;
      forall q | 0 < q < |missing|
        ensures ForKey(missing[q], j + 1, 3, values, eol)
      {
        assert missing[q] == rest[q - 1];
        MissingForKey(k + 1, written, values, eol, q - 1);
      }
    } else {
      var before := MissingPlace(k + 1, written, values, eol, j);
      if written[k] {
        p := before;
        assert missing == rest;
        forall q | 0 <= q < p
          ensures ForKey(missing[q], k, j, values, eol)
        {
          ForKeyWider(missing[q], k, j, values, eol);
        }
      } else {
        p := before + 1;
        forall q | 0 <= q < |missing| && q != p
          ensures if q < p then ForKey(missing[q], k, j, values, eol) else ForKey(missing[q], j + 1, 3, values, eol)
        {
          if q == 0 {
            ForKeyOne(k, j, values, eol);
          } else {
            assert missing[q] == rest[q - 1];
            ForKeyWider(missing[q], k, j, values, eol);
          }
        }
      }
    }
  }

  lemma KeyFor(l: Line, lo: nat, hi: nat, values: seq<string>, eol: string) returns (i: nat)
    requires hi <= 3 && |values| == 3 && ForKey(l, lo, hi, values, eol)
    ensures lo <= i < hi && l == KeyLine(i, values, eol)
  {
    i :| lo <= i < hi && l == KeyLine(i, values, eol);
  }

  lemma MissingForKey(k: nat, written: seq<bool>, values: seq<string>, eol: string, p: nat)
    requires k <= 3 && |written| == 3 && |values| == 3 && p < |MissingFrom(k, written, values, eol)|
    ensures ForKey(MissingFrom(k, written, values, eol)[p], k, 3, values, eol)
  {
    hide KeyLine, MissingFrom;
    var j := MissingExact(k, written, values, eol, p);
  }

  lemma ForKeyOne(k: nat, hi: nat, values: seq<string>, eol: string)
    requires k < hi <= 3 && |values| == 3
    ensures ForKey(KeyLine(k, values, eol), k, hi, values, eol)
  {
    hide KeyLine;
  }

  lemma ForKeyWider(l: Line, k: nat, hi: nat, values: seq<string>, eol: string)
    requires hi <= 3 && |values| == 3
    ensures ForKey(l, k + 1, hi, values, eol) ==> ForKey(l, k, hi, values, eol)
  {
    hide KeyLine;
  }

  lemma {:induction false} FirstOf(ls: seq<Line>, s: nat, e: nat, k: nat) returns (i: nat)
    requires e <= |ls| && Has(ls, s, e, k)
    ensures s < i < e && SetsKey(ls[i], k) && FirstSetting(ls, s, i)
    decreases e
  {
    hide Sets;
    if Has(ls, s, e - 1, k) {
      i := FirstOf(ls, s, e - 1, k);
    } else {
      i := e - 1;
      forall j | s < j < i
        ensures !SetsKey(ls[j], k)
      {
        assert s < j < e - 1;
      }
    }
  }

  // ---- Settled files ----

  /** Line `i` is the first of its section to set key `k`, and sets it right. */
  ghost predicate SetRight(m: seq<Line>, s: nat, e: nat, k: nat, values: seq<string>, i: nat)
    requires |values| == 3 && k < 3
  {
    s < i < e <= |m| && Sets(m[i]) == Some((k, values[k])) && forall j :: s < j < i ==> !SetsKey(m[j], k)
  }

  ghost predicate KeyRight(m: seq<Line>, s: nat, e: nat, k: nat, values: seq<string>)
    requires |values| == 3 && k < 3
  {
    exists i: nat :: SetRight(m, s, e, k, values, i)
  }

  ghost predicate SettledIn(m: seq<Line>, s: nat, e: nat, values: seq<string>)
    requires |values| == 3
  {
    Within(m, s, e) && forall k :: 0 <= k < 3 ==> KeyRight(m, s, e, k, values)
  }

  ghost predicate Settled(m: seq<Line>, values: seq<string>)
    requires |values| == 3
  {
    exists s: nat, e: nat :: SettledIn(m, s, e, values)
  }

  lemma OneSection(ls: seq<Line>, s: nat, e: nat, s': nat, e': nat)
    requires Within(ls, s, e) && Within(ls, s', e')
    ensures s == s' && e == e'
  {
    hide Opens, IsHeader;
    assert Opens(ls[s]) && Opens(ls[s']);
    assert e < |ls| ==> IsHeader(ls[e]);
    assert e' < |ls| ==> IsHeader(ls[e']);
  }

  /** Merging a settled file changes nothing. */
  lemma SettledStays(ls: seq<Line>, values: seq<string>, m: seq<Line>)
    requires |values| == 3 && Settled(ls, values) && Merged(ls, values, m)
    ensures m == ls
  {
    hide Sets, Opens, IsHeader, Has;
    var s: nat, e: nat :| SettledIn(ls, s, e, values);
    assert Opens(ls[s]);
    var s': nat, e': nat :| MergedIn(ls, s', e', values, m);
    OneSection(ls, s, e, s', e');
    AllWritten(ls, s, e, values);
    NothingMissing(Written(ls, s, e), values, DefaultEol(ls));
    forall i | 0 <= i < |ls|
      ensures EditLine(ls, s, e, values, i) == ls[i]
    {
      SettledLine(ls, s, e, values, i);
    }
    assert Edited(ls, s, e, values) == ls;
    assert ls[..e] + [] + ls[e..] == ls;
  }

  lemma SettledLine(ls: seq<Line>, s: nat, e: nat, values: seq<string>, i: nat)
    requires |values| == 3 && SettledIn(ls, s, e, values) && i < |ls|
    ensures EditLine(ls, s, e, values, i) == ls[i]
  {
    hide KeyValue, KeyNumber, Section;
    if s < i < e && FirstSetting(ls, s, i) {
      var k := Sets(ls[i]).value.0;
      assert KeyRight(ls, s, e, k, values);
      var first: nat :| SetRight(ls, s, e, k, values, first);
      assert SetsKey(ls[first], k) && SetsKey(ls[i], k);
      assert first == i;
    }
  }

  lemma AllWritten(ls: seq<Line>, s: nat, e: nat, values: seq<string>)
    requires |values| == 3 && SettledIn(ls, s, e, values)
    ensures Written(ls, s, e) == [true, true, true]
  {
    hide Sets, Opens, IsHeader;
    forall k: nat | k < 3
      ensures Has(ls, s, e, k)
    {
      assert KeyRight(ls, s, e, k, values);
      var i: nat :| SetRight(ls, s, e, k, values, i);
      assert SetsKey(ls[i], k);
    }
  }

  lemma NothingMissing(written: seq<bool>, values: seq<string>, eol: string)
    requires |values| == 3 && written == [true, true, true]
    ensures MissingFrom(0, written, values, eol) == []
  {
    assert MissingFrom(2, written, values, eol) == MissingFrom(3, written, values, eol);
    assert MissingFrom(1, written, values, eol) == MissingFrom(2, written, values, eol);
  }

  // ---- Merging settles ----

  /** The lines of a merged file, by place. */
  lemma MergedLine(ls: seq<Line>, s: nat, e: nat, values: seq<string>, m: seq<Line>, i: nat)
    requires |values| == 3 && MergedIn(ls, s, e, values, m) && i < |m|
    ensures var missing := MissingFrom(0, Written(ls, s, e), values, DefaultEol(ls));
      && |m| == |ls| + |missing|
      && m[i] == if i < e then EditLine(ls, s, e, values, i) else if i < e + |missing| then missing[i - e]
      else ls[i - |missing|]
  {
    hide MissingFrom, EditLine, Opens, IsHeader;
  }

  lemma MergedSize(ls: seq<Line>, s: nat, e: nat, values: seq<string>, m: seq<Line>)
    requires |values| == 3 && MergedIn(ls, s, e, values, m)
    ensures Within(ls, s, e) && s < e <= |ls|
            && |m| == |ls| + |MissingFrom(0, Written(ls, s, e), values, DefaultEol(ls))|
  {
    hide MissingFrom, EditLine, Opens, IsHeader, Written;
  }

  lemma MergedWithin(ls: seq<Line>, s: nat, e: nat, values: seq<string>, m: seq<Line>)
    requires |values| == 3 && Clean(values) && MergedIn(ls, s, e, values, m)
    ensures |m| >= |ls| && Within(m, s, e + |m| - |ls|)
  {
    hide Edited, EditLine, MissingFrom, Written, KeyLine, Section, Clean, KeyValue, KeyNumber;
    MergedSize(ls, s, e, values, m);
    var missing := MissingFrom(0, Written(ls, s, e), values, DefaultEol(ls));
    forall i | 0 <= i < |m|
      ensures i < e ==> (IsHeader(m[i]) <==> IsHeader(ls[i])) && (Opens(m[i]) <==> Opens(ls[i]))
      ensures e <= i < e + |missing| ==> !IsHeader(m[i])
      ensures e + |missing| <= i ==> m[i] == ls[i - |missing|]
    {
      MergedLine(ls, s, e, values, m, i);
      if i < e {
        EditedSets(ls, s, e, values, i);
      } else if i < e + |missing| {
        var k := MissingExact(0, Written(ls, s, e), values, DefaultEol(ls), i - e);
        KeyLineSets(k, values, DefaultEol(ls));
      }
    }
  }

  lemma MergedSetsKey(ls: seq<Line>, s: nat, e: nat, values: seq<string>, m: seq<Line>, k: nat) returns (i: nat)
    requires |values| == 3 && Clean(values) && MergedIn(ls, s, e, values, m) && k < 3
    ensures SetRight(m, s, e + |m| - |ls|, k, values, i)
  {
    hide Edited, EditLine, MissingFrom, KeyLine, Section, KeyValue, KeyNumber, Within, Has, Clean;
    MergedSize(ls, s, e, values, m);
    var written, eol := Written(ls, s, e), DefaultEol(ls);
    assert written[k] == Has(ls, s, e, k);
    forall j | s < j < e
      ensures SetsKey(m[j], k) <==> SetsKey(ls[j], k)
    {
      MergedLine(ls, s, e, values, m, j);
      EditedSets(ls, s, e, values, j);
    }
    if Has(ls, s, e, k) {
      i := FirstOf(ls, s, e, k);
      MergedLine(ls, s, e, values, m, i);
      EditedSets(ls, s, e, values, i);
    } else {
      var p := MissingPlace(0, written, values, eol, k);
      i := e + p;
      MergedLine(ls, s, e, values, m, i);
      KeyLineSets(k, values, eol);
      forall j | s < j < i
        ensures !SetsKey(m[j], k)
      {
        if j < e {
          NotHas(ls, s, e, k, j);
        } else {
          MergedLine(ls, s, e, values, m, j);
          var other := KeyFor(MissingFrom(0, written, values, eol)[j - e], 0, k, values, eol);
          KeyLineSets(other, values, eol);
        }
      }
    }
  }

  lemma NotHas(ls: seq<Line>, s: nat, e: nat, k: nat, j: nat)
    requires e <= |ls| && !Has(ls, s, e, k) && s < j < e
    ensures !SetsKey(ls[j], k)
  {
    hide Sets;
  }

  lemma MergedInSettles(ls: seq<Line>, s: nat, e: nat, values: seq<string>, m: seq<Line>)
    requires |values| == 3 && Clean(values) && MergedIn(ls, s, e, values, m)
    ensures Settled(m, values)
  {
    hide Within, SetRight, MergedIn, Clean;
    MergedWithin(ls, s, e, values, m);
    MergedSize(ls, s, e, values, m);
    var end := e + |m| - |ls|;
    forall k | 0 <= k < 3
      ensures KeyRight(m, s, end, k, values)
    {
      var i := MergedSetsKey(ls, s, e, values, m, k);
    }
    assert SettledIn(m, s, end, values);
  }

  lemma AllMissing(values: seq<string>, eol: string)
    requires |values| == 3
    ensures MissingFrom(0, [false, false, false], values, eol)
            == [KeyLine(0, values, eol), KeyLine(1, values, eol), KeyLine(2, values, eol)]
  {
    hide KeyLine;
    var written := [false, false, false];
    assert MissingFrom(2, written, values, eol) == [KeyLine(2, values, eol)] + MissingFrom(3, written, values, eol);
    assert MissingFrom(1, written, values, eol) == [KeyLine(1, values, eol)] + MissingFrom(2, written, values, eol);
  }

  lemma MergedNewSettles(ls: seq<Line>, values: seq<string>, m: seq<Line>)
    requires |values| == 3 && Clean(values) && MergedNew(ls, values, m)
    ensures Settled(m, values)
  {
    hide KeyLine, Section, KeyValue, KeyNumber, MissingFrom, Clean;
    var s, e, eol := |ls|, |m|, DefaultEol(ls);
    AllMissing(values, eol);
    HeaderOpens(eol);
    assert m[s] == Line(HEADER, eol);
    assert m[s + 1] == KeyLine(0, values, eol) && m[s + 2] == KeyLine(1, values, eol)
        && m[s + 3] == KeyLine(2, values, eol);
    KeyLineSets(0, values, eol);
    KeyLineSets(1, values, eol);
    KeyLineSets(2, values, eol);
    forall i | 0 <= i < s
      ensures !Opens(m[i])
    {
      assert m[i].text == ls[i].text;
    }
    forall i | s < i < e
      ensures !IsHeader(m[i])
    {
      assert i == s + 1 || i == s + 2 || i == s + 3;
    }
    assert Within(m, s, e);
    forall k | 0 <= k < 3
      ensures KeyRight(m, s, e, k, values)
    {
      assert k == 0 || k == 1 || k == 2;
      assert SetRight(m, s, e, k, values, s + 1 + k);
    }
    assert SettledIn(m, s, e, values);
  }

  /** Merging twice is merging once. */
  lemma MergeIdempotent(ls: seq<Line>, values: seq<string>, m: seq<Line>, again: seq<Line>)
    requires |values| == 3 && Clean(values) && Merged(ls, values, m) && Merged(m, values, again)
    ensures again == m
  {
    hide MergedNew, MergedIn, Settled;
    if !MergedNew(ls, values, m) {
      var s: nat, e: nat :| MergedIn(ls, s, e, values, m);
      MergedInSettles(ls, s, e, values, m);
    } else {
      MergedNewSettles(ls, values, m);
    }
    SettledStays(m, values, again);
  }

  // ---- Every other line ----

  /** A line of the file is in the merged file, in its place, unless it is the first to set a key in the section. */
  lemma OtherLinesKept(ls: seq<Line>, s: nat, e: nat, values: seq<string>, m: seq<Line>, i: nat)
    requires |values| == 3 && Clean(values) && MergedIn(ls, s, e, values, m) && i < |ls|
    ensures |m| >= |ls|
    ensures var kept := m[if i < e then i else i + |m| - |ls|];
      if s < i < e && FirstSetting(ls, s, i) then kept.eol == ls[i].eol
          && Sets(kept) == Some((Sets(ls[i]).value.0, values[Sets(ls[i]).value.0]))
      else kept == ls[i]
  {
    hide Edited, EditLine, MissingFrom, KeyLine, Section, KeyValue, KeyNumber, Within, Has, Written, Clean;
    MergedSize(ls, s, e, values, m);
    MergedLine(ls, s, e, values, m, if i < e then i else i + |m| - |ls|);
    if i < e {
      EditedSets(ls, s, e, values, i);
      EditedSame(ls, s, e, values, i);
    }
  }

  lemma EditedSame(ls: seq<Line>, s: nat, e: nat, values: seq<string>, i: nat)
    requires |values| == 3 && i < |ls|
    ensures !(s < i < e && FirstSetting(ls, s, i)) ==> EditLine(ls, s, e, values, i) == ls[i]
  {
  }

  // ---- Reading the file again ----

  predicate EndsInReturn(text: string) {
    text != "" && text[|text| - 1] == '\r'
  }

  /** The file ends with a line break, or nothing is appended behind its last line that would run into it. */
  ghost predicate Tidy(ls: seq<Line>) {
    || ls == [] || ls[|ls| - 1].eol != ""
    || (NoSection(ls) && (DefaultEol(ls) == "\r\n" || !EndsInReturn(ls[|ls| - 1].text)))
    || (exists s: nat, e: nat :: Within(ls, s, e) && (e < |ls| || Written(ls, s, e) == [true, true, true]))
  }

  lemma KeyLineWellFormed(k: nat, values: seq<string>, eol: string, last: bool)
    requires k < 3 && |values| == 3 && Clean(values) && (eol == "\n" || eol == "\r\n" || eol == "")
    ensures WellFormed(KeyLine(k, values, eol), last) <==> eol != "" || last
  {
    KeyNumberOf(k);
    var key, value := KEYS[k], values[k];
    var text := KeyText(key, value);
    hide Plain, KeyText, Trim;
    KeyTextClean(key, value, text);
  }

  lemma KeyTextClean(key: string, value: string, text: string)
    requires Plain(key) && Trim(value) == value && '\n' !in value && text == KeyText(key, value)
    ensures text != "" && !EndsInReturn(text) && forall i :: 0 <= i < |text| ==> text[i] != '\n'
  {
    TrimmedEnd(value);
    forall i | 0 <= i < |text|
      ensures text[i] != '\n'
    {
      assert text[i] == if i < |key| then key[i] else if i < |key| + 3 then " = "[i - |key|] else value[i - |key| - 3];
    }
  }

  lemma TrimmedEnd(s: string)
    requires Trim(s) == s
    ensures s != "" ==> !IsSpace(s[|s| - 1])
  {
    TrimLeftShort(s);
    if s != "" && TrimLeft(s) == s {
      TrimRightShort(s[..|s| - 1]);
    } else {
      TrimRightShort(TrimLeft(s));
    }
  }

  lemma {:induction false} TrimLeftShort(s: string)
    ensures |TrimLeft(s)| <= |s| && (|TrimLeft(s)| == |s| ==> TrimLeft(s) == s)
  {
    if s != "" && IsSpace(s[0]) {
      TrimLeftShort(s[1..]);
    }
  }

  lemma {:induction false} TrimRightShort(s: string)
    ensures |TrimRight(s)| <= |s|
  {
    if s != "" && IsSpace(s[|s| - 1]) {
      TrimRightShort(s[..|s| - 1]);
    }
  }

  lemma EditedWellFormed(ls: seq<Line>, s: nat, e: nat, values: seq<string>, i: nat)
    requires |values| == 3 && Clean(values) && Lines(ls) && i < |ls| && Within(ls, s, e)
    ensures WellFormed(EditLine(ls, s, e, values, i), true) && EditLine(ls, s, e, values, i).eol == ls[i].eol
  {
    hide KeyValue, KeyLine, Section, Clean, Within;
    assert WellFormed(ls[i], i == |ls| - 1);
    if s < i < e && FirstSetting(ls, s, i) {
      KeyLineWellFormed(Sets(ls[i]).value.0, values, ls[i].eol, true);
      KeyLineEol(Sets(ls[i]).value.0, values, ls[i].eol);
    }
  }

  lemma DefaultEolEnds(ls: seq<Line>)
    requires Lines(ls)
    ensures DefaultEol(ls) == "\n" || DefaultEol(ls) == "\r\n"
  {
    assert ls != [] ==> WellFormed(ls[0], 0 == |ls| - 1);
  }

  /** Lines that may all stand last form a file when all but the last have an ending. */
  lemma LinesIff(m: seq<Line>)
    requires forall i :: 0 <= i < |m| ==> WellFormed(m[i], true)
    ensures Lines(m) <==> forall i :: 0 <= i < |m| - 1 ==> m[i].eol != ""
  {
  }

  lemma MergedInLines(ls: seq<Line>, s: nat, e: nat, values: seq<string>, m: seq<Line>)
    requires |values| == 3 && Clean(values) && Lines(ls) && MergedIn(ls, s, e, values, m)
    ensures Lines(m) <==> ls[|ls| - 1].eol != "" || e < |ls| || |m| == |ls|
  {
    hide MergedIn, Clean, Lines, WellFormed, Within, MissingFrom, DefaultEol, Written;
    MergedSize(ls, s, e, values, m);
    var last := |ls| - 1;
    forall i | 0 <= i < |m|
      ensures WellFormed(m[i], true)
    {
      MergedWellFormed(ls, s, e, values, m, i);
    }
    LinesIff(m);
    if ls[last].eol == "" && e == |ls| && |m| > |ls| {
      MergedWellFormed(ls, s, e, values, m, last);
    } else {
      forall i | 0 <= i < |m| - 1
        ensures m[i].eol != ""
      {
        var more := |m| - |ls|;
        MergedWellFormed(ls, s, e, values, m, i);
        DefaultEolEnds(ls);
        var at := if i < e then i else i - more;
        if (i < e || i >= e + more) && at < last {
          NotLast(ls, at);
        }
      }
    }
  }

  lemma NotLast(ls: seq<Line>, i: nat)
    requires Lines(ls) && i < |ls| - 1
    ensures ls[i].eol != ""
  {
    assert WellFormed(ls[i], i == |ls| - 1);
  }

  lemma MergedWellFormed(ls: seq<Line>, s: nat, e: nat, values: seq<string>, m: seq<Line>, i: nat)
    requires |values| == 3 && Clean(values) && Lines(ls) && MergedIn(ls, s, e, values, m) && i < |m|
    ensures e <= |ls| <= |m|
    ensures var more := |m| - |ls|;
      WellFormed(m[i], true) && m[i].eol == if i < e then ls[i].eol else if i < e + more then DefaultEol(ls)
      else ls[i - more].eol
  {
    hide MergedIn, EditLine, MissingFrom, KeyLine, Within, Written, Clean, WellFormed, DefaultEol, Lines;
    MergedSize(ls, s, e, values, m);
    MergedLine(ls, s, e, values, m, i);
    if i < e {
      EditedWellFormed(ls, s, e, values, i);
    } else if i < e + |m| - |ls| {
      DefaultEolEnds(ls);
      var k := MissingExact(0, Written(ls, s, e), values, DefaultEol(ls), i - e);
      KeyLineWellFormed(k, values, DefaultEol(ls), true);
      KeyLineEol(k, values, DefaultEol(ls));
    } else {
      MayBeLast(ls, i - (|m| - |ls|));
    }
  }

  lemma MayBeLast(ls: seq<Line>, i: nat)
    requires Lines(ls) && i < |ls|
    ensures WellFormed(ls[i], true)
  {
    assert WellFormed(ls[i], i == |ls| - 1);
  }

  lemma MergedNewLines(ls: seq<Line>, values: seq<string>, m: seq<Line>)
    requires |values| == 3 && Clean(values) && Lines(ls) && MergedNew(ls, values, m)
    ensures Lines(m) <==>
            ls == [] || ls[|ls| - 1].eol != "" || DefaultEol(ls) == "\r\n" || !EndsInReturn(ls[|ls| - 1].text)
  {
    hide KeyLine, MissingFrom, Clean, Opens;
    var eol := DefaultEol(ls);
    DefaultEolEnds(ls);
    AllMissing(values, eol);
    var s := |ls|;
    assert m[s] == Line(HEADER, eol);
    assert |m| == s + 4 && m[s + 1] == KeyLine(0, values, eol) && m[s + 2] == KeyLine(1, values, eol)
        && m[s + 3] == KeyLine(2, values, eol);
    KeyLineWellFormed(0, values, eol, false);
    KeyLineWellFormed(1, values, eol, false);
    KeyLineWellFormed(2, values, eol, true);
    HeaderWellFormed(eol);
    hide WellFormed, DefaultEol, EndsInReturn, Lines;
    forall i | 0 <= i < s
      ensures m[i] == EndLine(ls[i], eol)
      ensures WellFormed(m[i], false) <==> ls[i].eol != "" || eol == "\r\n" || !EndsInReturn(ls[i].text)
      ensures i < s - 1 ==> ls[i].eol != ""
    {
      MayBeLast(ls, i);
      EndedLine(ls[i], eol);
      if i < s - 1 {
        NotLast(ls, i);
      }
    }
    LinesBy(m, s, ls != [] && !WellFormed(m[s - 1], false));
  }

  /** A line with the ending it is given when it has none. */
  function EndLine(l: Line, eol: string): Line {
    if l.eol == "" then Line(l.text, eol) else l
  }

  lemma EndedLine(l: Line, eol: string)
    requires WellFormed(l, true) && (eol == "\n" || eol == "\r\n")
    ensures WellFormed(EndLine(l, eol), false) <==> l.eol != "" || eol == "\r\n" || !EndsInReturn(l.text)
  {
  }

  lemma LinesBy(m: seq<Line>, s: nat, bad: bool)
    requires |m| == s + 4 && WellFormed(m[s], false) && WellFormed(m[s + 1], false) && WellFormed(m[s + 2], false)
        && WellFormed(m[s + 3], true)
    requires forall i :: 0 <= i < s - 1 ==> WellFormed(m[i], false)
    requires s > 0 ==> bad == !WellFormed(m[s - 1], false)
    requires s == 0 ==> !bad
    ensures Lines(m) <==> !bad
  {
    hide WellFormed;
    forall i | 0 <= i < |m| - 1 && !bad
      ensures WellFormed(m[i], i == |m| - 1)
    {
      assert i < s - 1 || i == s - 1 || i == s || i == s + 1 || i == s + 2;
    }
    if Lines(m) && s > 0 {
      assert WellFormed(m[s - 1], s - 1 == |m| - 1);
    }
  }

  lemma HeaderWellFormed(eol: string)
    requires eol == "\n" || eol == "\r\n"
    ensures WellFormed(Line(HEADER, eol), false)
  {
    assert |HEADER| == 15;
  }

  /** The merged file is read back as the merged lines exactly when the original was tidy. */
  lemma MergedReadsBackIff(ls: seq<Line>, values: seq<string>, m: seq<Line>)
    requires |values| == 3 && Clean(values) && Lines(ls) && Merged(ls, values, m)
    ensures Split(Join(m)) == m <==> Tidy(ls)
  {
    hide Clean, Opens, IsHeader, Has, MergedNew, Edited;
    ReadsBackIff(m);
    if MergedNew(ls, values, m) {
      MergedNewLines(ls, values, m);
      NewHasNoSection(ls, values, m);
    } else {
      var s: nat, e: nat :| MergedIn(ls, s, e, values, m);
      MergedInLines(ls, s, e, values, m);
      MergedSize(ls, s, e, values, m);
      NoneMissingIff(Written(ls, s, e), values, DefaultEol(ls));
      assert Opens(ls[s]);
      forall s': nat, e': nat | Within(ls, s', e')
        ensures s' == s && e' == e
      {
        OneSection(ls, s, e, s', e');
      }
    }
  }

  lemma NewHasNoSection(ls: seq<Line>, values: seq<string>, m: seq<Line>)
    requires |values| == 3 && MergedNew(ls, values, m)
    ensures NoSection(ls) && forall s: nat, e: nat :: !Within(ls, s, e)
  {
    hide Opens;
  }

  lemma NoneMissingIff(written: seq<bool>, values: seq<string>, eol: string)
    requires |written| == 3 && |values| == 3
    ensures |MissingFrom(0, written, values, eol)| == 0 <==> written == [true, true, true]
  {
    hide KeyLine;
    assert MissingFrom(2, written, values, eol)
        == (if written[2] then [] else [KeyLine(2, values, eol)]) + MissingFrom(3, written, values, eol);
    assert MissingFrom(1, written, values, eol)
        == (if written[1] then [] else [KeyLine(1, values, eol)]) + MissingFrom(2, written, values, eol);
  }

  /** The bytes that a tidy file becomes stay as they are when they are read, merged and written again. */
  lemma FileSettles(data: string, values: seq<string>, m: seq<Line>, again: seq<Line>)
    requires |values| == 3 && Clean(values) && Tidy(Split(data))
    requires Merged(Split(data), values, m) && Merged(Split(Join(m)), values, again)
    ensures Join(again) == Join(m)
  {
    hide Merged, Tidy, Clean;
    SplitGivesLines(data);
    MergedReadsBackIff(Split(data), values, m);
    MergeIdempotent(Split(data), values, m, again);
  }

  /**
   * A section at the end of a file without a last line break swallows the first line added behind it, whatever the
   * values.
   */
  lemma UntidyFile(values: seq<string>, m: seq<Line>) returns (ls: seq<Line>)
    requires |values| == 3 && Clean(values)
    ensures ls == [Line(HEADER, "")] && Lines(ls) && !Tidy(ls)
    ensures Merged(ls, values, m) ==> Split(Join(m)) != m
  {
    hide Section, KeyValue, Merged, Clean, Split, Join;
    ls := [Line(HEADER, "")];
    HeaderOpens("");
    assert |HEADER| == 15;
    forall s: nat, e: nat | Within(ls, s, e)
      ensures s == 0 && e == 1 && Written(ls, s, e) == [false, false, false]
    {
    }
    assert Opens(ls[0]);
    if Merged(ls, values, m) {
      MergedReadsBackIff(ls, values, m);
    }
  }
}
