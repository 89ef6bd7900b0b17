/** What start-up reads from the merged identity file (`Init` in `identity/identity.cpp`). */
module IdentityReader {
  import opened Basics
  import opened IdentityText
  import opened IdentityMerge
  import opened IdentityMerged

  /** The scan of `Init` for one canonical key: the last setting in a [zone_identity] section wins. */
  function ReadFrom(ls: seq<Line>, inside: bool, k: nat, found: Option<string>): Option<string>
    decreases |ls|
  {
    if ls == [] then found
    else if IsHeader(ls[0]) then ReadFrom(ls[1..], Opens(ls[0]), k, found)
    else if inside && SetsKey(ls[0], k) then ReadFrom(ls[1..], inside, k, Some(Sets(ls[0]).value.1))
    else ReadFrom(ls[1..], inside, k, found)
  }

  function Read(ls: seq<Line>, k: nat): Option<string> {
    ReadFrom(ls, false, k, None)
  }

  method ReadCanonical(ls: seq<Line>, k: nat) returns (found: Option<string>)
    ensures found == Read(ls, k)
  {
    hide Section, KeyValue, KeyNumber;
    var inside := false;
    found := None;
    assert ls[0..] == ls;
    for i := 0 to |ls|
      invariant ReadFrom(ls[i..], inside, k, found) == Read(ls, k)
    {
      assert ls[i..][1..] == ls[i + 1..];
      if IsHeader(ls[i]) {
        inside := Opens(ls[i]);
      } else if inside && SetsKey(ls[i], k) {
        found := Some(Sets(ls[i]).value.1);
      }
    }
  }

  function OrElse(a: Option<string>, b: Option<string>): Option<string> {
    if a.Some? then a else b
  }

  /** Whether the scan is in a canonical section after `ls`. */
  function Inside(ls: seq<Line>, inside: bool): bool
    decreases |ls|
  {
    if ls == [] then inside else Inside(ls[1..], if IsHeader(ls[0]) then Opens(ls[0]) else inside)
  }

  lemma {:induction false} ReadAppend(a: seq<Line>, b: seq<Line>, inside: bool, k: nat, found: Option<string>)
    ensures ReadFrom(a + b, inside, k, found) == ReadFrom(b, Inside(a, inside), k, ReadFrom(a, inside, k, found))
    decreases |a|
  {
    hide IsHeader, Opens, KeyValue, KeyNumber;
    if a == [] {
      assert a + b == b;
    } else {
      assert (a + b)[1..] == a[1..] + b;
      ReadAppend(a[1..], b, if IsHeader(a[0]) then Opens(a[0]) else inside, k,
                 if !IsHeader(a[0]) && inside && SetsKey(a[0], k) then Some(Sets(a[0]).value.1) else found);
    }
  }

  /** What was found before matters only when nothing is found later. */
  lemma {:induction false} ReadLater(ls: seq<Line>, inside: bool, k: nat, found: Option<string>)
    ensures ReadFrom(ls, inside, k, found) == OrElse(ReadFrom(ls, inside, k, None), found)
    decreases |ls|
  {
    hide IsHeader, Opens, KeyValue, KeyNumber;
    if ls != [] {
      var rest, next := ls[1..], if IsHeader(ls[0]) then Opens(ls[0]) else inside;
      ReadLater(rest, next, k, found);
      if !IsHeader(ls[0]) && inside && SetsKey(ls[0], k) {
        ReadLater(rest, next, k, Some(Sets(ls[0]).value.1));
      }
    }
  }

  /** Lines outside any canonical section set nothing. */
  lemma {:induction false} ReadOutside(ls: seq<Line>, k: nat)
    requires NoSection(ls)
    ensures ReadFrom(ls, false, k, None) == None && !Inside(ls, false)
    decreases |ls|
  {
    hide IsHeader, Opens, SetsKey;
    if ls != [] {
      assert !Opens(ls[0]);
      ReadOutside(ls[1..], k);
    }
  }

  /** Lines of a section that do not set the key. */
  lemma {:induction false} ReadSilent(ls: seq<Line>, k: nat, found: Option<string>)
    requires forall i :: 0 <= i < |ls| ==> !IsHeader(ls[i]) && !SetsKey(ls[i], k)
    ensures ReadFrom(ls, true, k, found) == found && Inside(ls, true)
    decreases |ls|
  {
    hide IsHeader, Opens, SetsKey;
    if ls != [] {
      assert !IsHeader(ls[0]) && !SetsKey(ls[0], k);
      ReadSilent(ls[1..], k, found);
    }
  }

  /** Lines that agree on headers and on the settings of the key read the same. */
  ghost predicate Alike(a: Line, b: Line, k: nat) {
    && !IsHeader(a) && !IsHeader(b)
    && (SetsKey(a, k) <==> SetsKey(b, k)) && (SetsKey(a, k) ==> Sets(a).value.1 == Sets(b).value.1)
  }

  lemma {:induction false} ReadAlike(a: seq<Line>, b: seq<Line>, k: nat, found: Option<string>)
    requires |a| == |b| && forall i :: 0 <= i < |a| ==> Alike(a[i], b[i], k)
    ensures ReadFrom(a, true, k, found) == ReadFrom(b, true, k, found) && Inside(a, true) && Inside(b, true)
    decreases |a|
  {
    hide IsHeader, Opens, Sets;
    if a != [] {
      assert Alike(a[0], b[0], k);
      ReadAlike(a[1..], b[1..], k, if SetsKey(a[0], k) then Some(Sets(a[0]).value.1) else found);
    }
  }

  // ---- A merged file ----

  /** The first line from `from` on that sets the key, or the end of the section. */
  function FirstAt(ls: seq<Line>, from: nat, e: nat, k: nat): (p: nat)
    requires from <= e <= |ls|
    ensures from <= p <= e && (p < e ==> SetsKey(ls[p], k)) && forall i :: from <= i < p ==> !SetsKey(ls[i], k)
    decreases e - from
  {
    if from == e || SetsKey(ls[from], k) then from else FirstAt(ls, from + 1, e, k)
  }

  /** What the file sets the key to behind the line that the merge writes. */
  function Again(ls: seq<Line>, s: nat, e: nat, k: nat): Option<string>
    requires s < e <= |ls|
  {
    var p := FirstAt(ls, s + 1, e, k);
    ReadFrom(if p < e then ls[p + 1..] else ls[e..], true, k, None)
  }

  /** Reading `before`, the opening line, silent lines, a setting, and the rest. */
  lemma ReadPast(m: seq<Line>, s: nat, i: nat, k: nat, value: string)
    requires s < i < |m| && Opens(m[s]) && (forall j :: 0 <= j < s ==> !Opens(m[j]))
    requires forall j :: s < j < i ==> !IsHeader(m[j]) && !SetsKey(m[j], k)
    requires !IsHeader(m[i]) && Sets(m[i]) == Some((k, value))
    ensures Read(m, k) == OrElse(ReadFrom(m[i + 1..], true, k, None), Some(value))
  {
    hide Section, KeyValue, KeyNumber;
    var head, mid, rest := m[..s], m[s + 1..i], m[i + 1..];
    assert m == head + ([m[s]] + (mid + ([m[i]] + rest)));
    ReadOutside(head, k);
    ReadAppend(head, [m[s]] + (mid + ([m[i]] + rest)), false, k, None);
    assert ([m[s]] + (mid + ([m[i]] + rest)))[1..] == mid + ([m[i]] + rest);
    ReadSilent(mid, k, None);
    ReadAppend(mid, [m[i]] + rest, true, k, None);
    assert ([m[i]] + rest)[1..] == rest;
    ReadLater(rest, true, k, Some(value));
  }

  /** Behind the line that sets a key right, the merged file reads as the original behind it. */
  lemma RestReadsSame(ls: seq<Line>, s: nat, e: nat, values: seq<string>, m: seq<Line>, k: nat, from: nat)
    requires |values| == 3 && Clean(values) && MergedIn(ls, s, e, values, m) && k < 3
    requires s < from <= e && Has(ls, s, from, k)
    ensures ReadFrom(m[from..], true, k, None) == ReadFrom(ls[from..], true, k, None)
  {
    hide Edited, EditLine, MissingFrom, KeyLine, Section, KeyValue, KeyNumber, Clean, Written;
    MergedSize(ls, s, e, values, m);
    var end := e + |m| - |ls|;
    var a, missing, tail := m[from..e], m[e..end], ls[e..];
    forall i | 0 <= i < |tail|
      ensures m[end..][i] == tail[i]
    {
      MergedLine(ls, s, e, values, m, end + i);
    }
    assert m[end..] == tail;
    assert m[from..] == a + (missing + tail);
    assert ls[from..] == ls[from..e] + tail;
    forall i | 0 <= i < |a|
      ensures Alike(a[i], ls[from..e][i], k)
    {
      LaterAlike(ls, s, e, values, m, k, from, from + i);
    }
    ReadAlike(a, ls[from..e], k, None);
    ReadAppend(a, missing + tail, true, k, None);
    ReadAppend(ls[from..e], tail, true, k, None);
    forall i | 0 <= i < |missing|
      ensures !IsHeader(missing[i]) && !SetsKey(missing[i], k)
    {
      MissingElse(ls, s, e, values, m, k, e + i);
    }
    var found := ReadFrom(a, true, k, None);
    ReadSilent(missing, k, found);
    ReadAppend(missing, tail, true, k, found);
  }

  /** A later line that sets the key is no first setting, so it is not edited. */
  lemma LaterAlike(ls: seq<Line>, s: nat, e: nat, values: seq<string>, m: seq<Line>, k: nat, from: nat, i: nat)
    requires |values| == 3 && Clean(values) && MergedIn(ls, s, e, values, m) && k < 3
    requires s < from <= i < e && Has(ls, s, from, k)
    ensures i < |m| && Alike(m[i], ls[i], k)
  {
    hide Edited, MissingFrom, KeyLine, Section, KeyValue, KeyNumber, Clean, Written, EditLine;
    MergedSize(ls, s, e, values, m);
    MergedLine(ls, s, e, values, m, i);
    EditedSets(ls, s, e, values, i);
    var j :| s < j < from && SetsKey(ls[j], k);
    if SetsKey(ls[i], k) {
      assert !FirstSetting(ls, s, i);
      EditedSame(ls, s, e, values, i);
    }
  }

  lemma MissingElse(ls: seq<Line>, s: nat, e: nat, values: seq<string>, m: seq<Line>, k: nat, i: nat)
    requires |values| == 3 && Clean(values) && MergedIn(ls, s, e, values, m) && k < 3 && Has(ls, s, e, k)
    requires e <= i < e + |m| - |ls|
    ensures i < |m| && !IsHeader(m[i]) && !SetsKey(m[i], k)
  {
    hide Edited, EditLine, MissingFrom, KeyLine, Section, KeyValue, KeyNumber, Clean, Within, Has;
    MergedSize(ls, s, e, values, m);
    MergedLine(ls, s, e, values, m, i);
    var j := MissingExact(0, Written(ls, s, e), values, DefaultEol(ls), i - e);
    KeyLineSets(j, values, DefaultEol(ls));
  }

  /** A key that the section does not set is inserted once. */
  lemma InsertedAt(ls: seq<Line>, s: nat, e: nat, values: seq<string>, m: seq<Line>, k: nat) returns (i: nat)
    requires |values| == 3 && Clean(values) && MergedIn(ls, s, e, values, m) && k < 3 && !Has(ls, s, e, k)
    ensures |m| >= |ls| && e <= i < e + |m| - |ls| && Sets(m[i]) == Some((k, values[k]))
    ensures forall j :: e <= j < e + |m| - |ls| ==> !IsHeader(m[j]) && (j != i ==> !SetsKey(m[j], k))
  {
    hide Edited, EditLine, MissingFrom, KeyLine, Section, KeyValue, KeyNumber, Clean, Within, Has;
    MergedSize(ls, s, e, values, m);
    var written, eol := Written(ls, s, e), DefaultEol(ls);
    assert written[k] == Has(ls, s, e, k);
    var p := MissingPlace(0, written, values, eol, k);
    i := e + p;
    MergedLine(ls, s, e, values, m, i);
    KeyLineSets(k, values, eol);
    forall j | e <= j < e + |m| - |ls|
      ensures !IsHeader(m[j]) && (j != i ==> !SetsKey(m[j], k))
    {
      MergedLine(ls, s, e, values, m, j);
      if j != i {
        var missing := MissingFrom(0, written, values, eol);
        var other;
        if j < i {
          other := KeyFor(missing[j - e], 0, k, values, eol);
        } else {
          other := KeyFor(missing[j - e], k + 1, 3, values, eol);
        }
        KeyLineSets(other, values, eol);
      }
    }
  }

  lemma TailKept(ls: seq<Line>, s: nat, e: nat, values: seq<string>, m: seq<Line>)
    requires |values| == 3 && MergedIn(ls, s, e, values, m)
    ensures e <= |ls| <= |m| && m[e + |m| - |ls|..] == ls[e..]
  {
    hide Edited, EditLine, MissingFrom, Within, Written;
    MergedSize(ls, s, e, values, m);
    forall i | e <= i < |ls|
      ensures ls[i] == m[i + |m| - |ls|]
    {
      MergedLine(ls, s, e, values, m, i + |m| - |ls|);
    }
  }

  /** Before the end of the section, a merged line sets what the original line set, or the new value. */
  lemma SectionSets(ls: seq<Line>, s: nat, e: nat, values: seq<string>, m: seq<Line>, k: nat, j: nat)
    requires |values| == 3 && Clean(values) && MergedIn(ls, s, e, values, m) && s < j < e
    ensures j < |m| && !IsHeader(m[j]) && (SetsKey(m[j], k) <==> SetsKey(ls[j], k))
    ensures k < 3 && SetsKey(ls[j], k) && FirstSetting(ls, s, j) ==> Sets(m[j]) == Some((k, values[k]))
  {
    hide Edited, EditLine, MissingFrom, KeyLine, Section, KeyValue, KeyNumber, Clean, Written;
    MergedSize(ls, s, e, values, m);
    MergedLine(ls, s, e, values, m, j);
    EditedSets(ls, s, e, values, j);
  }

  /** The merged lines set the merged value, unless a line further down sets the key again. */
  lemma MergedLinesRead(ls: seq<Line>, s: nat, e: nat, values: seq<string>, m: seq<Line>, k: nat)
    requires |values| == 3 && Clean(values) && MergedIn(ls, s, e, values, m) && k < 3
    ensures s < e <= |ls| && Read(m, k) == OrElse(Again(ls, s, e, k), Some(values[k]))
  {
    hide MergedIn, Clean, Within, Has, ReadFrom, Read, Sets, IsHeader, Opens;
    MergedSize(ls, s, e, values, m);
    MergedWithin(ls, s, e, values, m);
    MergedOpens(m, s, e + |m| - |ls|);
    var p := FirstAt(ls, s + 1, e, k);
    forall j | s < j < p
      ensures !IsHeader(m[j]) && !SetsKey(m[j], k)
    {
      SectionSets(ls, s, e, values, m, k, j);
    }
    if p < e {
      FirstIsFirst(ls, s, e, k);
      SectionSets(ls, s, e, values, m, k, p);
      ReadPast(m, s, p, k, values[k]);
      RestReadsSame(ls, s, e, values, m, k, p + 1);
    } else {
      NeverSet(ls, s, e, k);
      var i := InsertedAt(ls, s, e, values, m, k);
      var end := e + |m| - |ls|;
      ReadPast(m, s, i, k, values[k]);
      TailKept(ls, s, e, values, m);
      assert m[i + 1..] == m[i + 1..end] + ls[e..];
      ReadSilent(m[i + 1..end], k, None);
      ReadAppend(m[i + 1..end], ls[e..], true, k, None);
    }
  }

  lemma MergedOpens(m: seq<Line>, s: nat, end: nat)
    requires Within(m, s, end)
    ensures s < |m| && Opens(m[s]) && forall j :: 0 <= j < s ==> !Opens(m[j])
  {
    hide Opens, IsHeader;
  }

  lemma FirstIsFirst(ls: seq<Line>, s: nat, e: nat, k: nat)
    requires s < e <= |ls| && FirstAt(ls, s + 1, e, k) < e
    ensures var p := FirstAt(ls, s + 1, e, k); SetsKey(ls[p], k) && FirstSetting(ls, s, p) && Has(ls, s, p + 1, k)
  {
    hide KeyValue, KeyNumber;
    var p := FirstAt(ls, s + 1, e, k);
    assert s < p < p + 1 && SetsKey(ls[p], k);
  }

  lemma NeverSet(ls: seq<Line>, s: nat, e: nat, k: nat)
    requires s < e <= |ls| && FirstAt(ls, s + 1, e, k) == e
    ensures !Has(ls, s, e, k)
  {
    hide Sets;
  }

  /** What the original file is read as. */
  lemma OriginalReads(ls: seq<Line>, s: nat, e: nat, k: nat)
    requires Within(ls, s, e)
    ensures var p := FirstAt(ls, s + 1, e, k);
      Read(ls, k) == OrElse(Again(ls, s, e, k), if p < e then Some(Sets(ls[p]).value.1) else None)
  {
    hide Section, KeyValue, KeyNumber, ReadFrom;
    var p := FirstAt(ls, s + 1, e, k);
    if p < e {
      ReadPast(ls, s, p, k, Sets(ls[p]).value.1);
    } else {
      var head, mid, tail := ls[..s], ls[s + 1..e], ls[e..];
      assert ls == head + ([ls[s]] + (mid + tail));
      ReadOutside(head, k);
      ReadAppend(head, [ls[s]] + (mid + tail), false, k, None);
      ReadOpening(ls[s], mid + tail, k);
      ReadSilent(mid, k, None);
      ReadAppend(mid, tail, true, k, None);
    }
  }

  lemma ReadOpening(l: Line, rest: seq<Line>, k: nat)
    requires Opens(l)
    ensures ReadFrom([l] + rest, false, k, None) == ReadFrom(rest, true, k, None)
  {
    hide Section, KeyValue, KeyNumber;
    assert ([l] + rest)[1..] == rest;
  }

  /** Lines merged with what they set set the same, duplicates or not. */
  lemma SameLinesRead(ls: seq<Line>, values: seq<string>, m: seq<Line>, k: nat)
    requires |values| == 3 && Clean(values) && Merged(ls, values, m) && k < 3
    requires Read(ls, k) == Some(values[k])
    ensures Read(m, k) == Some(values[k])
  {
    hide MergedNew, MergedIn, Clean, Within, Read, Again;
    if MergedNew(ls, values, m) {
      NewLinesRead(ls, values, m, k);
    } else {
      var s: nat, e: nat :| MergedIn(ls, s, e, values, m);
      MergedSize(ls, s, e, values, m);
      MergedLinesRead(ls, s, e, values, m, k);
      OriginalReads(ls, s, e, k);
    }
  }

  /** `w` ends with a new section that sets the three keys, and has no other before it. */
  ghost predicate NewSection(w: seq<Line>, s: nat, values: seq<string>, eol: string)
    requires |values| == 3
  {
    && |w| == s + 4 && (forall i :: 0 <= i < s ==> !Opens(w[i])) && w[s] == Line(HEADER, eol)
    && w[s + 1] == KeyLine(0, values, eol) && w[s + 2] == KeyLine(1, values, eol) && w[s + 3] == KeyLine(2, values, eol)
  }

  lemma NewSectionReads(w: seq<Line>, s: nat, values: seq<string>, eol: string, k: nat)
    requires |values| == 3 && Clean(values) && NewSection(w, s, values, eol) && k < 3
    ensures Read(w, k) == Some(values[k])
  {
    hide KeyLine, Section, KeyValue, KeyNumber, Clean, ReadFrom;
    HeaderOpens(eol);
    KeyLineSets(0, values, eol);
    KeyLineSets(1, values, eol);
    KeyLineSets(2, values, eol);
    assert k == 0 || k == 1 || k == 2;
    ReadPast(w, s, s + 1 + k, k, values[k]);
    var rest := w[s + 2 + k..];
    forall i | 0 <= i < |rest|
      ensures !IsHeader(rest[i]) && !SetsKey(rest[i], k)
    {
      assert rest[i] == w[s + 2 + k + i];
    }
    ReadSilent(rest, k, None);
  }

  lemma MergedNewSection(ls: seq<Line>, values: seq<string>, m: seq<Line>)
    requires |values| == 3 && MergedNew(ls, values, m)
    ensures NewSection(m, |ls|, values, DefaultEol(ls))
  {
    hide KeyLine, Section, MissingFrom;
    AllMissing(values, DefaultEol(ls));
    forall i | 0 <= i < |ls|
      ensures !Opens(m[i])
    {
      assert m[i].text == ls[i].text;
    }
  }

  /** With a new section, the merged lines set the merged values. */
  lemma NewLinesRead(ls: seq<Line>, values: seq<string>, m: seq<Line>, k: nat)
    requires |values| == 3 && Clean(values) && MergedNew(ls, values, m) && k < 3
    ensures Read(m, k) == Some(values[k])
  {
    hide MergedNew, NewSection, Clean, Read;
    MergedNewSection(ls, values, m);
    NewSectionReads(m, |ls|, values, DefaultEol(ls), k);
  }

  // ---- The last setting ----

  /** Line `i` belongs to a canonical section. */
  ghost predicate InSection(ls: seq<Line>, i: nat)
    requires i < |ls|
  {
    exists h: nat :: h < i && Opens(ls[h]) && forall j :: h < j <= i ==> !IsHeader(ls[j])
  }

  ghost predicate Counts(ls: seq<Line>, i: nat, k: nat) {
    i < |ls| && InSection(ls, i) && SetsKey(ls[i], k)
  }

  lemma {:induction false} InsideIff(ls: seq<Line>)
    ensures Inside(ls, false) <==>
            exists h: nat :: h < |ls| && Opens(ls[h]) && forall j :: h < j < |ls| ==> !IsHeader(ls[j])
  {
    hide Section;
    if ls != [] {
      var n := |ls| - 1;
      var front, last := ls[..n], ls[n];
      InsideIff(front);
      InsideSnoc(front, last, false);
      assert ls == front + [last];
      if h: nat :| h < n && Opens(front[h]) && forall j :: h < j < n ==> !IsHeader(front[j]) {
        assert Opens(ls[h]);
      }
      if h: nat :| h < |ls| && Opens(ls[h]) && forall j :: h < j < |ls| ==> !IsHeader(ls[j]) {
        assert h < n ==> Opens(front[h]);
      }
    }
  }

  lemma {:induction false} InsideSnoc(front: seq<Line>, last: Line, inside: bool)
    ensures Inside(front + [last], inside) == if IsHeader(last) then Opens(last) else Inside(front, inside)
    decreases |front|
  {
    hide Section;
    if front == [] {
      assert ([] + [last])[1..] == [];
    } else {
      assert (front + [last])[1..] == front[1..] + [last];
      InsideSnoc(front[1..], last, if IsHeader(front[0]) then Opens(front[0]) else inside);
    }
  }

  lemma CountsInside(ls: seq<Line>, k: nat)
    requires ls != []
    ensures Counts(ls, |ls| - 1, k) <==>
            !IsHeader(ls[|ls| - 1]) && Inside(ls[..|ls| - 1], false) && SetsKey(ls[|ls| - 1], k)
  {
    hide Section, Sets;
    var n := |ls| - 1;
    var front := ls[..n];
    InsideIff(front);
    if h: nat :| h < n && Opens(front[h]) && forall j :: h < j < n ==> !IsHeader(front[j]) {
      assert Opens(ls[h]);
    }
    if h: nat :| h < n && Opens(ls[h]) && forall j :: h < j <= n ==> !IsHeader(ls[j]) {
      assert Opens(front[h]);
    }
  }

  lemma CountsFront(ls: seq<Line>, i: nat, k: nat)
    requires ls != [] && i < |ls| - 1
    ensures Counts(ls, i, k) <==> Counts(ls[..|ls| - 1], i, k)
  {
    hide Section, Sets;
    var front := ls[..|ls| - 1];
    if h: nat :| h < i && Opens(front[h]) && forall j :: h < j <= i ==> !IsHeader(front[j]) {
      assert Opens(ls[h]);
    }
    if h: nat :| h < i && Opens(ls[h]) && forall j :: h < j <= i ==> !IsHeader(ls[j]) {
      assert Opens(front[h]);
    }
  }

  /** Line `i` is the last one that counts, and sets `value`. */
  ghost predicate LastSets(ls: seq<Line>, k: nat, i: nat, value: string) {
    Counts(ls, i, k) && Sets(ls[i]).value.1 == value && forall j :: i < j < |ls| ==> !Counts(ls, j, k)
  }

  /** The scan finds a value exactly when the last line that counts sets it, and nothing exactly when none counts. */
  lemma {:induction false} ReadIsLast(ls: seq<Line>, k: nat, value: string)
    ensures Read(ls, k) == Some(value) <==> exists i: nat :: LastSets(ls, k, i, value)
    ensures Read(ls, k) == None <==> forall i :: 0 <= i < |ls| ==> !Counts(ls, i, k)
  {
    hide Section, Sets, InSection, Inside, ReadFrom;
    if ls == [] {
      NothingRead(k);
    } else {
      var n := |ls| - 1;
      var front, last := ls[..n], ls[n];
      ReadIsLast(front, k, value);
      assert ls == front + [last];
      ReadAppend(front, [last], false, k, None);
      ReadOne(last, Inside(front, false), k, Read(front, k));
      CountsInside(ls, k);
      hide Counts, Read;
      forall i: nat | i < n
        ensures Counts(ls, i, k) <==> Counts(front, i, k)
      {
        CountsFront(ls, i, k);
      }
      LastSetsSnoc(ls, k, value);
      if Counts(ls, n, k) {
        CountsIndex(ls, n, k);
      }
    }
  }

  lemma NothingRead(k: nat)
    ensures Read([], k) == None
  {
  }

  lemma LastSetsSnoc(ls: seq<Line>, k: nat, value: string)
    requires ls != [] && forall i: nat :: i < |ls| - 1 ==> (Counts(ls, i, k) <==> Counts(ls[..|ls| - 1], i, k))
    ensures var n := |ls| - 1;
      (exists i: nat :: LastSets(ls, k, i, value)) <==>
      if Counts(ls, n, k) then Sets(ls[n]).value.1 == value else exists i: nat :: LastSets(ls[..n], k, i, value)
  {
    hide Section, Sets, InSection;
    var n := |ls| - 1;
    if i: nat :| LastSets(ls, k, i, value) {
      if i < n {
        forall j | i < j < n
          ensures !Counts(ls[..n], j, k)
        {
          assert !Counts(ls, j, k);
        }
        assert LastSets(ls[..n], k, i, value);
      }
    }
    if Counts(ls, n, k) {
      assert Sets(ls[n]).value.1 == value ==> LastSets(ls, k, n, value);
    } else if i: nat :| LastSets(ls[..n], k, i, value) {
      assert LastSets(ls, k, i, value);
    }
  }

  lemma CountsIndex(ls: seq<Line>, i: nat, k: nat)
    requires Counts(ls, i, k)
    ensures i < |ls| && SetsKey(ls[i], k)
  {
  }

  lemma ReadOne(l: Line, inside: bool, k: nat, found: Option<string>)
    ensures ReadFrom([l], inside, k, found)
            == if !IsHeader(l) && inside && SetsKey(l, k) then Some(Sets(l).value.1) else found
  {
    hide Section, Sets;
    assert [l][1..] == [];
  }
}
