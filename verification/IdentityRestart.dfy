/** What the next start-up reads from the bytes that a merge writes (`Init` and `Save` in `identity/identity.cpp`). */
module IdentityRestart {
  import opened Basics
  import opened IdentityText
  import opened IdentityMerge
  import opened IdentityMerged
  import opened IdentityReader

  /** The lines that the next start-up finds where `m` was written. */
  function Rewritten(m: seq<Line>): seq<Line> { Split(Join(m)) }

  // ---- Joining ----

  lemma {:induction false} JoinAppend(a: seq<Line>, b: seq<Line>)
    ensures Join(a + b) == Join(a) + Join(b)
  {
    hide Join;
    if a == [] {
      assert a + b == b;
      JoinNone();
    } else {
      JoinAppend(a[1..], b);
      JoinCons(a[0], a[1..]);
      JoinCons(a[0], a[1..] + b);
      assert a == [a[0]] + a[1..] && a + b == [a[0]] + (a[1..] + b);
      var t, x, y := a[0].text + a[0].eol, Join(a[1..]), Join(b);
      assert t + (x + y) == (t + x) + y;
    }
  }

  lemma JoinOne(l: Line)
    ensures Join([l]) == l.text + l.eol
  {
    JoinCons(l, []);
    assert [l] + [] == [l];
  }

  /** Lines with the same bytes may stand for each other. */
  lemma JoinSame(a: seq<Line>, x: seq<Line>, y: seq<Line>, b: seq<Line>)
    requires Join(x) == Join(y)
    ensures Join(a + x + b) == Join(a + y + b)
  {
    JoinAppend(a + x, b);
    JoinAppend(a, x);
    JoinAppend(a + y, b);
    JoinAppend(a, y);
  }

  // ---- A new section behind a last line that ends in a carriage return ----

  /** The carriage return of line `i` becomes part of its ending. */
  function Returned(m: seq<Line>, i: nat): seq<Line>
    requires i < |m| && EndsInReturn(m[i].text)
  {
    m[i := Line(m[i].text[..|m[i].text| - 1], "\r\n")]
  }

  lemma ContentIgnoresReturn(t: string)
    ensures ContentOffset(t + "\r") == ContentOffset(t)
  {
    hide BomAt;
    NotBlankPrefix(t, "\r", 0);
    if FirstNotBlank(t, 0).Some? {
      var b := FirstNotBlank(t, 0).value;
      BomPrefix(t, "\r", b);
      if BomAt(t, b) {
        BomLength(t, b);
        NotBlankPrefix(t, "\r", b + 3);
      }
    }
  }

  lemma BomLength(t: string, b: nat)
    requires BomAt(t, b)
    ensures b + 3 <= |t|
  {
  }

  lemma SectionIgnoresReturn(text: string)
    requires EndsInReturn(text)
    ensures Section(text) == Section(text[..|text| - 1])
  {
    hide Trim, Lower, Find, ContentOffset;
    var t := text[..|text| - 1];
    assert t + "\r" == text;
    ContentIgnoresReturn(t);
    var c := ContentOffset(t);
    if c.Some? && t[c.value] == '[' {
      FindPrefix(t, "\r", ']', c.value + 1);
      NoneInReturn(']');
      var e := Find(t, ']', c.value + 1);
      assert e.Some? ==> text[c.value + 1..e.value] == t[c.value + 1..e.value];
    }
  }

  lemma NoneInReturn(c: char)
    requires c != '\r'
    ensures Find("\r", c, 0) == None
  {
  }

  /** Appending does not move the first character that is not blank. */
  lemma {:induction false} NotBlankPrefix(t: string, x: string, from: nat)
    requires from <= |t| && x != ""
    ensures var (a, b) := (FirstNotBlank(t, from), FirstNotBlank(t + x, from));
      if a.Some? then b == a else if IsBlank(x[0]) then |x| == 1 ==> b.None? else b == Some(|t|)
    decreases |t| - from
  {
    if from < |t| {
      if IsBlank(t[from]) { NotBlankPrefix(t, x, from + 1); }
    } else {
      assert (t + x)[|t|] == x[0];
      if IsBlank(x[0]) && |x| == 1 { assert FirstNotBlank(t + x, from + 1) == None; }
    }
  }

  predicate PlainStart(x: string) {
    x != "" && (x[0] == '\r' || 'a' <= x[0] <= 'z')
  }

  lemma BomPrefix(t: string, x: string, b: nat)
    requires PlainStart(x) && b < |t|
    ensures BomAt(t + x, b) <==> BomAt(t, b)
  {
    assert (t + x)[|t|] == x[0];
  }

  lemma {:induction false} FindPrefix(t: string, x: string, c: char, from: nat)
    requires from <= |t|
    ensures Find(t, c, from).Some? ==> Find(t + x, c, from) == Find(t, c, from)
    ensures Find(t, c, from).None? ==>
      var f := Find(x, c, 0);
      Find(t + x, c, from) == if f.Some? then Some(|t| + f.value) else None
    decreases |t| - from
  {
    if from == |t| {
      FindShift(t + x, c, |t|);
      assert (t + x)[|t|..] == x;
    } else if t[from] != c {
      FindPrefix(t, x, c, from + 1);
    }
  }

  lemma ReturnedJoin(m: seq<Line>, i: nat)
    requires i < |m| && EndsInReturn(m[i].text) && m[i].eol == "\n"
    ensures Join(Returned(m, i)) == Join(m)
  {
    hide Join;
    var text := m[i].text;
    var l := Line(text[..|text| - 1], "\r\n");
    JoinOne(m[i]);
    JoinOne(l);
    assert text + "\n" == text[..|text| - 1] + "\r\n";
    JoinSame(m[..i], [m[i]], [l], m[i + 1..]);
    assert m == m[..i] + [m[i]] + m[i + 1..];
    assert Returned(m, i) == m[..i] + [l] + m[i + 1..];
  }

  /** With a new section, the bytes read back as the merged lines, but for a carriage return that joins its ending. */
  lemma NewRewritten(ls: seq<Line>, values: seq<string>, m: seq<Line>)
    requires |values| == 3 && Clean(values) && Lines(ls) && MergedNew(ls, values, m)
    ensures Rewritten(m) == m || (ls != [] && |ls| < |m| && EndsInReturn(m[|ls| - 1].text)
                                  && Rewritten(m) == Returned(m, |ls| - 1))
  {
    hide Join, Split, WellFormed, NewSection, Opens, EndsInReturn;
    MergedNewLines(ls, values, m);
    ReadsBackIff(m);
    if !Lines(m) {
      var i := |ls| - 1;
      NewEnded(ls, values, m);
      DefaultEolEnds(ls);
      ReturnedJoin(m, i);
      ReturnedLines(ls, values, m);
      SplitOfJoin(Returned(m, i));
    }
  }

  lemma NewEnded(ls: seq<Line>, values: seq<string>, m: seq<Line>)
    requires |values| == 3 && MergedNew(ls, values, m) && ls != [] && ls[|ls| - 1].eol == ""
    ensures |ls| < |m| && m[|ls| - 1] == Line(ls[|ls| - 1].text, DefaultEol(ls))
  {
  }

  lemma ReturnedLines(ls: seq<Line>, values: seq<string>, m: seq<Line>)
    requires |values| == 3 && Clean(values) && Lines(ls) && MergedNew(ls, values, m) && ls != []
    requires ls[|ls| - 1].eol == "" && DefaultEol(ls) == "\n" && EndsInReturn(ls[|ls| - 1].text)
    ensures |ls| < |m| && EndsInReturn(m[|ls| - 1].text) && Lines(Returned(m, |ls| - 1))
  {
    hide KeyLine, MissingFrom, Clean, Opens, WellFormed, Lines;
    var s, eol := |ls|, DefaultEol(ls);
    NewEnded(ls, values, m);
    MergedNewSection(ls, values, m);
    KeyLineWellFormed(0, values, eol, false);
    KeyLineWellFormed(1, values, eol, false);
    KeyLineWellFormed(2, values, eol, true);
    HeaderWellFormed(eol);
    var w := Returned(m, s - 1);
    MayBeLast(ls, s - 1);
    ReturnWellFormed(ls[s - 1]);
    forall i | 0 <= i < s - 1
      ensures WellFormed(w[i], false)
    {
      MayBeLast(ls, i);
      NotLast(ls, i);
      EndedLine(ls[i], eol);
      assert w[i] == ls[i];
    }
    LinesBy(w, s, false);
  }

  lemma ReturnWellFormed(l: Line)
    requires WellFormed(l, true) && EndsInReturn(l.text)
    ensures WellFormed(Line(l.text[..|l.text| - 1], "\r\n"), false)
  {
  }

  /** In a file without the section, the next start-up reads the merged values, whatever the file. */
  lemma MergedNewReads(ls: seq<Line>, values: seq<string>, m: seq<Line>, k: nat)
    requires |values| == 3 && Clean(values) && Lines(ls) && MergedNew(ls, values, m) && k < 3
    ensures Read(Rewritten(m), k) == Some(values[k])
  {
    hide Clean, MergedNew, Rewritten, Section, Read, KeyLine;
    NewRewritten(ls, values, m);
    MergedNewSection(ls, values, m);
    if Rewritten(m) != m {
      SectionIgnoresReturn(m[|ls| - 1].text);
    }
    assert NewSection(Rewritten(m), |ls|, values, DefaultEol(ls));
    NewSectionReads(Rewritten(m), |ls|, values, DefaultEol(ls), k);
  }

  /** In a tidy file with the section, it reads the merged value, unless a line further down sets the key again. */
  lemma MergedReads(ls: seq<Line>, s: nat, e: nat, values: seq<string>, m: seq<Line>, k: nat)
    requires |values| == 3 && Clean(values) && Lines(ls) && Tidy(ls) && MergedIn(ls, s, e, values, m) && k < 3
    ensures s < e <= |ls| && Read(Rewritten(m), k) == OrElse(Again(ls, s, e, k), Some(values[k]))
  {
    hide Clean, Tidy, MergedIn, Read, Again;
    assert Merged(ls, values, m);
    MergedReadsBackIff(ls, values, m);
    MergedLinesRead(ls, s, e, values, m, k);
  }

  // ---- Lines added behind a last line without a break ----

  /** Line `i` runs into the next. */
  function Fused(m: seq<Line>, i: nat): seq<Line>
    requires i + 1 < |m|
  {
    m[..i] + [Line(m[i].text + m[i + 1].text, m[i + 1].eol)] + m[i + 2..]
  }

  lemma FusedJoin(m: seq<Line>, i: nat)
    requires i + 1 < |m| && m[i].eol == ""
    ensures Join(Fused(m, i)) == Join(m)
  {
    hide Join;
    var l := Line(m[i].text + m[i + 1].text, m[i + 1].eol);
    JoinOne(l);
    JoinOne(m[i]);
    JoinOne(m[i + 1]);
    JoinAppend([m[i]], [m[i + 1]]);
    JoinSame(m[..i], [m[i]] + [m[i + 1]], [l], m[i + 2..]);
    assert m == m[..i] + ([m[i]] + [m[i + 1]]) + m[i + 2..];
  }

  /** The section ends the file, the file has no last line break, and keys are added. */
  ghost predicate RunsOn(ls: seq<Line>, s: nat, e: nat, m: seq<Line>) {
    s < e == |ls| < |m| && ls[e - 1].eol == ""
  }

  lemma FusedRewritten(ls: seq<Line>, s: nat, e: nat, values: seq<string>, m: seq<Line>)
    requires |values| == 3 && Clean(values) && Lines(ls) && MergedIn(ls, s, e, values, m) && RunsOn(ls, s, e, m)
    ensures Rewritten(m) == Fused(m, e - 1)
  {
    hide Clean, MergedIn, WellFormed, Join, Split, Lines, DefaultEol, KeyLine;
    var w := Fused(m, e - 1);
    DefaultEolEnds(ls);
    MergedWellFormed(ls, s, e, values, m, e - 1);
    MergedWellFormed(ls, s, e, values, m, e);
    var k := AddedLine(ls, s, e, values, m, e);
    KeyLineStarts(k, values, DefaultEol(ls));
    FusedWellFormed(m[e - 1], m[e]);
    forall i | 0 <= i < |w|
      ensures WellFormed(w[i], i == |w| - 1)
    {
      if i < e - 1 {
        MergedWellFormed(ls, s, e, values, m, i);
        NotLast(ls, i);
        EarlierWellFormed(m[i]);
      } else if i >= e {
        MergedWellFormed(ls, s, e, values, m, i + 1);
        EarlierWellFormed(m[i + 1]);
      } else {
        EarlierLast(w[i], i == |w| - 1);
      }
    }
    FusedJoin(m, e - 1);
    LinesByLine(w);
    SplitOfJoin(w);
  }

  /** Every line behind the section's own is for a key that the section does not set. */
  lemma AddedLine(ls: seq<Line>, s: nat, e: nat, values: seq<string>, m: seq<Line>, i: nat) returns (k: nat)
    requires |values| == 3 && MergedIn(ls, s, e, values, m) && e <= i < e + |m| - |ls|
    ensures e <= |ls| && i < |m| && k < 3 && m[i] == KeyLine(k, values, DefaultEol(ls)) && !Has(ls, s, e, k)
  {
    hide Edited, EditLine, MissingFrom, KeyLine, Within, Has;
    MergedSize(ls, s, e, values, m);
    MergedLine(ls, s, e, values, m, i);
    k := MissingExact(0, Written(ls, s, e), values, DefaultEol(ls), i - e);
  }

  lemma KeyTextStarts(k: nat, value: string)
    requires k < 3
    ensures var text := KeyText(KEYS[k], value); text != "" && 'a' <= text[0] <= 'z'
  {
    KeyNumberOf(k);
    assert KeyText(KEYS[k], value)[0] == KEYS[k][0] && KEYS[k][0] != '_';
  }

  lemma KeyLineStarts(k: nat, values: seq<string>, eol: string)
    requires k < 3 && |values| == 3
    ensures var l := KeyLine(k, values, eol);
      l.text == KeyText(KEYS[k], values[k]) && l.eol == eol && l.text != "" && 'a' <= l.text[0] <= 'z'
  {
    KeyTextStarts(k, values[k]);
  }

  lemma EarlierLast(l: Line, last: bool)
    requires WellFormed(l, false)
    ensures WellFormed(l, last)
  {
  }

  lemma LinesByLine(w: seq<Line>)
    requires forall i :: 0 <= i < |w| ==> WellFormed(w[i], i == |w| - 1)
    ensures Lines(w)
  {
  }

  lemma EarlierWellFormed(l: Line)
    requires WellFormed(l, true) && l.eol != ""
    ensures WellFormed(l, false)
  {
  }

  lemma FusedWellFormed(a: Line, b: Line)
    requires WellFormed(a, true) && WellFormed(b, true) && a.eol == "" && b.eol != "" && b.text != ""
    ensures WellFormed(Line(a.text + b.text, b.eol), false)
  {
  }

  // ---- What a fused line says ----

  lemma ContentPrefix(t: string, x: string)
    requires x != "" && 'a' <= x[0] <= 'z'
    ensures ContentOffset(t + x) == if ContentOffset(t).Some? then ContentOffset(t) else Some(|t|)
  {
    assert (t + x)[|t|] == x[0];
    NotBlankPrefix(t, x, 0);
    if FirstNotBlank(t, 0).Some? {
      var b := FirstNotBlank(t, 0).value;
      BomPrefix(t, x, b);
      if BomAt(t, b) { NotBlankPrefix(t, x, b + 3); }
    }
  }

  lemma {:induction false} TrimLeftAppend(a: string, b: string)
    ensures TrimLeft(a + b) == if TrimLeft(a) == "" then TrimLeft(b) else TrimLeft(a) + b
  {
    if a == "" {
      assert a + b == b;
    } else {
      assert (a + b)[0] == a[0] && (a + b)[1..] == a[1..] + b;
      if IsSpace(a[0]) { TrimLeftAppend(a[1..], b); }
    }
  }

  lemma {:induction false} TrimRightReaches(s: string, i: nat)
    requires i < |s| && !IsSpace(s[i])
    ensures i < |TrimRight(s)|
  {
    if IsSpace(s[|s| - 1]) {
      TrimRightReaches(s[..|s| - 1], i);
    }
  }

  /** Text behind a value makes it longer. */
  lemma TrimGrows(r: string, x: string)
    requires x != "" && !IsSpace(x[0])
    ensures |Trim(r + x)| > |Trim(r)|
  {
    TrimLeftAppend(r, x);
    var a := TrimLeft(r);
    assert TrimLeft(x) == x;
    TrimRightShort(a);
    if a == "" {
      TrimRightReaches(x, 0);
    } else {
      assert (a + x)[|a|] == x[0];
      TrimRightReaches(a + x, |a|);
    }
  }

  /** A key behind other content ends in that key. */
  lemma KeyBehind(p: string, key: string) returns (q: string)
    requires Plain(key)
    ensures Lower(Trim(p + (key + " "))) == q + key
  {
    TrimLeftAppend(p, key + " ");
    var a := TrimLeft(p);
    assert TrimLeft(key + " ") == key + " ";
    assert TrimLeft(p + (key + " ")) == a + key + " ";
    assert (a + key + " ")[..|a + key|] == a + key;
    assert (a + key)[|a + key| - 1] == key[|key| - 1];
    assert TrimRight(a + key + " ") == a + key;
    q := Lower(a);
    LowerPlain(key);
    assert Lower(a + key) == Lower(a) + Lower(key);
  }

  /** No canonical key ends in another. */
  lemma KeysEndApart(q: string, j: nat, k: nat)
    requires j < 3 && k < 3 && q + KEYS[j] == KEYS[k]
    ensures j == k
  {
    var n := |KEYS[k]|;
    assert KEYS[k][n - 1] == KEYS[j][|KEYS[j]| - 1];
    assert KEYS[0][10] == 'd' && KEYS[1][8] == 'h' && KEYS[2][7] == 'e';
  }

  lemma AddedFind(j: nat, value: string)
    requires j < 3
    ensures Find(KeyText(KEYS[j], value), '=', 0) == Some(|KEYS[j]| + 1)
  {
    KeyNumberOf(j);
    var text, at := KeyText(KEYS[j], value), |KEYS[j]| + 1;
    assert text[at] == '=';
    forall i | 0 <= i < at
      ensures text[i] != '='
    {
      assert text[i] == if i < |KEYS[j]| then KEYS[j][i] else ' ';
    }
  }

  /** A line that is a key line stays one for its key, with a longer value. */
  lemma KeyLineGrows(t: string, x: string)
    requires x != "" && 'a' <= x[0] <= 'z' && KeyValue(t).Some?
    ensures KeyValue(t + x).Some? && KeyValue(t + x).value.0 == KeyValue(t).value.0 && Section(t + x) == None
    ensures |KeyValue(t + x).value.1| > |KeyValue(t).value.1|
  {
    hide Trim, Lower;
    ContentPrefix(t, x);
    var b := ContentOffset(t).value;
    FindPrefix(t, x, '=', b);
    var eq := Find(t, '=', b).value;
    assert (t + x)[b..eq] == t[b..eq] && (t + x)[eq + 1..] == t[eq + 1..] + x;
    TrimGrows(t[eq + 1..], x);
  }

  /** A line with an equals sign keeps its key, or stays without one. */
  lemma NoKeyStays(t: string, x: string)
    requires x != "" && 'a' <= x[0] <= 'z' && KeyValue(t) == None
    requires ContentOffset(t).Some? && Find(t, '=', ContentOffset(t).value).Some?
    ensures KeyValue(t + x) == None
  {
    hide Trim, Lower;
    ContentPrefix(t, x);
    var b := ContentOffset(t).value;
    FindPrefix(t, x, '=', b);
    var eq := Find(t, '=', b).value;
    assert (t + x)[b..eq] == t[b..eq];
  }

  lemma KeyIs(f: string, b: nat, eq: nat)
    requires ContentOffset(f) == Some(b) && Find(f, '=', b) == Some(eq)
    ensures b <= eq < |f| && (KeyValue(f).Some? ==> KeyValue(f).value.0 == Lower(Trim(f[b..eq])))
  {
    hide Trim, Lower, Find, ContentOffset;
  }

  /** Where the equals sign of a fused line is that of the added key. */
  lemma AddedKey(t: string, j: nat, value: string, b: nat)
    requires j < 3 && b <= |t| && Find(t, '=', b).None?
    requires ContentOffset(t + KeyText(KEYS[j], value)) == Some(b)
    ensures var kv := KeyValue(t + KeyText(KEYS[j], value));
      kv.Some? ==> kv.value.0 == Lower(Trim(t[b..] + (KEYS[j] + " ")))
  {
    hide Trim, Lower, Find, ContentOffset, KeyValue;
    var key, x := KEYS[j], KeyText(KEYS[j], value);
    AddedFind(j, value);
    FindPrefix(t, x, '=', b);
    KeyIs(t + x, b, |t| + |key| + 1);
    assert x[..|key| + 1] == key + " ";
    assert (t + x)[b..|t| + |key| + 1] == t[b..] + x[..|key| + 1];
  }

  /** A line that is no key line becomes one for the added key at most. */
  lemma NoKeyFused(t: string, j: nat, value: string, k: nat)
    requires KeyValue(t) == None && j < 3 && k < 3 && k != j
    ensures var kv := KeyValue(t + KeyText(KEYS[j], value)); kv.Some? ==> kv.value.0 != KEYS[k]
  {
    hide Trim, Lower, Find, ContentOffset, KeyValue, Plain;
    KeyNumberOf(j);
    var x := KeyText(KEYS[j], value);
    KeyTextStarts(j, value);
    ContentPrefix(t, x);
    var c := ContentOffset(t);
    var b := if c.Some? then c.value else |t|;
    if c.Some? && Find(t, '=', b).Some? {
      NoKeyStays(t, x);
    } else {
      AddedKey(t, j, value, b);
      var q := KeyBehind(t[b..], KEYS[j]);
      if q + KEYS[j] == KEYS[k] {
        KeysEndApart(q, j, k);
      }
    }
  }

  /** Fused with the added line for key `j`, a line sets what it set, wrongly, and no third key. */
  lemma FusedSets(l: Line, j: nat, values: seq<string>, eol: string, k: nat)
    requires |values| == 3 && Clean(values) && j < 3 && k < 3 && k != j
    ensures var f := Line(l.text + KeyLine(j, values, eol).text, eol);
      && (SetsKey(f, k) <==> SetsKey(l, k))
      && (SetsKey(l, k) ==> !IsHeader(f) && |Sets(f).value.1| > |Sets(l).value.1|)
  {
    hide KeyValue, Section, KeyText, Trim;
    KeyLineStarts(j, values, eol);
    KeyNumberOf(k);
    if KeyValue(l.text).Some? {
      KeyLineGrows(l.text, KeyLine(j, values, eol).text);
    } else {
      NoKeyFused(l.text, j, values[j], k);
    }
  }

  // ---- The next start-up ----

  /** Lines that do not set the key change nothing, headers among them or not. */
  lemma {:induction false} ReadNothing(ls: seq<Line>, inside: bool, k: nat, found: Option<string>)
    requires forall i :: 0 <= i < |ls| ==> !SetsKey(ls[i], k)
    ensures ReadFrom(ls, inside, k, found) == found
    decreases |ls|
  {
    hide IsHeader, Opens, SetsKey;
    if ls != [] {
      assert !SetsKey(ls[0], k);
      ReadNothing(ls[1..], if IsHeader(ls[0]) then Opens(ls[0]) else inside, k, found);
    }
  }

  /** Reading up to line `i`, behind which nothing sets the key. */
  lemma ReadUpTo(w: seq<Line>, i: nat, k: nat)
    requires i < |w| && forall j :: i < j < |w| ==> !SetsKey(w[j], k)
    ensures Read(w, k) == if !IsHeader(w[i]) && Inside(w[..i], false) && SetsKey(w[i], k)
                          then Some(Sets(w[i]).value.1) else Read(w[..i], k)
  {
    hide Section, Sets, Inside;
    var head, rest := w[..i], w[i + 1..];
    assert w == head + ([w[i]] + rest);
    ReadAppend(head, [w[i]] + rest, false, k, None);
    ReadAppend([w[i]], rest, Inside(head, false), k, Read(head, k));
    ReadOne(w[i], Inside(head, false), k, Read(head, k));
    ReadNothing(rest, Inside([w[i]], Inside(head, false)), k, ReadFrom([w[i]], Inside(head, false), k, Read(head, k)));
  }

  /** Where lines run on, a key that the section sets is read as before exactly when the last line does not set it. */
  lemma RunsOnReads(ls: seq<Line>, s: nat, e: nat, values: seq<string>, m: seq<Line>, k: nat)
    requires |values| == 3 && Clean(values) && Lines(ls) && MergedIn(ls, s, e, values, m) && RunsOn(ls, s, e, m)
    requires k < 3 && Has(ls, s, e, k) && Read(m, k) == Some(values[k])
    ensures Read(Rewritten(m), k) == Some(values[k]) <==> !SetsKey(ls[e - 1], k)
  {
    hide Clean, MergedIn, Lines, Rewritten, Sets, IsHeader, Read, Inside, KeyLine, Has;
    FusedRewritten(ls, s, e, values, m);
    var n := e - 1;
    var w := Fused(m, n);
    forall i | e <= i < |m|
      ensures !SetsKey(m[i], k)
    {
      var j := AddedLine(ls, s, e, values, m, i);
      KeyLineSets(j, values, DefaultEol(ls));
    }
    forall i | n < i < |w|
      ensures !SetsKey(w[i], k)
    {
      assert w[i] == m[i + 1];
    }
    assert w[..n] == m[..n];
    ReadUpTo(m, n, k);
    ReadUpTo(w, n, k);
    var j := AddedLine(ls, s, e, values, m, e);
    FusedSets(m[n], j, values, DefaultEol(ls), k);
    KeyLineStarts(j, values, DefaultEol(ls));
    LastSame(ls, s, e, values, m, k);
  }

  lemma HeaderSetsNothing(l: Line, k: nat)
    requires IsHeader(l)
    ensures !SetsKey(l, k)
  {
    hide Trim, Lower;
  }

  lemma LastSame(ls: seq<Line>, s: nat, e: nat, values: seq<string>, m: seq<Line>, k: nat)
    requires |values| == 3 && Clean(values) && MergedIn(ls, s, e, values, m) && e <= |m|
    ensures s < e <= |ls| && (SetsKey(m[e - 1], k) <==> SetsKey(ls[e - 1], k))
    ensures SetsKey(ls[e - 1], k) ==> !IsHeader(m[e - 1]) && Inside(m[..e - 1], false)
  {
    hide Clean, MergedIn, Section, KeyValue;
    MergedSize(ls, s, e, values, m);
    MergedLine(ls, s, e, values, m, e - 1);
    EditedSets(ls, s, e, values, e - 1);
    MergedWithin(ls, s, e, values, m);
    hide Sets;
    if SetsKey(ls[e - 1], k) {
      HeaderSetsNothing(ls[s], k);
      InsideIff(m[..e - 1]);
      assert Opens(m[..e - 1][s]);
    }
  }

  /**
   * A start-up that merges what it has read is followed by one that reads the same, exactly when the file was tidy or
   * its last line does not set the key.
   */
  lemma RestartKeepsIff(ls: seq<Line>, values: seq<string>, m: seq<Line>, k: nat)
    requires |values| == 3 && Clean(values) && Lines(ls) && Merged(ls, values, m) && k < 3
    requires Read(ls, k) == Some(values[k])
    ensures ls != []
    ensures Read(Rewritten(m), k) == Some(values[k]) <==> Tidy(ls) || !SetsKey(ls[|ls| - 1], k)
  {
    hide Clean, Lines, Read, Sets, Opens, IsHeader, MergedNew, Tidy, Within, Rewritten, Has;
    SameLinesRead(ls, values, m, k);
    MergedReadsBackIff(ls, values, m);
    assert Rewritten(m) == m <==> Tidy(ls) by { RewrittenIs(m); }
    if MergedNew(ls, values, m) {
      NewHasNoSection(ls, values, m);
      NoSectionReads(ls, k);
    } else {
      var s: nat, e: nat :| MergedIn(ls, s, e, values, m);
      MergedSize(ls, s, e, values, m);
      SectionEnds(ls, s, e, values, m);
      if RunsOn(ls, s, e, m) {
        ReadHas(ls, s, e, k);
        FusedRewritten(ls, s, e, values, m);
        RunsOnReads(ls, s, e, values, m, k);
      }
    }
  }

  lemma RewrittenIs(m: seq<Line>)
    ensures Rewritten(m) == Split(Join(m))
  {
  }

  lemma NoSectionReads(ls: seq<Line>, k: nat)
    requires NoSection(ls)
    ensures Read(ls, k) == None
  {
    ReadOutside(ls, k);
  }

  /** Nothing runs on exactly when the merged lines are a file. */
  lemma SectionEnds(ls: seq<Line>, s: nat, e: nat, values: seq<string>, m: seq<Line>)
    requires |values| == 3 && Clean(values) && Lines(ls) && MergedIn(ls, s, e, values, m)
    ensures s < e <= |ls| <= |m| && (Rewritten(m) == m <==> !RunsOn(ls, s, e, m))
  {
    hide Clean, Lines, MergedIn, Join, Split;
    MergedSize(ls, s, e, values, m);
    MergedInLines(ls, s, e, values, m);
    ReadsBackIff(m);
  }

  /** In a file whose section is its end, what is read is set in that section. */
  lemma ReadHas(ls: seq<Line>, s: nat, e: nat, k: nat)
    requires Within(ls, s, e) && e == |ls| && Read(ls, k).Some?
    ensures Has(ls, s, e, k)
  {
    hide Sets, Section, Read, IsHeader, Opens;
    OriginalReads(ls, s, e, k);
    var p := FirstAt(ls, s + 1, e, k);
    if p == e {
      NothingBehind(k);
    }
  }

  lemma NothingBehind(k: nat)
    ensures ReadFrom([], true, k, None) == None
  {
  }

  // ---- Files that show it ----

  /** A file whose last line is the nickname, without a line break; the section has no id yet. */
  function OpenEnded(values: seq<string>): seq<Line>
    requires |values| == 3
  {
    [Line(HEADER, "\n"), KeyLine(2, values, "")]
  }

  lemma OpenEndedIs(values: seq<string>)
    requires |values| == 3 && Clean(values)
    ensures Lines(OpenEnded(values)) && Within(OpenEnded(values), 0, 2)
    ensures Has(OpenEnded(values), 0, 2, 2) && !Has(OpenEnded(values), 0, 2, 0) && !Has(OpenEnded(values), 0, 2, 1)
    ensures SetsKey(OpenEnded(values)[1], 2) && Read(OpenEnded(values), 2) == Some(values[2])
  {
    hide Section, KeyValue, KeyLine, WellFormed, Clean;
    var ls := OpenEnded(values);
    HeaderWellFormed("\n");
    KeyLineWellFormed(2, values, "", true);
    HeaderOpens("\n");
    KeyLineSets(2, values, "");
    NothingBehind(2);
    hide Read, ReadFrom;
    assert ls[2..] == [];
    ReadPast(ls, 0, 1, 2, values[2]);
  }

  /** Start-up reads the nickname, merges it with the ids, and reads something else the next time. */
  lemma NicknameRunsOn(values: seq<string>, m: seq<Line>)
    requires |values| == 3 && Clean(values) && Merged(OpenEnded(values), values, m)
    ensures Lines(OpenEnded(values)) && Read(OpenEnded(values), 2) == Some(values[2])
    ensures Read(Rewritten(m), 2) != Some(values[2])
  {
    hide Clean, Merged, Lines, Within, Has, SetsKey, Read, Rewritten, OpenEnded;
    var ls := OpenEnded(values);
    OpenEndedIs(values);
    RestartKeepsIff(ls, values, m, 2);
    assert !Tidy(ls) by {
      hide *;
      OpenEndedUntidy(values);
    }
    OpenEndedLast(values);
  }

  lemma OpenEndedLast(values: seq<string>)
    requires |values| == 3
    ensures |OpenEnded(values)| == 2
  {
  }

  lemma OpenEndedUntidy(values: seq<string>)
    requires |values| == 3 && Clean(values)
    ensures !Tidy(OpenEnded(values))
  {
    hide Clean, Lines, Opens, IsHeader, Sets;
    var ls := OpenEnded(values);
    OpenEndedIs(values);
    KeyLineStarts(2, values, "");
    assert Opens(ls[0]);
    forall s: nat, e: nat | Within(ls, s, e)
      ensures s == 0 && e == 2
    {
      OneSection(ls, s, e, 0, 2);
    }
  }

  /** A file that sets the nickname twice. */
  function Twice(values: seq<string>, other: string): seq<Line>
    requires |values| == 3
  {
    [Line(HEADER, "\n"), KeyLine(2, values, "\n"), Line(KeyText(KEYS[2], other), "\n")]
  }

  /** Whatever nickname is merged into it, the next start-up reads the other. */
  lemma NicknameLost(first: seq<string>, other: string, values: seq<string>, m: seq<Line>)
    requires |first| == 3 && Clean(first) && Clean([first[0], first[1], other])
    requires |values| == 3 && Clean(values) && Merged(Twice(first, other), values, m)
    ensures Lines(Twice(first, other)) && Read(Rewritten(m), 2) == Some(other)
  {
    hide Clean, Lines, Section, KeyValue, KeyLine, Rewritten, WellFormed, KeyText, KeyNumber;
    var ls := Twice(first, other);
    var behind := [first[0], first[1], other];
    KeyLineStarts(2, behind, "\n");
    assert ls[2] == KeyLine(2, behind, "\n");
    HeaderWellFormed("\n");
    KeyLineWellFormed(2, first, "\n", false);
    KeyLineWellFormed(2, behind, "\n", true);
    LinesByLine(ls);
    HeaderOpens("\n");
    KeyLineSets(2, first, "\n");
    KeyLineSets(2, behind, "\n");
    assert Within(ls, 0, 3);
    var s: nat, e: nat :| MergedIn(ls, s, e, values, m);
    OneSection(ls, s, e, 0, 3);
    assert FirstAt(ls, 1, 3, 2) == 1;
    assert ls[2..] == [ls[2]];
    ReadOne(ls[2], true, 2, None);
    assert Again(ls, 0, 3, 2) == Some(other);
    assert Tidy(ls) by { assert ls[2].eol == "\n"; }
    MergedReads(ls, 0, 3, values, m, 2);
  }
}
