/** What the parsers of the identity file accept, said of the bytes alone. */
module IdentityGrammar {
  import opened Basics
  import opened IdentityText
  import opened IdentityMerge

  ghost predicate AllIn(s: string, chars: string) { forall c :: c in s ==> c in chars }

  /** Tab, line feed, vertical tab, form feed, carriage return and space. */
  const SPACES := "\t\n\U{0B}\U{0C}\r "

  /** The codes of 0 to 9, A to Z, a to z and the underscore. */
  predicate InWord(c: char) {
    var n := c as int;
    48 <= n <= 57 || 65 <= n <= 90 || 97 <= n <= 122 || n == 95
  }

  /** `core` is `s` without the white space around it. */
  ghost predicate Stripped(s: string, core: string) {
    exists a, b :: StrippedAt(s, core, a, b)
  }

  ghost predicate StrippedAt(s: string, core: string, a: int, b: int) {
    && 0 <= a <= b <= |s| && core == s[a..b]
    && AllIn(s[..a], SPACES) && AllIn(s[b..], SPACES)
    && (a < b ==> s[a] !in SPACES && s[b - 1] !in SPACES)
  }

  /** `low` is `s` with the letters A to Z, codes 65 to 90, made small, which adds 32. */
  ghost predicate Lowered(s: string, low: string) {
    && |low| == |s|
    && forall i :: 0 <= i < |s| ==> low[i] as int == s[i] as int + if 65 <= s[i] as int <= 90 then 32 else 0
  }

  lemma Spaces(c: char)
    ensures IsSpace(c) <==> c in SPACES
    ensures IsBlank(c) <==> c in " \t\r"
  {
    assert " \t\r"[0] == ' ' && " \t\r"[1] == '\t' && " \t\r"[2] == '\r';
    assert SPACES[0] == '\t' && SPACES[1] == '\n' && SPACES[2] == '\U{0B}' && SPACES[3] == '\U{0C}' && SPACES[4] == '\r'
      && SPACES[5] == ' ';
  }

  lemma {:induction false} TrimLeftAt(s: string) returns (a: nat)
    ensures a <= |s| && TrimLeft(s) == s[a..] && (forall i :: 0 <= i < a ==> IsSpace(s[i]))
    ensures a < |s| ==> !IsSpace(s[a])
  {
    if s != "" && IsSpace(s[0]) {
      var rest := TrimLeftAt(s[1..]);
      a := rest + 1;
      assert s[1..][rest..] == s[a..];
      forall i | 0 <= i < a
        ensures IsSpace(s[i])
      {
        assert i > 0 ==> s[i] == s[1..][i - 1];
      }
    } else {
      a := 0;
    }
  }

  lemma {:induction false} TrimRightAt(s: string) returns (b: nat)
    ensures b <= |s| && TrimRight(s) == s[..b] && (forall i :: b <= i < |s| ==> IsSpace(s[i]))
    ensures b > 0 ==> !IsSpace(s[b - 1])
  {
    if s != "" && IsSpace(s[|s| - 1]) {
      b := TrimRightAt(s[..|s| - 1]);
      assert s[..|s| - 1][..b] == s[..b];
    } else {
      b := |s|;
    }
  }

  lemma AllSpaces(s: string)
    requires forall i :: 0 <= i < |s| ==> IsSpace(s[i])
    ensures AllIn(s, SPACES)
  {
    forall c | c in s
      ensures c in SPACES
    {
      Spaces(c);
    }
  }

  lemma TrimStrips(s: string)
    ensures Stripped(s, Trim(s))
  {
    hide AllIn, IsSpace;
    var a := TrimLeftAt(s);
    var n := TrimRightAt(s[a..]);
    var b := a + n;
    assert s[a..][..n] == s[a..b];
    AllSpaces(s[..a]);
    forall i | 0 <= i < |s[b..]|
      ensures IsSpace(s[b..][i])
    {
      assert s[b..][i] == s[a..][n + i];
    }
    AllSpaces(s[b..]);
    if a < b {
      Spaces(s[a]);
      Spaces(s[b - 1]);
      assert s[b - 1] == s[a..][n - 1];
    }
    assert StrippedAt(s, Trim(s), a, b);
  }

  lemma OneStripped(s: string, c: string, d: string)
    requires Stripped(s, c) && Stripped(s, d)
    ensures c == d
  {
    var a, b :| StrippedAt(s, c, a, b);
    var p, q :| StrippedAt(s, d, p, q);
    hide SPACES;
    if a < b {
      NotInside(s, p, q, a);
      NotInside(s, p, q, b - 1);
    }
    if p < q {
      NotInside(s, a, b, p);
      NotInside(s, a, b, q - 1);
    }
  }

  /** What is no space lies between the spaces. */
  lemma NotInside(s: string, a: int, b: int, i: int)
    requires 0 <= a <= b <= |s| && AllIn(s[..a], SPACES) && AllIn(s[b..], SPACES) && 0 <= i < |s|
    ensures a <= i < b || s[i] in SPACES
  {
    hide SPACES;
    if i < a { assert s[..a][i] in SPACES; }
    if i >= b { assert s[b..][i - b] in SPACES; }
  }

  /** Trimming is taking off the white space on both sides. */
  lemma TrimIff(s: string, core: string)
    ensures Trim(s) == core <==> Stripped(s, core)
  {
    hide Trim, Stripped;
    TrimStrips(s);
    if Stripped(s, core) {
      OneStripped(s, core, Trim(s));
    }
  }

  lemma LowerIff(s: string, low: string)
    ensures Lower(s) == low <==> Lowered(s, low)
  {
  }

  // ---- Where the content begins ----

  const BOM := "\U{EF}\U{BB}\U{BF}"

  ghost predicate BlankBetween(text: string, from: int, to: int)
    requires 0 <= from <= to <= |text|
  {
    AllIn(text[from..to], " \t\r")
  }

  /** The first character that is not blank, or the first after a byte order mark that stands there. */
  ghost predicate BeginsAt(text: string, b: int) {
    && 0 <= b < |text| && text[b] !in " \t\r"
    && ((BlankBetween(text, 0, b) && !(BOM <= text[b..])) || exists m :: AfterMark(text, m, b))
  }

  ghost predicate AfterMark(text: string, m: int, b: int) {
    0 <= m && m + 3 <= b < |text| && BlankBetween(text, 0, m) && BOM <= text[m..] && BlankBetween(text, m + 3, b)
  }

  lemma BlankIff(text: string, from: int, to: int)
    requires 0 <= from <= to <= |text|
    ensures BlankBetween(text, from, to) <==> forall i :: from <= i < to ==> IsBlank(text[i])
  {
    if BlankBetween(text, from, to) {
      forall i | from <= i < to
        ensures IsBlank(text[i])
      {
        assert text[from..to][i - from] in " \t\r";
        Spaces(text[i]);
      }
    }
    if forall i :: from <= i < to ==> IsBlank(text[i]) {
      forall c | c in text[from..to]
        ensures c in " \t\r"
      {
        Spaces(c);
      }
    }
  }

  lemma {:induction false} FirstNotBlankIff(text: string, from: nat, b: nat)
    requires from <= |text|
    ensures FirstNotBlank(text, from) == Some(b) <==>
            from <= b < |text| && BlankBetween(text, from, b) && text[b] !in " \t\r"
    decreases |text| - from
  {
    hide BlankBetween;
    if from <= b <= |text| {
      BlankIff(text, from, b);
    }
    if from < |text| {
      Spaces(text[from]);
      if from < b <= |text| {
        BlankIff(text, from + 1, b);
      }
      FirstNotBlankIff(text, from + 1, b);
    }
  }

  lemma BomIff(text: string, b: nat)
    requires b <= |text|
    ensures BomAt(text, b) <==> BOM <= text[b..]
  {
    assert BOM[0] == '\U{EF}' && BOM[1] == '\U{BB}' && BOM[2] == '\U{BF}';
  }

  lemma BomNotBlank(text: string, m: nat)
    requires m <= |text| && BOM <= text[m..]
    ensures m + 3 <= |text| && text[m] !in " \t\r"
  {
    assert text[m] == BOM[0];
  }

  lemma ContentIff(text: string, b: nat)
    ensures ContentOffset(text) == Some(b) <==> BeginsAt(text, b)
  {
    hide BlankBetween, FirstNotBlank, BomAt;
    forall m: nat
      ensures FirstNotBlank(text, 0) == Some(m) <==>
              m < |text| && BlankBetween(text, 0, m) && text[m] !in " \t\r"
    {
      FirstNotBlankIff(text, 0, m);
    }
    hide BOM;
    forall m: nat | m <= |text|
      ensures BomAt(text, m) <==> BOM <= text[m..]
      ensures BomAt(text, m) ==> m + 3 <= |text| && text[m] !in " \t\r"
    {
      BomIff(text, m);
      if BomAt(text, m) { BomNotBlank(text, m); }
    }
    forall n: nat | n <= |text|
      ensures FirstNotBlank(text, n) == Some(b) <==> n <= b < |text| && BlankBetween(text, n, b) && text[b] !in " \t\r"
    {
      FirstNotBlankIff(text, n, b);
    }
    var f := FirstNotBlank(text, 0);
    if f.Some? && BomAt(text, f.value) && ContentOffset(text) == Some(b) {
      assert AfterMark(text, f.value, b);
    }
    if m :| AfterMark(text, m, b) {
      assert f == Some(m);
    }
  }

  // ---- Headers and keys ----

  /** The first `c` from `from` on is at `e`. */
  ghost predicate FirstAt(text: string, c: char, from: int, e: int) {
    0 <= from <= e < |text| && text[e] == c && c !in text[from..e]
  }

  lemma FindIff(text: string, c: char, from: nat, e: nat)
    ensures Find(text, c, from) == Some(e) <==> FirstAt(text, c, from, e)
  {
    if FirstAt(text, c, from, e) {
      forall i | from <= i < e
        ensures text[i] != c
      {
        assert text[from..e][i - from] != c;
      }
    }
  }

  /** A header is a bracketed name, trimmed and in small letters; what follows the bracket does not matter. */
  ghost predicate HeaderAt(text: string, name: string, b: int, e: int, inner: string) {
    && BeginsAt(text, b) && text[b] == '[' && FirstAt(text, ']', b + 1, e)
    && Stripped(text[b + 1..e], inner) && Lowered(inner, name) && name != ""
  }

  lemma SectionIff(text: string, name: string)
    ensures Section(text) == Some(name) <==> exists b, e, inner :: HeaderAt(text, name, b, e, inner)
  {
    hide ContentOffset, BeginsAt, Find, FirstAt, Trim, Stripped, Lower, Lowered;
    if Section(text) == Some(name) {
      var b := ContentOffset(text).value;
      var e := Find(text, ']', b + 1).value;
      HeaderIff(text, name, b, e, Trim(text[b + 1..e]));
      assert HeaderAt(text, name, b, e, Trim(text[b + 1..e]));
    }
    if b, e, inner :| HeaderAt(text, name, b, e, inner) {
      InText(text, ']', b, b + 1, e);
      HeaderIff(text, name, b, e, inner);
    }
  }

  lemma HeaderIff(text: string, name: string, b: nat, e: nat, inner: string)
    requires b < e < |text|
    ensures HeaderAt(text, name, b, e, inner) <==>
            && ContentOffset(text) == Some(b) && text[b] == '[' && Find(text, ']', b + 1) == Some(e)
            && Trim(text[b + 1..e]) == inner && Lower(inner) == name && name != ""
  {
    hide ContentOffset, BeginsAt, Find, FirstAt, Trim, Stripped, Lower, Lowered;
    ContentIff(text, b);
    FindIff(text, ']', b + 1, e);
    TrimIff(text[b + 1..e], inner);
    LowerIff(inner, name);
  }

  lemma InText(text: string, c: char, b: int, from: int, e: int)
    requires BeginsAt(text, b) && FirstAt(text, c, from, e)
    ensures 0 <= b < |text| && 0 <= from <= e < |text|
  {
  }

  /**
   * A key line is a word, an equals sign and a value, both trimmed, the word in small letters; it does not begin as a
   * comment or a header.
   */
  ghost predicate KeyAt(text: string, key: string, value: string, b: int, e: int, word: string) {
    && BeginsAt(text, b) && text[b] !in ";#[" && FirstAt(text, '=', b, e)
    && Stripped(text[b..e], word) && word != "" && (forall c :: c in word ==> InWord(c)) && Lowered(word, key)
    && Stripped(text[e + 1..], value)
  }

  lemma KeyValueIff(text: string, key: string, value: string)
    ensures KeyValue(text) == Some((key, value)) <==> exists b, e, word :: KeyAt(text, key, value, b, e, word)
  {
    hide ContentOffset, BeginsAt, Find, FirstAt, Trim, Stripped, Lower, Lowered, InWord, IsWord;
    if KeyValue(text) == Some((key, value)) {
      var b := ContentOffset(text).value;
      var e := Find(text, '=', b).value;
      KeyIff(text, key, value, b, e, Trim(text[b..e]));
      assert KeyAt(text, key, value, b, e, Trim(text[b..e]));
    }
    if b, e, word :| KeyAt(text, key, value, b, e, word) {
      InText(text, '=', b, b, e);
      KeyIff(text, key, value, b, e, word);
    }
  }

  lemma KeyIff(text: string, key: string, value: string, b: nat, e: nat, word: string)
    requires b <= e < |text|
    ensures KeyAt(text, key, value, b, e, word) <==>
            && ContentOffset(text) == Some(b) && text[b] !in {';', '#', '['} && Find(text, '=', b) == Some(e)
            && Trim(text[b..e]) == word && Lower(word) == key && key != ""
            && (forall i :: 0 <= i < |key| ==> IsWord(key[i])) && Trim(text[e + 1..]) == value
  {
    hide ContentOffset, BeginsAt, Find, FirstAt, Trim, Stripped, Lower, Lowered, InWord, IsWord;
    ContentIff(text, b);
    FindIff(text, '=', b, e);
    TrimIff(text[b..e], word);
    TrimIff(text[e + 1..], value);
    LowerIff(word, key);
    WordsLower(word);
    Comments(text[b]);
    LowerSize(word);
  }

  lemma Comments(c: char)
    ensures c in ";#[" <==> c in {';', '#', '['}
  {
    assert ";#["[0] == ';' && ";#["[1] == '#' && ";#["[2] == '[';
  }

  lemma LowerSize(s: string)
    ensures |Lower(s)| == |s|
  {
  }

  lemma WordsLower(s: string)
    ensures (forall c :: c in s ==> InWord(c)) <==> forall i :: 0 <= i < |Lower(s)| ==> IsWord(Lower(s)[i])
  {
    forall i | 0 <= i < |s|
      ensures IsWord(Lower(s)[i]) <==> InWord(s[i])
    {
    }
  }

  // ---- The canonical lines ----

  /** A line sets the client identity, the hardware hash or the nickname. */
  lemma SetsNamed(l: Line, k: nat, value: string)
    ensures Sets(l) == Some((k, value)) <==>
            k < 3 && KeyValue(l.text) == Some((["client_uuid", "hwid_hash", "nickname"][k], value))
  {
    hide KeyValue;
    assert KEYS[0] != KEYS[1] && KEYS[0] != KEYS[2] && KEYS[1] != KEYS[2];
  }

  /** A file without the section gets it at the end, in the line ending of its first line. */
  lemma AddedSection(ls: seq<Line>, values: seq<string>, m: seq<Line>)
    requires |values| == 3 && MergedNew(ls, values, m)
    ensures var n := |ls|; var eol := if n == 0 || ls[0].eol == "" then "\n" else ls[0].eol;
      && |m| == n + 4 && m[n..] == [Line("[zone_identity]", eol), Line("client_uuid = " + values[0], eol),
            Line("hwid_hash = " + values[1], eol), Line("nickname = " + values[2], eol)]
      && forall i :: 0 <= i < n ==> m[i] == if i == n - 1 && ls[i].eol == "" then Line(ls[i].text, eol) else ls[i]
  {
    var eol := DefaultEol(ls);
    assert MissingFrom(3, [false, false, false], values, eol) == [];
    assert MissingFrom(2, [false, false, false], values, eol) == [KeyLine(2, values, eol)];
    assert MissingFrom(1, [false, false, false], values, eol) == [KeyLine(1, values, eol), KeyLine(2, values, eol)];
    assert "client_uuid" + " = " == "client_uuid = " && "hwid_hash" + " = " == "hwid_hash = "
        && "nickname" + " = " == "nickname = ";
    assert Ended(ls, eol) + [Line(HEADER, eol)]
             + MissingFrom(0, [false, false, false], values, eol)
        == Ended(ls, eol) + ([Line(HEADER, eol)] + MissingFrom(0, [false, false, false], values, eol));
  }
}
