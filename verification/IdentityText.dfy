/**
 * Lines, section headers and key lines of the identity file (`identity/identity.cpp`); bytes are written as
 * characters.
 */
module IdentityText {
  import opened Basics

  // ---- Characters ----

  predicate IsSpace(c: char) {
    c == ' ' || '\t' <= c <= '\r'
  }

  predicate IsBlank(c: char) {
    c == ' ' || c == '\t' || c == '\r'
  }

  predicate IsWord(c: char) {
    'a' <= c <= 'z' || 'A' <= c <= 'Z' || '0' <= c <= '9' || c == '_'
  }

  function LowerChar(c: char): char {
    if 'A' <= c <= 'Z' then (c as int + 32) as char else c
  }

  function Lower(s: string): string {
    seq(|s|, i requires 0 <= i < |s| => LowerChar(s[i]))
  }

  function TrimLeft(s: string): string {
    if s != "" && IsSpace(s[0]) then TrimLeft(s[1..]) else s
  }

  function TrimRight(s: string): string {
    if s != "" && IsSpace(s[|s| - 1]) then TrimRight(s[..|s| - 1]) else s
  }

  function Trim(s: string): string {
    TrimRight(TrimLeft(s))
  }

  /** The first place of `c` at or after `from`. */
  function Find(s: string, c: char, from: nat): (r: Option<nat>)
    ensures r.Some? ==> from <= r.value < |s| && s[r.value] == c && forall i :: from <= i < r.value ==> s[i] != c
    ensures r.None? ==> forall i :: from <= i < |s| ==> s[i] != c
    decreases |s| - from
  {
    if from >= |s| then None else if s[from] == c then Some(from) else Find(s, c, from + 1)
  }

  function FirstNotBlank(s: string, from: nat): (r: Option<nat>)
    ensures r.Some? ==> from <= r.value < |s| && !IsBlank(s[r.value])
    decreases |s| - from
  {
    if from >= |s| then None else if !IsBlank(s[from]) then Some(from) else FirstNotBlank(s, from + 1)
  }

  predicate BomAt(s: string, b: nat) {
    b + 3 <= |s| && s[b] == '\U{EF}' && s[b + 1] == '\U{BB}' && s[b + 2] == '\U{BF}'
  }

  /** Where the content starts, past blanks and a byte order mark. */
  function ContentOffset(text: string): (r: Option<nat>)
    ensures r.Some? ==> r.value < |text|
  {
    match FirstNotBlank(text, 0)
    case None => None
    case Some(b) => if BomAt(text, b) then FirstNotBlank(text, b + 3) else Some(b)
  }

  // ---- What a line says ----

  /** The lower-case name of a section header. */
  function Section(text: string): Option<string> {
    match ContentOffset(text)
    case None => None
    case Some(b) =>
      if text[b] != '[' then None
      else match Find(text, ']', b + 1)
        case None => None
        case Some(e) =>
          var name := Lower(Trim(text[b + 1..e]));
          if name == "" then None else Some(name)
  }

  /** The lower-case key and the trimmed value of a key line. */
  function KeyValue(text: string): Option<(string, string)> {
    match ContentOffset(text)
    case None => None
    case Some(b) =>
      if text[b] in {';', '#', '['} then None
      else match Find(text, '=', b)
        case None => None
        case Some(eq) =>
          var key := Lower(Trim(text[b..eq]));
          if key == "" || exists i :: 0 <= i < |key| && !IsWord(key[i]) then None
          else Some((key, Trim(text[eq + 1..])))
  }

  // ---- Lines ----

  datatype Line = Line(text: string, eol: string)

  function CutLine(chunk: string): Line {
    if chunk != "" && chunk[|chunk| - 1] == '\r' then Line(chunk[..|chunk| - 1], "\r\n") else Line(chunk, "\n")
  }

  function Split(data: string): seq<Line>
    decreases |data|
  {
    if data == "" then []
    else match Find(data, '\n', 0)
      case None => [Line(data, "")]
      case Some(nl) => [CutLine(data[..nl])] + Split(data[nl + 1..])
  }

  function Join(lines: seq<Line>): string {
    if lines == [] then "" else lines[0].text + lines[0].eol + Join(lines[1..])
  }

  method SplitLines(data: string) returns (out: seq<Line>)
    ensures out == Split(data)
  {
    hide Split, Find;
    out := [];
    var start := 0;
    assert data[0..] == data && out + Split(data) == Split(data);
    while start < |data|
      invariant 0 <= start <= |data|
      invariant Split(data) == out + Split(data[start..])
    {
      SplitFrom(data, start);
      var nl := Find(data, '\n', start);
      if nl.None? {
        out := out + [Line(data[start..], "")];
        return;
      }
      var chunk := data[start..nl.value];
      var line := Line(chunk, "\n");
      if chunk != "" && chunk[|chunk| - 1] == '\r' {
        line := Line(chunk[..|chunk| - 1], "\r\n");
      }
      assert out + ([line] + Split(data[nl.value + 1..])) == (out + [line]) + Split(data[nl.value + 1..]);
      out := out + [line];
      start := nl.value + 1;
    }
    SplitEnd(data, start);
    assert out + [] == out;
  }

  lemma SplitEnd(data: string, start: nat)
    requires start == |data|
    ensures Split(data[start..]) == []
  {
  }

  /** One round of the splitting loop. */
  lemma SplitFrom(data: string, start: nat)
    requires start < |data|
    ensures var nl := Find(data, '\n', start);
      Split(data[start..]) == if nl.None? then [Line(data[start..], "")]
      else [CutLine(data[start..nl.value])] + Split(data[nl.value + 1..])
  {
    hide Find, CutLine;
    var rest := data[start..];
    var nl := Find(data, '\n', start);
    FindShift(data, '\n', start);
    if nl.Some? {
      assert rest[..nl.value - start] == data[start..nl.value];
      assert rest[nl.value - start + 1..] == data[nl.value + 1..];
    }
  }

  method JoinLines(lines: seq<Line>) returns (out: string)
    ensures out == Join(lines)
  {
    hide Join;
    out := "";
    assert lines[0..] == lines && "" + Join(lines) == Join(lines);
    for i := 0 to |lines|
      invariant out + Join(lines[i..]) == Join(lines)
    {
      assert lines[i..] == [lines[i]] + lines[i + 1..];
      JoinCons(lines[i], lines[i + 1..]);
      var l := lines[i];
      assert out + (l.text + l.eol + Join(lines[i + 1..])) == out + l.text + l.eol + Join(lines[i + 1..]);
      out := out + l.text;
      out := out + l.eol;
    }
    JoinNone();
    assert lines[|lines|..] == [] && out + "" == out;
  }

  lemma JoinNone()
    ensures Join([]) == ""
  {
  }

  lemma FindShift(s: string, c: char, from: nat)
    requires from <= |s|
    ensures var (a, b) := (Find(s, c, from), Find(s[from..], c, 0));
      (a.Some? <==> b.Some?) && (a.Some? ==> a.value == b.value + from)
  {
    var a, b := Find(s, c, from), Find(s[from..], c, 0);
    if a.Some? {
      assert s[from..][a.value - from] == c;
    }
    if b.Some? {
      assert s[from + b.value] == c;
      assert a.value - from >= b.value;
    }
  }

  // ---- The round trip ----

  lemma {:induction false} JoinOfSplit(data: string)
    ensures Join(Split(data)) == data
    decreases |data|
  {
    hide Find;
    if data != "" {
      var nl := Find(data, '\n', 0);
      if nl.None? {
        JoinCons(Line(data, ""), []);
      } else {
        var rest := data[nl.value + 1..];
        JoinOfSplit(rest);
        JoinCons(CutLine(data[..nl.value]), Split(rest));
        CutLineKeeps(data[..nl.value]);
        assert data == data[..nl.value] + "\n" + rest;
      }
    }
  }

  lemma CutLineKeeps(chunk: string)
    ensures CutLine(chunk).text + CutLine(chunk).eol == chunk + "\n"
  {
  }

  lemma JoinCons(l: Line, rest: seq<Line>)
    ensures Join([l] + rest) == l.text + l.eol + Join(rest)
  {
    assert ([l] + rest)[1..] == rest;
  }

  /** A line that splitting can produce, at the end of the file or before it. */
  predicate WellFormed(l: Line, last: bool) {
    && (forall i :: 0 <= i < |l.text| ==> l.text[i] != '\n')
    && (l.eol == "\r\n" || l.eol == "\n" || (l.eol == "" && last && l.text != ""))
    && (l.eol == "\n" && l.text != "" ==> l.text[|l.text| - 1] != '\r')
  }

  ghost predicate Lines(ls: seq<Line>) {
    forall i :: 0 <= i < |ls| ==> WellFormed(ls[i], i == |ls| - 1)
  }

  lemma {:induction false} SplitGivesLines(data: string)
    ensures Lines(Split(data))
    decreases |data|
  {
    if data != "" {
      var nl := Find(data, '\n', 0);
      if nl.Some? {
        SplitGivesLines(data[nl.value + 1..]);
        assert data[..nl.value + 1][..nl.value] == data[..nl.value];
      }
    }
  }

  lemma {:induction false} SplitOfJoin(ls: seq<Line>)
    requires Lines(ls)
    ensures Split(Join(ls)) == ls
  {
    if ls != [] {
      var l, rest := ls[0], ls[1..];
      forall i | 0 <= i < |rest|
        ensures WellFormed(rest[i], i == |rest| - 1)
      {
        assert rest[i] == ls[i + 1];
      }
      SplitOfJoin(rest);
      if l.eol == "" {
        assert rest == [] && Join(ls) == l.text;
      } else {
        SplitFirst(l, Join(rest));
      }
    }
  }

  lemma SplitFirst(l: Line, rest: string)
    requires WellFormed(l, false)
    ensures Split(l.text + l.eol + rest) == [l] + Split(rest)
  {
    var data := l.text + l.eol + rest;
    var chunk := if l.eol == "\n" then l.text else l.text + "\r";
    assert data == chunk + "\n" + rest;
    var nl := Find(data, '\n', 0);
    assert data[|chunk|] == '\n';
    forall i | 0 <= i < |chunk|
      ensures data[i] != '\n'
    {
      assert data[i] == chunk[i];
    }
    assert nl == Some(|chunk|);
    assert data[..|chunk|] == chunk && data[|chunk| + 1..] == rest;
    assert CutLine(chunk) == l by {
      if l.eol == "\r\n" {
        assert chunk[..|chunk| - 1] == l.text;
      }
    }
  }

  /** Exactly the lists of well-formed lines survive being written and read again. */
  lemma ReadsBackIff(ls: seq<Line>)
    ensures Split(Join(ls)) == ls <==> Lines(ls)
  {
    SplitGivesLines(Join(ls));
    if Lines(ls) {
      SplitOfJoin(ls);
    }
  }

  // ---- Canonical lines parse to what they say ----

  /** A lower-case word, as the canonical keys and the section name are. */
  predicate Plain(s: string) {
    s != "" && forall i :: 0 <= i < |s| ==> 'a' <= s[i] <= 'z' || s[i] == '_'
  }

  function KeyText(key: string, value: string): string {
    key + " = " + value
  }

  lemma LowerPlain(s: string)
    requires Plain(s)
    ensures Lower(s) == s && Trim(s) == s
  {
  }

  lemma TrimSpaces(s: string)
    ensures Trim(" " + s) == Trim(s)
    ensures Plain(s) ==> Trim(s + " ") == s
  {
    assert (" " + s)[1..] == s;
    if Plain(s) {
      assert TrimLeft(s + " ") == s + " ";
      assert (s + " ")[..|s|] == s;
    }
  }

  lemma KeyTextParses(key: string, value: string)
    requires Plain(key) && Trim(value) == value
    ensures KeyValue(KeyText(key, value)) == Some((key, value))
    ensures Section(KeyText(key, value)) == None
  {
    hide Trim, Lower;
    var text := KeyText(key, value);
    assert text[0] == key[0];
    assert ContentOffset(text) == Some(0);
    var at := |key| + 1;
    assert text[at] == '=';
    forall i | 0 <= i < at
      ensures text[i] != '='
    {
      assert text[i] == if i < |key| then key[i] else ' ';
    }
    assert Find(text, '=', 0) == Some(at);
    assert text[0..at] == key + " " && text[at + 1..] == " " + value;
    TrimSpaces(key);
    TrimSpaces(value);
    LowerPlain(key);
  }

  lemma HeaderParses(name: string)
    requires Plain(name)
    ensures Section("[" + name + "]") == Some(name)
  {
    hide Trim, Lower;
    var text := "[" + name + "]";
    assert text[0] == '[' && ContentOffset(text) == Some(0);
    forall i | 1 <= i <= |name|
      ensures text[i] != ']'
    {
      assert text[i] == name[i - 1];
    }
    assert text[|name| + 1] == ']';
    assert Find(text, ']', 1) == Some(|name| + 1);
    assert text[1..|name| + 1] == name;
    LowerPlain(name);
  }
}
