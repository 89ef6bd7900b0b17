/** The merge of the three canonical keys into the identity file (`identity/identity.cpp`). */
module IdentityMerge {
  import opened Basics
  import opened IdentityText

  const SECTION := "zone_identity"
  const HEADER := "[zone_identity]"
  const KEYS: seq<string> := ["client_uuid", "hwid_hash", "nickname"]

  // ---- The specification ----

  function KeyNumber(key: string): (r: Option<nat>)
    ensures r.Some? ==> r.value < 3 && KEYS[r.value] == key
    ensures r.None? ==> forall k :: 0 <= k < 3 ==> KEYS[k] != key
  {
    if key == KEYS[0] then Some(0) else if key == KEYS[1] then Some(1) else if key == KEYS[2] then Some(2) else None
  }

  /** The canonical key a line sets, and its value. */
  function Sets(l: Line): Option<(nat, string)> {
    match KeyValue(l.text)
    case None => None
    case Some((key, value)) => match KeyNumber(key)
      case None => None
      case Some(k) => Some((k, value))
  }

  predicate SetsKey(l: Line, k: nat) {
    Sets(l).Some? && Sets(l).value.0 == k
  }

  predicate IsHeader(l: Line) {
    Section(l.text).Some?
  }

  predicate Opens(l: Line) {
    Section(l.text) == Some(SECTION)
  }

  /** The first [zone_identity] section is lines (s, e). */
  ghost predicate Within(ls: seq<Line>, s: nat, e: nat) {
    && s < e <= |ls| && Opens(ls[s]) && (forall i :: 0 <= i < s ==> !Opens(ls[i]))
    && (forall i :: s < i < e ==> !IsHeader(ls[i])) && (e < |ls| ==> IsHeader(ls[e]))
  }

  ghost predicate NoSection(ls: seq<Line>) {
    forall i :: 0 <= i < |ls| ==> !Opens(ls[i])
  }

  /** The first line after `s` that sets the key it sets. */
  predicate FirstSetting(ls: seq<Line>, s: nat, i: nat)
    requires i < |ls|
  {
    Sets(ls[i]).Some? && forall j :: s < j < i ==> !SetsKey(ls[j], Sets(ls[i]).value.0)
  }

  predicate Has(ls: seq<Line>, s: nat, e: nat, k: nat)
    requires e <= |ls|
  {
    exists i :: s < i < e && SetsKey(ls[i], k)
  }

  function KeyLine(k: nat, values: seq<string>, eol: string): Line
    requires k < 3 && |values| == 3
  {
    Line(KeyText(KEYS[k], values[k]), eol)
  }

  function EditLine(ls: seq<Line>, s: nat, e: nat, values: seq<string>, i: nat): Line
    requires i < |ls| && |values| == 3
  {
    if s < i < e && FirstSetting(ls, s, i) && Sets(ls[i]).value.1 != values[Sets(ls[i]).value.0]
    then KeyLine(Sets(ls[i]).value.0, values, ls[i].eol)
    else ls[i]
  }

  function Edited(ls: seq<Line>, s: nat, e: nat, values: seq<string>): seq<Line>
    requires |values| == 3
  {
    seq(|ls|, i requires 0 <= i < |ls| => EditLine(ls, s, e, values, i))
  }

  /** The lines for the keys from `k` on that are not `written`. */
  function MissingFrom(k: nat, written: seq<bool>, values: seq<string>, eol: string): seq<Line>
    requires k <= 3 && |written| == 3 && |values| == 3
    decreases 3 - k
  {
    if k == 3 then []
    else (if written[k] then [] else [KeyLine(k, values, eol)]) + MissingFrom(k + 1, written, values, eol)
  }

  function DefaultEol(ls: seq<Line>): string {
    if ls == [] || ls[0].eol == "" then "\n" else ls[0].eol
  }

  function Written(ls: seq<Line>, s: nat, e: nat): (r: seq<bool>)
    requires e <= |ls|
    ensures |r| == 3
  {
    [Has(ls, s, e, 0), Has(ls, s, e, 1), Has(ls, s, e, 2)]
  }

  /** A last line without an ending gets one before a section is appended. */
  function Ended(ls: seq<Line>, eol: string): seq<Line> {
    if ls != [] && ls[|ls| - 1].eol == "" then ls[|ls| - 1 := Line(ls[|ls| - 1].text, eol)] else ls
  }

  /** `m` is `ls` with the keys set in the section (s, e). */
  ghost predicate MergedIn(ls: seq<Line>, s: nat, e: nat, values: seq<string>, m: seq<Line>)
    requires |values| == 3
  {
    Within(ls, s, e)
    && m == Edited(ls, s, e, values)[..e] + MissingFrom(0, Written(ls, s, e), values, DefaultEol(ls)) + ls[e..]
  }

  ghost predicate MergedNew(ls: seq<Line>, values: seq<string>, m: seq<Line>)
    requires |values| == 3
  {
    NoSection(ls)
    && m == Ended(ls, DefaultEol(ls)) + [Line(HEADER, DefaultEol(ls))]
        + MissingFrom(0, [false, false, false], values, DefaultEol(ls))
  }

  ghost predicate Merged(ls: seq<Line>, values: seq<string>, m: seq<Line>)
    requires |values| == 3
  {
    MergedNew(ls, values, m) || exists s: nat, e: nat :: MergedIn(ls, s, e, values, m)
  }

  // ---- The merge ----

  method FindSection(ls: seq<Line>) returns (at: Option<nat>)
    ensures at.None? ==> NoSection(ls)
    ensures at.Some? ==> at.value < |ls| && Opens(ls[at.value]) && forall i :: 0 <= i < at.value ==> !Opens(ls[i])
  {
    hide Section;
    for i := 0 to |ls|
      invariant forall j :: 0 <= j < i ==> !Opens(ls[j])
    {
      if Section(ls[i].text) == Some(SECTION) {
        return Some(i);
      }
    }
    return None;
  }

  /** Updates the section after line `s` in place; `written` says which keys it sets. */
  method EditSection(ls: seq<Line>, s: nat, values: seq<string>) returns (out: seq<Line>, e: nat, written: seq<bool>)
    requires |values| == 3 && s < |ls|
    ensures s < e <= |ls| && (forall i :: s < i < e ==> !IsHeader(ls[i])) && (e < |ls| ==> IsHeader(ls[e]))
    ensures out == Edited(ls, s, e, values) && |written| == 3 && written == Written(ls, s, e)
  {
    hide Section, KeyValue, KeyText;
    out, e, written := ls, s + 1, [false, false, false];
    assert forall i :: 0 <= i < |ls| ==> EditLine(ls, s, s + 1, values, i) == ls[i];
    while e < |ls|
      invariant s < e <= |ls| && |written| == 3 && |out| == |ls|
      invariant forall i :: s < i < e ==> !IsHeader(ls[i])
      invariant forall i :: 0 <= i < |ls| ==> out[i] == EditLine(ls, s, e, values, i)
      invariant forall k :: 0 <= k < 3 ==> written[k] == Has(ls, s, e, k)
    {
      if Section(out[e].text).Some? {
        break;
      }
      ghost var before, was := out, written;
      var kv := KeyValue(out[e].text);
      if kv.Some? {
        var k := 0;
        while k < 3
          invariant 0 <= k <= 3 && out == before && written == was
          invariant forall j :: 0 <= j < k ==> was[j] || kv.value.0 != KEYS[j]
        {
          if !written[k] && kv.value.0 == KEYS[k] {
            if kv.value.1 != values[k] {
              out := out[e := KeyLine(k, values, out[e].eol)];
            }
            written := written[k := true];
            break;
          }
          k := k + 1;
        }
      }
      EditStep(ls, s, e, values, before, was, out, written);
      e := e + 1;
    }
  }

  /** One line of the section: what the inner loop over the keys comes to. */
  lemma EditStep(ls: seq<Line>, s: nat, e: nat, values: seq<string>, before: seq<Line>, was: seq<bool>, out: seq<Line>,
      written: seq<bool>)
    requires |values| == 3 && s < e < |ls| == |before| && |was| == 3
    requires forall i :: 0 <= i < |ls| ==> before[i] == EditLine(ls, s, e, values, i)
    requires forall k :: 0 <= k < 3 ==> was[k] == Has(ls, s, e, k)
    requires match Sets(ls[e])
      case None => out == before && written == was
      case Some((k, value)) =>
        k < 3 &&
        if was[k] then out == before && written == was
        else
          && written == was[k := true]
          && out == if value != values[k] then before[e := KeyLine(k, values, ls[e].eol)] else before
    ensures |out| == |ls| && |written| == 3
    ensures forall i :: 0 <= i < |ls| ==> out[i] == EditLine(ls, s, e + 1, values, i)
    ensures forall k :: 0 <= k < 3 ==> written[k] == Has(ls, s, e + 1, k)
  {
    hide Sets, KeyText;
    forall k | 0 <= k < 3
      ensures Has(ls, s, e + 1, k) == (Has(ls, s, e, k) || SetsKey(ls[e], k))
    {
      if SetsKey(ls[e], k) {
        assert s < e < e + 1;
      }
    }
    assert Sets(ls[e]).Some? ==> FirstSetting(ls, s, e) == !Has(ls, s, e, Sets(ls[e]).value.0);
  }

  method MergeCanonicalKeys(ls: seq<Line>, values: seq<string>) returns (text: string)
    requires |values| == 3
    ensures exists m :: Merged(ls, values, m) && text == Join(m)
  {
    hide Within, Edited, KeyText, Written, MissingFrom, NoSection;
    var eol := DefaultEol(ls);
    var at := FindSection(ls);
    var out := ls;
    if at.Some? {
      var e, written;
      out, e, written := EditSection(ls, at.value, values);
      assert Within(ls, at.value, e) by { WithinBy(ls, at.value, e); }
      EditedOutside(ls, at.value, e, values);
      var missing := MissingLines(written, values, eol);
      out := out[..e] + missing + out[e..];
      assert MergedIn(ls, at.value, e, values, out);
    } else {
      var missing := MissingLines([false, false, false], values, eol);
      if out != [] && out[|out| - 1].eol == "" {
        out := out[|out| - 1 := Line(out[|out| - 1].text, eol)];
      }
      out := out + [Line(HEADER, eol)];
      out := out + missing;
    }
    assert Merged(ls, values, out);
    text := JoinLines(out);
  }

  method MissingLines(written: seq<bool>, values: seq<string>, eol: string) returns (missing: seq<Line>)
    requires |written| == 3 && |values| == 3
    ensures missing == MissingFrom(0, written, values, eol)
  {
    hide KeyLine, MissingFrom;
    missing := [];
    assert [] + MissingFrom(0, written, values, eol) == MissingFrom(0, written, values, eol);
    for k := 0 to 3
      invariant missing + MissingFrom(k, written, values, eol) == MissingFrom(0, written, values, eol)
    {
      MissingStep(k, written, values, eol, missing);
      if !written[k] {
        missing := missing + [KeyLine(k, values, eol)];
      }
    }
    NoneMissing(written, values, eol);
    assert missing + [] == missing;
  }

  lemma NoneMissing(written: seq<bool>, values: seq<string>, eol: string)
    requires |written| == 3 && |values| == 3
    ensures MissingFrom(3, written, values, eol) == []
  {
  }

  lemma MissingStep(k: nat, written: seq<bool>, values: seq<string>, eol: string, before: seq<Line>)
    requires k < 3 && |written| == 3 && |values| == 3
    ensures before + MissingFrom(k, written, values, eol)
         == (if written[k] then before else before + [KeyLine(k, values, eol)])
             + MissingFrom(k + 1, written, values, eol)
  {
    hide KeyLine;
  }

  lemma WithinBy(ls: seq<Line>, s: nat, e: nat)
    requires s < e <= |ls| && Opens(ls[s]) && (forall i :: 0 <= i < s ==> !Opens(ls[i]))
    requires (forall i :: s < i < e ==> !IsHeader(ls[i])) && (e < |ls| ==> IsHeader(ls[e]))
    ensures Within(ls, s, e)
  {
  }

  lemma EditedOutside(ls: seq<Line>, s: nat, e: nat, values: seq<string>)
    requires |values| == 3 && s < e <= |ls|
    ensures |Edited(ls, s, e, values)| == |ls| && Edited(ls, s, e, values)[e..] == ls[e..]
  {
  }
}
