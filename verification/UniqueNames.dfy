/** Case-insensitively unique display names: `EnsureUniqueName` of `internal/network/session.go`. */
module UniqueNames {
  import opened Basics
  import opened Sessions

  const NAME_MAX: nat := 31
  const DEFAULT_NAME := "Stalker"

  /** What the proofs need of the library's case folding: it works byte run by byte run, and digits have no case. */
  ghost predicate Folds(lower: string -> string) {
    forall a: string, n: nat :: lower(a + Suffix(n)) == lower(a) + Suffix(n)
  }

  function Digits(n: nat): (r: string)
    ensures r != "" && (|r| == 1 <==> n < 10)
  {
    (if n < 10 then "" else Digits(n / 10)) + [('0' as int + n % 10) as char]
  }

  function Suffix(n: nat): string {
    "~" + Digits(n)
  }

  /** At most `max` bytes, ending on a whole character. */
  function Truncate(s: string, max: int, valid: string -> bool): (r: string)
    ensures r <= s
    ensures max <= 0 ==> r == ""
    ensures max > 0 ==> |r| <= max && (|s| <= max ==> r == s)
  {
    if max <= 0 then "" else if |s| <= max then s else WholePrefix(s[..max], valid)
  }

  /** The longest valid prefix. */
  function WholePrefix(s: string, valid: string -> bool): (r: string)
    ensures r <= s && (r == "" || valid(r))
    ensures forall k :: |r| < k <= |s| ==> !valid(s[..k])
  {
    if s == "" || valid(s) then
      assert s[..|s|] == s;
      s
    else
      var t := s[..|s| - 1];
      assert s[..|s|] == s && forall k :: 0 <= k < |s| ==> s[..k] == t[..k];
      WholePrefix(t, valid)
  }

  function Candidate(base: string, n: nat, valid: string -> bool): string {
    Truncate(base, NAME_MAX - |Suffix(n)|, valid) + Suffix(n)
  }

  function Base(name: string): string {
    if name == "" then DEFAULT_NAME else name
  }

  // ---- Different numbers give different names ----

  lemma {:induction false} DigitsPlain(n: nat, i: nat)
    requires i < |Digits(n)|
    ensures '0' <= Digits(n)[i] <= '9'
  {
    if n >= 10 && i < |Digits(n / 10)| {
      DigitsPlain(n / 10, i);
    }
  }

  lemma {:induction false} DigitsInjective(m: nat, n: nat)
    requires Digits(m) == Digits(n)
    ensures m == n
  {
    var a, b := Digits(m), Digits(n);
    assert a[|a| - 1] == b[|b| - 1];
    if m >= 10 {
      assert Digits(m / 10) == a[..|a| - 1] == b[..|b| - 1] == Digits(n / 10);
      DigitsInjective(m / 10, n / 10);
    }
  }

  /** The text after the last '~' gives the number away. */
  lemma CandidatesDiffer(a: string, b: string, m: nat, n: nat)
    requires a + Suffix(m) == b + Suffix(n)
    ensures m == n
  {
    var s := a + Suffix(m);
    if |Digits(m)| < |Digits(n)| {
      assert s[|a|] == '~' && s[|a|] == Digits(n)[|a| - |b| - 1];
      DigitsPlain(n, |a| - |b| - 1);
    } else if |Digits(m)| > |Digits(n)| {
      assert s[|b|] == '~' && s[|b|] == Digits(m)[|b| - |a| - 1];
      DigitsPlain(m, |b| - |a| - 1);
    } else {
      assert Digits(m) == s[|a| + 1..] == s[|b| + 1..] == Digits(n);
      DigitsInjective(m, n);
    }
  }

  lemma CandidateFolds(lower: string -> string, base: string, m: nat, n: nat, valid: string -> bool)
    requires Folds(lower) && lower(Candidate(base, m, valid)) == lower(Candidate(base, n, valid))
    ensures m == n
  {
    var a, b := Truncate(base, NAME_MAX - |Suffix(m)|, valid), Truncate(base, NAME_MAX - |Suffix(n)|, valid);
    CandidatesDiffer(lower(a), lower(b), m, n);
  }

  /** The number that a string of digits writes, most significant first. */
  function Value(digits: string): int {
    if digits == "" then 0 else 10 * Value(digits[..|digits| - 1]) + (digits[|digits| - 1] as int - 48)
  }

  /** The digits are decimal, write the number, and begin with 0 only for zero. */
  lemma {:induction false} DigitsWrite(n: nat)
    ensures var d := Digits(n);
      Value(d) == n && (forall i :: 0 <= i < |d| ==> '0' <= d[i] <= '9') && (n > 0 ==> d[0] != '0')
  {
    var d := Digits(n);
    assert d[..|d| - 1] == if n < 10 then "" else Digits(n / 10);
    if n >= 10 {
      DigitsWrite(n / 10);
    }
  }

  /** What a name is cut to: whole if it fits, else the longest valid piece that does. */
  ghost predicate CutTo(base: string, room: int, valid: string -> bool, k: int) {
    && 0 <= k <= |base|
    && if |base| <= room then k == |base|
       else k <= room && (k == 0 || valid(base[..k])) && forall m :: k < m <= room ==> !valid(base[..m])
  }

  /** A candidate is the cut name, '~' and the number, in 31 bytes. */
  lemma CandidateForm(base: string, n: nat, valid: string -> bool)
    requires n < Pow10(30)
    ensures var c, d := Candidate(base, n, valid), Digits(n);
      |c| <= 31 && exists k :: CutTo(base, 30 - |d|, valid, k) && c == base[..k] + ("~" + d)
  {
    hide Pow10, Digits;
    CandidateFits(base, n, valid);
    DigitsLength(n, 30);
    var room := 30 - |Digits(n)|;
    var t := Truncate(base, room, valid);
    var k := |t|;
    assert t == base[..k];
    if |base| > room {
      var cut := base[..room];
      assert t == if room == 0 then "" else WholePrefix(cut, valid);
      forall m | k < m <= room
        ensures !valid(base[..m])
      {
        assert cut[..m] == base[..m];
      }
    }
    assert CutTo(base, room, valid, k);
  }

  function Pow10(k: nat): nat {
    if k == 0 then 1 else 10 * Pow10(k - 1)
  }

  lemma {:induction false} DigitsLength(n: nat, k: nat)
    requires k >= 1 && n < Pow10(k)
    ensures |Digits(n)| <= k
  {
    if n >= 10 {
      DigitsLength(n / 10, k - 1);
    }
  }

  /** As long as the number has at most 30 digits the name fits its wire field. */
  lemma CandidateFits(base: string, n: nat, valid: string -> bool)
    requires n < Pow10(NAME_MAX - 1)
    ensures |Candidate(base, n, valid)| <= NAME_MAX
  {
    hide Pow10, Digits;
    DigitsLength(n, NAME_MAX - 1);
  }

  // ---- The search ----

  /** The lowered names of the others. */
  ghost function Taken(sessions: Table, s: PlayerSession, lower: string -> string): set<string>
    reads sessions.Values
  {
    set id | id in sessions && sessions[id] != s :: lower(sessions[id].name)
  }

  /** No two sessions outside `but` answer to the same name. */
  ghost predicate Apart(sessions: Table, but: set<PlayerSession>, lower: string -> string)
    reads sessions.Values - but
  {
    forall i, j ::
      i in sessions && j in sessions && sessions[i] !in but && sessions[j] !in but && sessions[i] != sessions[j] ==>
      lower(sessions[i].name) != lower(sessions[j].name)
  }

  /** The first name, in the order base, base~2, base~3, ..., that is free. */
  ghost predicate FirstFree(r: string, base: string, taken: set<string>, lower: string -> string,
      valid: string -> bool) {
    if lower(base) !in taken then r == base
    else exists n: nat :: n >= 2 && r == Candidate(base, n, valid) && lower(r) !in taken
           && forall k: nat :: 2 <= k < n ==> lower(Candidate(base, k, valid)) in taken
  }

  method EnsureUniqueName(sessions: Table, s: PlayerSession, lower: string -> string, valid: string -> bool)
    requires Folds(lower)
    modifies s`name
    ensures var base := if old(s.name) == "" then "Stalker" else old(s.name);
      FirstFree(s.name, base, old(Taken(sessions, s, lower)), lower, valid)
    ensures forall id :: id in sessions && sessions[id] != s ==> lower(sessions[id].name) != lower(s.name)
    ensures Apart(sessions, {s}, lower) ==> Apart(sessions, {}, lower)
    ensures |sessions| + 2 < Pow10(30) ==>
              (|s.name| <= 31
               <==> |Base(old(s.name))| <= 31 || lower(Base(old(s.name))) in old(Taken(sessions, s, lower)))
    ensures |sessions| + 2 < Pow10(30) && |old(s.name)| <= 31 ==> |s.name| <= 31
  {
    hide Folds, Candidate, Pow10, Apart;
    var base := if s.name == "" then DEFAULT_NAME else s.name;
    var taken := TakenNames(sessions, s, lower);
    assert forall id :: id in sessions && sessions[id] != s ==> lower(sessions[id].name) in taken;
    if lower(base) !in taken {
      s.name := base;
    } else {
      var n := FreeNumber(base, taken, lower, valid);
      if |sessions| + 2 < Pow10(30) {
        CandidateFits(base, n, valid);
      }
      s.name := Candidate(base, n, valid);
    }
    NowApart(sessions, s, lower);
  }

  lemma NowApart(sessions: Table, s: PlayerSession, lower: string -> string)
    requires forall id :: id in sessions && sessions[id] != s ==> lower(sessions[id].name) != lower(s.name)
    ensures Apart(sessions, {s}, lower) ==> Apart(sessions, {}, lower)
  {
  }

  /** The loop over the suffixes; it ends because the taken names run out. */
  method FreeNumber(base: string, taken: set<string>, lower: string -> string, valid: string -> bool) returns (n: nat)
    requires Folds(lower)
    ensures 2 <= n <= |taken| + 2 && lower(Candidate(base, n, valid)) !in taken
    ensures forall k: nat :: 2 <= k < n ==> lower(Candidate(base, k, valid)) in taken
  {
    hide Folds, Candidate;
    n := 2;
    while lower(Candidate(base, n, valid)) in taken
      invariant 2 <= n <= |taken| + 2
      invariant forall k: nat :: 2 <= k < n ==> lower(Candidate(base, k, valid)) in taken
      decreases |taken| + 2 - n
    {
      n := n + 1;
      Pigeons(base, n, taken, lower, valid);
    }
  }

  /** Names tried and found taken are as many taken names. */
  lemma {:induction false} Pigeons(base: string, n: nat, taken: set<string>, lower: string -> string,
      valid: string -> bool)
    requires Folds(lower) && n >= 2
    requires forall k: nat :: 2 <= k < n ==> lower(Candidate(base, k, valid)) in taken
    ensures n - 2 <= |taken|
  {
    hide Folds, Candidate;
    if n > 2 {
      var last := lower(Candidate(base, n - 1, valid));
      forall k: nat | 2 <= k < n - 1
        ensures lower(Candidate(base, k, valid)) in taken - {last}
      {
        if lower(Candidate(base, k, valid)) == last {
          CandidateFolds(lower, base, k, n - 1, valid);
        }
      }
      Pigeons(base, n - 1, taken - {last}, lower, valid);
    }
  }

  method TakenNames(sessions: Table, s: PlayerSession, lower: string -> string) returns (taken: set<string>)
    ensures taken == Taken(sessions, s, lower)
    ensures |taken| <= |sessions|
  {
    taken := {};
    var left := sessions.Keys;
    while left != {}
      invariant left <= sessions.Keys
      invariant taken == set id | id in sessions && id !in left && sessions[id] != s :: lower(sessions[id].name)
      invariant |taken| + |left| <= |sessions.Keys|
      decreases left
    {
      ghost var some := SomeMember(left);
      var id :| id in left;
      left := left - {id};
      if sessions[id] != s {
        taken := taken + {lower(sessions[id].name)};
      }
    }
    assert |sessions.Keys| == |sessions|;
  }
}
