/** Six-digit user ids: drawing one that is not yet in the reserved set, and reserving one.

    The reserved set is read from and written back to storage in the program; here it is a
    parameter and a result. The random numbers and the clock are parameters too: `draws`
    holds the successive values of `Math.floor(Math.random() * 1_000_000)`, `now` the value
    of `Date.now()`. */
module Uid {

  /** The number of distinct ids, and their width in digits. */
  const Space: nat := 1_000_000
  const Width: nat := 6

  predicate IsDigit(c: char) {
    '0' <= c <= '9'
  }

  predicate AllDigits(s: string) {
    forall i :: 0 <= i < |s| ==> IsDigit(s[i])
  }

  /** A well-formed id: exactly six decimal digits. */
  predicate IsUid(s: string) {
    |s| == Width && AllDigits(s)
  }

  function DigitChar(d: nat): (c: char)
    requires d < 10
    ensures IsDigit(c) && c as int - '0' as int == d
  {
    ('0' as int + d) as char
  }

  function DigitValue(c: char): (d: nat)
    requires IsDigit(c)
    ensures d < 10 && DigitChar(d) == c
  {
    c as int - '0' as int
  }

  /** The number a digit string denotes, most significant digit first. */
  function Value(s: string): (n: nat)
    requires AllDigits(s)
  {
    if s == [] then 0 else Value(s[..|s| - 1]) * 10 + DigitValue(s[|s| - 1])
  }

  function Pow10(k: nat): (p: nat)
    ensures p >= 1
  {
    if k == 0 then 1 else 10 * Pow10(k - 1)
  }

  /** `String(n)`: the decimal digits of n without leading zeros ("0" for zero). */
  function Digits(n: nat): (s: string)
    ensures |s| >= 1 && AllDigits(s)
    ensures Value(s) == n
    decreases n
  {
    if n < 10 then [DigitChar(n)]
    else
      var s := Digits(n / 10) + [DigitChar(n % 10)];
      assert s[..|s| - 1] == Digits(n / 10);
      s
  }

  /** `String(n)` has no leading zero unless it is "0" itself. */
  lemma {:induction false} DigitsNoLeadingZero(n: nat)
    ensures Digits(n)[0] != '0' || n == 0
    decreases n
  {
    if n >= 10 {
      DigitsNoLeadingZero(n / 10);
      assert Digits(n)[0] == Digits(n / 10)[0];
    }
  }

  /** `s.padStart(width, fill)` for a one-character fill. */
  function PadStart(s: string, width: nat, fill: char): (r: string)
    ensures |r| == if |s| >= width then |s| else width
    ensures r[|r| - |s|..] == s
    ensures forall i :: 0 <= i < |r| - |s| ==> r[i] == fill
  {
    if |s| >= width then s else seq(width - |s|, _ => fill) + s
  }

  /** `String(n).padStart(6, "0")`. */
  function Pad6(n: nat): (s: string)
    requires n < Space
    ensures IsUid(s)
  {
    DigitsLength(n, Width);
    PadStart(Digits(n), Width, '0')
  }

  /** The padded id denotes the number it was made from. */
  lemma Pad6Value(n: nat)
    requires n < Space
    ensures Value(Pad6(n)) == n
  {
    var d := Digits(n);
    DigitsLength(n, Width);
    var s := PadStart(d, Width, '0');
    ZerosDoNotCount(s, |s| - |d|);
  }

  /* ---------------------------------------------------------------------------------
     Digit strings
     --------------------------------------------------------------------------------- */

  /** A number below 10^k has at most k digits. */
  lemma {:induction false} DigitsLength(n: nat, k: nat)
    requires k >= 1 && n < Pow10(k)
    ensures |Digits(n)| <= k
    decreases n
  {
    if n >= 10 {
      DigitsLength(n / 10, k - 1);
    }
  }

  /** Leading zeros do not change a digit string's value. */
  lemma {:induction false} ZerosDoNotCount(s: string, z: nat)
    requires AllDigits(s) && z <= |s|
    requires forall i :: 0 <= i < z ==> s[i] == '0'
    ensures Value(s) == Value(s[z..])
    decreases |s|
  {
    if |s| == z {
      AllZerosValue(s);
    } else {
      var p := s[..|s| - 1];
      ZerosDoNotCount(p, z);
      assert p[z..] == s[z..][..|s[z..]| - 1];
    }
  }

  lemma {:induction false} AllZerosValue(s: string)
    requires forall i :: 0 <= i < |s| ==> s[i] == '0'
    ensures AllDigits(s) && Value(s) == 0
    decreases |s|
  {
    if s != [] {
      AllZerosValue(s[..|s| - 1]);
    }
  }

  /** A k-digit string denotes a number below 10^k. */
  lemma {:induction false} ValueBound(s: string)
    requires AllDigits(s)
    ensures Value(s) < Pow10(|s|)
    decreases |s|
  {
    if s != [] {
      ValueBound(s[..|s| - 1]);
    }
  }

  /** Two digit strings of one length with the same value are the same string. */
  lemma {:induction false} ValueInjective(s: string, t: string)
    requires AllDigits(s) && AllDigits(t) && |s| == |t|
    requires Value(s) == Value(t)
    ensures s == t
    decreases |s|
  {
    if s != [] {
      var ps, pt := s[..|s| - 1], t[..|t| - 1];
      var ds, dt := DigitValue(s[|s| - 1]), DigitValue(t[|t| - 1]);
      assert Value(ps) * 10 + ds == Value(pt) * 10 + dt;
      assert ds == dt && Value(ps) == Value(pt) by {
        DivideByTen(Value(ps), ds, Value(pt), dt);
      }
      ValueInjective(ps, pt);
      assert s == ps + [s[|s| - 1]] && t == pt + [t[|t| - 1]];
    }
  }

  lemma DivideByTen(a: nat, x: nat, b: nat, y: nat)
    requires x < 10 && y < 10 && a * 10 + x == b * 10 + y
    ensures a == b && x == y
  {
  }

  /** Padding is a bijection between the numbers below a million and the six-digit strings:
      distinct numbers give distinct ids, and every id is the padding of its value. */
  lemma Pad6Bijective(a: nat, b: nat, s: string)
    requires a < Space && b < Space && IsUid(s)
    ensures Pad6(a) == Pad6(b) <==> a == b
    ensures Value(s) < Space && Pad6(Value(s)) == s
  {
    Pad6Value(a);
    Pad6Value(b);
    ValueBound(s);
    assert Pow10(Width) == Space;
    Pad6Value(Value(s));
    ValueInjective(Pad6(Value(s)), s);
  }

  /* ---------------------------------------------------------------------------------
     Generating and reserving
     --------------------------------------------------------------------------------- */

  datatype Generated = Generated(uid: string, used: nat, fallback: bool)

  /** Every draw is a possible value of `Math.floor(Math.random() * 1_000_000)`. */
  predicate Draws(draws: seq<nat>) {
    forall j :: 0 <= j < |draws| ==> draws[j] < Space
  }

  /** The id each draw gives. */
  function Candidates(draws: seq<nat>): (ids: seq<string>)
    requires Draws(draws)
    ensures |ids| == |draws| && forall j :: 0 <= j < |draws| ==> ids[j] == Pad6(draws[j])
  {
    seq(|draws|, j requires 0 <= j < |draws| => Pad6(draws[j]))
  }

  /** The candidate ids at attempts `lo` up to `hi` are all reserved already. */
  predicate AllTaken(uids: set<string>, ids: seq<string>, lo: nat, hi: int)
    requires hi <= |ids|
  {
    forall j :: lo <= j < hi ==> ids[j] in uids
  }

  /** What `generateUniqueUID(maxAttempts)` returns, from attempt `i` on, given the candidate
      id of each attempt: the first candidate not in `uids`, or after `maxAttempts` attempts
      the id from the clock's last six digits, which is not checked against `uids`. */
  function GenerateFrom(uids: set<string>, maxAttempts: int, ids: seq<string>, now: nat, i: nat): (g: Generated)
    requires i <= |ids| && maxAttempts <= |ids|
    ensures !g.fallback ==> i < g.used <= maxAttempts && g.uid == ids[g.used - 1] && g.uid !in uids
                            && AllTaken(uids, ids, i, g.used - 1)
    ensures g.fallback ==> g.uid == Pad6(now % Space) && g.used == (if i < maxAttempts then maxAttempts else i)
                           && AllTaken(uids, ids, i, maxAttempts)
    decreases maxAttempts - i
  {
    if i < maxAttempts then
      if ids[i] !in uids then Generated(ids[i], i + 1, false)
      else GenerateFrom(uids, maxAttempts, ids, now, i + 1)
    else Generated(Pad6(now % Space), i, true)
  }

  /** `generateUniqueUID(maxAttempts)` with these draws and this clock: a six-digit id that
      is new unless every attempt hit a reserved one. */
  function Generate(uids: set<string>, maxAttempts: int, draws: seq<nat>, now: nat): (g: Generated)
    requires maxAttempts <= |draws| && Draws(draws)
    ensures IsUid(g.uid)
    ensures !g.fallback ==> g.uid !in uids && 0 < g.used <= maxAttempts
    ensures g.fallback ==> forall j :: 0 <= j < maxAttempts ==> Pad6(draws[j]) in uids
  {
    var ids := Candidates(draws);
    var g := GenerateFrom(uids, maxAttempts, ids, now, 0);
    assert g.fallback ==> AllTaken(uids, ids, 0, maxAttempts);
    g
  }

  /** `generateUniqueUID`: returns the id and the reserved set after it was added. */
  method GenerateUniqueUid(uids: set<string>, maxAttempts: int, draws: seq<nat>, now: nat)
    returns (uid: string, reserved: set<string>, used: nat, fallback: bool)
    requires maxAttempts <= |draws| && Draws(draws)
    ensures reserved == uids + {uid}
    ensures !fallback ==> uid !in uids
    ensures Generated(uid, used, fallback) == Generate(uids, maxAttempts, draws, now)
  {
    ghost var ids := Candidates(draws);
    var i: nat := 0;
    while i < maxAttempts
      invariant i <= |draws| && (i <= maxAttempts || i == 0)
      invariant AllTaken(uids, ids, 0, i)
      decreases maxAttempts - i
    {
      var candidate := Pad6(draws[i]);
      if candidate !in uids {
        SkipTaken(uids, maxAttempts, ids, now, 0, i);
        return candidate, uids + {candidate}, i + 1, false;
      }
      i := i + 1;
    }
    SkipTaken(uids, maxAttempts, ids, now, 0, i);
    uid := Pad6(now % Space);
    return uid, uids + {uid}, i, true;
  }

  /** Attempts whose ids are all reserved are passed over. */
  lemma {:induction false} SkipTaken(uids: set<string>, maxAttempts: int, ids: seq<string>, now: nat, i: nat, k: nat)
    requires i <= k <= |ids| && maxAttempts <= |ids|
    requires k <= maxAttempts || k == i
    requires AllTaken(uids, ids, i, k)
    ensures GenerateFrom(uids, maxAttempts, ids, now, i) == GenerateFrom(uids, maxAttempts, ids, now, k)
    decreases k - i
  {
    if i < k {
      assert ids[i] in uids;
      SkipTaken(uids, maxAttempts, ids, now, i + 1, k);
    }
  }

  /** With no id reserved yet, the first draw is taken. */
  lemma FirstDrawWhenNoneReserved(maxAttempts: int, draws: seq<nat>, now: nat)
    requires 1 <= maxAttempts <= |draws|
    requires Draws(draws)
    ensures Generate({}, maxAttempts, draws, now) == Generated(Pad6(draws[0]), 1, false)
  {
  }

  /** The fallback id is not checked against the reserved set, so it can repeat one: with
      "000000" reserved, one attempt that draws 0 and a clock at 1000000 give "000000" again. */
  lemma FallbackCanRepeat(now: nat)
    requires now == Space
    ensures var g := Generate({Pad6(0)}, 1, [0], now);
            g.fallback && g.uid in {Pad6(0)}
  {
  }

  /** `reserveUID`: adds the id when it is not already reserved. */
  function Reserve(uids: set<string>, uid: string): (r: set<string>)
    ensures uid in r
    ensures forall u :: u != uid ==> (u in r <==> u in uids)
  {
    if uid !in uids then uids + {uid} else uids
  }

  /** Reserving twice is reserving once, and reserving a reserved id changes nothing. */
  lemma ReserveIdempotent(uids: set<string>, uid: string)
    ensures Reserve(Reserve(uids, uid), uid) == Reserve(uids, uid)
    ensures uid in uids ==> Reserve(uids, uid) == uids
    ensures |Reserve(uids, uid)| == if uid in uids then |uids| else |uids| + 1
  {
  }

  /** A generated id, once returned, is reserved: reserving it again changes nothing. */
  lemma GeneratedIsReserved(uids: set<string>, uid: string)
    ensures Reserve(uids + {uid}, uid) == uids + {uid}
  {
  }
}
