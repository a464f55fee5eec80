/** The JavaScript string and array operations the application relies on, stated over
    `seq<char>`: `trim`, `split` on one character, `join`, `toLowerCase`/`toUpperCase`
    (ASCII letters only), `startsWith`, substring search, `filter` and `slice`. */
module Text {

  /* ---------------------------------------------------------------------------------
     Whitespace and trim
     --------------------------------------------------------------------------------- */

  /** The code points `String.prototype.trim` strips: the ECMAScript WhiteSpace and
      LineTerminator productions. */
  predicate IsSpace(c: char) {
    || c == ' ' || c == '\t' || c == '\n' || c == '\U{000B}' || c == '\U{000C}' || c == '\r'
    || c == '\U{00A0}' || c == '\U{1680}' || ('\U{2000}' <= c <= '\U{200A}')
    || c == '\U{2028}' || c == '\U{2029}' || c == '\U{202F}' || c == '\U{205F}'
    || c == '\U{3000}' || c == '\U{FEFF}'
  }

  predicate AllSpace(s: string) {
    forall i :: 0 <= i < |s| ==> IsSpace(s[i])
  }

  /** Neither end of `s` is whitespace. */
  predicate IsTrimmed(s: string) {
    s == [] || (!IsSpace(s[0]) && !IsSpace(s[|s| - 1]))
  }

  /** The index of the first non-whitespace character at or after `i`, or `|s|`. */
  function SkipSpaces(s: string, i: nat): (j: nat)
    requires i <= |s|
    ensures i <= j <= |s|
    ensures forall k :: i <= k < j ==> IsSpace(s[k])
    ensures j < |s| ==> !IsSpace(s[j])
    decreases |s| - i
  {
    if i < |s| && IsSpace(s[i]) then SkipSpaces(s, i + 1) else i
  }

  /** The index just past the last non-whitespace character in `s[lo..hi]`, or `lo`. */
  function BackSpaces(s: string, lo: nat, hi: nat): (j: nat)
    requires lo <= hi <= |s|
    ensures lo <= j <= hi
    ensures forall k :: j <= k < hi ==> IsSpace(s[k])
    ensures lo < j ==> !IsSpace(s[j - 1])
    decreases hi - lo
  {
    if lo < hi && IsSpace(s[hi - 1]) then BackSpaces(s, lo, hi - 1) else hi
  }

  /** `s.trim()`: the result has no whitespace at either end, keeps only characters of `s`,
      and is empty exactly when `s` is all whitespace; TrimUnique pins it down fully. */
  function Trim(s: string): (r: string)
    ensures IsTrimmed(r)
    ensures |r| <= |s| && multiset(r) <= multiset(s)
    ensures r == [] <==> AllSpace(s)
  {
    var i := SkipSpaces(s, 0);
    var j := BackSpaces(s, i, |s|);
    CoreOfSpaces(s, i, j);
    s[i..j]
  }

  /** The facts `Trim` states, for a core `s[i..j]` framed by whitespace. */
  lemma CoreOfSpaces(s: string, i: nat, j: nat)
    requires i <= j <= |s|
    requires forall k :: 0 <= k < i ==> IsSpace(s[k])
    requires forall k :: j <= k < |s| ==> IsSpace(s[k])
    requires i < |s| ==> !IsSpace(s[i])
    requires i < j ==> !IsSpace(s[j - 1])
    ensures IsTrimmed(s[i..j])
    ensures multiset(s[i..j]) <= multiset(s)
    ensures s[i..j] == [] <==> AllSpace(s)
  {
    calc {
      multiset(s);
      { assert s == s[..i] + s[i..j] + s[j..]; }
      multiset(s[..i] + s[i..j] + s[j..]);
      multiset(s[..i]) + multiset(s[i..j]) + multiset(s[j..]);
    }
    if i < j {
      assert s[i..j][0] == s[i];
      assert s[i..j][j - i - 1] == s[j - 1];
    }
  }

  /** Trim removes exactly a whitespace prefix and a whitespace suffix: `s` is recovered by
      putting them back around the result. */
  lemma TrimIsInfix(s: string)
    ensures var i := SkipSpaces(s, 0);
            && i + |Trim(s)| <= |s| && s[i..i + |Trim(s)|] == Trim(s)
            && (forall k :: 0 <= k < i ==> IsSpace(s[k]))
            && (forall k :: i + |Trim(s)| <= k < |s| ==> IsSpace(s[k]))
  {
  }

  /** Any split of `s` into whitespace, a trimmed core and whitespace has `Trim(s)` as its
      core: trim is determined by that shape alone. */
  lemma TrimUnique(s: string, i: nat, j: nat)
    requires i <= j <= |s|
    requires forall k :: 0 <= k < i ==> IsSpace(s[k])
    requires forall k :: j <= k < |s| ==> IsSpace(s[k])
    requires i < j ==> !IsSpace(s[i]) && !IsSpace(s[j - 1])
    ensures Trim(s) == s[i..j]
  {
    if i < j {
      SkipSpacesStops(s, 0, i);
      BackSpacesStops(s, i, |s|, j);
    } else {
      assert AllSpace(s);
    }
  }

  /** Skipping from `m` stops at the first non-whitespace position `i` when everything
      between is whitespace. */
  lemma {:induction false} SkipSpacesStops(s: string, m: nat, i: nat)
    requires m <= i < |s| && !IsSpace(s[i])
    requires forall k :: m <= k < i ==> IsSpace(s[k])
    ensures SkipSpaces(s, m) == i
    decreases i - m
  {
    if m < i {
      SkipSpacesStops(s, m + 1, i);
    }
  }

  /** Backing up from `hi` stops just past the last non-whitespace position before it. */
  lemma {:induction false} BackSpacesStops(s: string, lo: nat, hi: nat, j: nat)
    requires lo < j <= hi <= |s| && !IsSpace(s[j - 1])
    requires forall k :: j <= k < hi ==> IsSpace(s[k])
    ensures BackSpaces(s, lo, hi) == j
    decreases hi - j
  {
    if j < hi {
      BackSpacesStops(s, lo, hi - 1, j);
    }
  }

  /** Trimming twice is trimming once. */
  lemma TrimIdempotent(s: string)
    ensures Trim(Trim(s)) == Trim(s)
  {
    var r := Trim(s);
    TrimUnique(r, 0, |r|);
    assert r[0..|r|] == r;
  }

  /* ---------------------------------------------------------------------------------
     ASCII case mapping
     --------------------------------------------------------------------------------- */

  predicate IsUpperAscii(c: char) { 'A' <= c <= 'Z' }

  predicate IsLowerAscii(c: char) { 'a' <= c <= 'z' }

  function LowerChar(c: char): char {
    if IsUpperAscii(c) then (c as int + 32) as char else c
  }

  function UpperChar(c: char): char {
    if IsLowerAscii(c) then (c as int - 32) as char else c
  }

  /** The two characters differ at most in the case of an ASCII letter. */
  predicate SameIgnoringCase(a: char, b: char) {
    LowerChar(a) == LowerChar(b)
  }

  /** `s.toLowerCase()` on ASCII letters: same length, same characters up to case, and no
      upper-case ASCII letter left. */
  function Lower(s: string): (r: string)
    ensures |r| == |s|
    ensures forall i :: 0 <= i < |s| ==> SameIgnoringCase(r[i], s[i]) && !IsUpperAscii(r[i])
  {
    seq(|s|, i requires 0 <= i < |s| => LowerChar(s[i]))
  }

  /** `s.toUpperCase()` on ASCII letters: same length, same characters up to case, and no
      lower-case ASCII letter left. */
  function Upper(s: string): (r: string)
    ensures |r| == |s|
    ensures forall i :: 0 <= i < |s| ==> SameIgnoringCase(r[i], s[i]) && !IsLowerAscii(r[i])
  {
    seq(|s|, i requires 0 <= i < |s| => UpperChar(s[i]))
  }

  /** A string with no upper-case ASCII letter is its own lower-case form. */
  lemma LowerOfLower(s: string)
    requires forall i :: 0 <= i < |s| ==> !IsUpperAscii(s[i])
    ensures Lower(s) == s
  {
  }

  lemma LowerIdempotent(s: string)
    ensures Lower(Lower(s)) == Lower(s)
  {
    LowerOfLower(Lower(s));
  }

  lemma LowerAppend(a: string, b: string)
    ensures Lower(a + b) == Lower(a) + Lower(b)
  {
  }

  /* ---------------------------------------------------------------------------------
     Prefix and substring
     --------------------------------------------------------------------------------- */

  /** `s.startsWith(p)`. */
  predicate StartsWith(s: string, p: string) {
    |p| <= |s| && s[..|p|] == p
  }

  /** `s.endsWith(p)`. */
  predicate EndsWith(s: string, p: string) {
    |p| <= |s| && s[|s| - |p|..] == p
  }

  /** `s` starts with `p` up to the case of ASCII letters. */
  predicate StartsWithIgnoringCase(s: string, p: string) {
    |p| <= |s| && forall i :: 0 <= i < |p| ==> SameIgnoringCase(s[i], p[i])
  }

  /** Testing the upper-cased text against a prefix without lower-case letters is a
      case-insensitive prefix test. */
  lemma UpperStartsWith(s: string, p: string)
    requires forall i :: 0 <= i < |p| ==> !IsLowerAscii(p[i])
    ensures StartsWith(Upper(s), p) <==> StartsWithIgnoringCase(s, p)
  {
    var u := Upper(s);
    if StartsWithIgnoringCase(s, p) {
      forall i | 0 <= i < |p|
        ensures u[i] == p[i]
      {
        assert SameIgnoringCase(u[i], s[i]);
        SameCaseInjective(u[i], p[i]);
      }
      assert u[..|p|] == p;
    }
    if StartsWith(u, p) {
      forall i | 0 <= i < |p|
        ensures SameIgnoringCase(s[i], p[i])
      {
        assert u[..|p|][i] == u[i];
        assert SameIgnoringCase(u[i], s[i]);
      }
    }
  }

  /** Two characters without lower-case ASCII letters that agree up to case are equal. */
  lemma SameCaseInjective(a: char, b: char)
    requires !IsLowerAscii(a) && !IsLowerAscii(b) && SameIgnoringCase(a, b)
    ensures a == b
  {
  }

  /** `s` contains `w` as a contiguous substring (what a regular expression made of the
      literal `w` tests). */
  predicate Contains(s: string, w: string) {
    exists i :: 0 <= i <= |s| && StartsWith(s[i..], w)
  }

  /** Some word of `words` occurs in `s` (what a regular expression `w1|w2|…` of literal
      alternatives tests). */
  function ContainsAny(s: string, words: seq<string>): (found: bool)
    ensures found <==> exists k :: 0 <= k < |words| && Contains(s, words[k])
  {
    if |words| == 0 then false
    else Contains(s, words[0]) || ContainsAny(s, words[1..])
  }

  /** A substring is still there after more text is put on either side. */
  lemma ContainsExtend(a: string, s: string, b: string, w: string)
    requires Contains(s, w)
    ensures Contains(a + s + b, w)
  {
    var i :| 0 <= i <= |s| && StartsWith(s[i..], w);
    assert (a + s + b)[|a| + i..][..|w|] == s[i..][..|w|];
  }

  /* ---------------------------------------------------------------------------------
     Split and join
     --------------------------------------------------------------------------------- */

  /** `parts.join(sep)`: the empty array joins to the empty string. */
  function Join(parts: seq<string>, sep: string): (r: string)
    ensures |parts| == 0 ==> r == []
    ensures |parts| == 1 ==> r == parts[0]
  {
    if |parts| == 0 then []
    else if |parts| == 1 then parts[0]
    else parts[0] + sep + Join(parts[1..], sep)
  }

  /** The joined string starts with the first part, followed by the separator when there is
      more than one part, and ends with the last part. */
  lemma {:induction false} JoinEnds(parts: seq<string>, sep: string)
    requires |parts| >= 1
    ensures StartsWith(Join(parts, sep), parts[0])
    ensures EndsWith(Join(parts, sep), parts[|parts| - 1])
    ensures |parts| >= 2 ==> StartsWith(Join(parts, sep)[|parts[0]|..], sep)
  {
    if |parts| >= 2 {
      var rest := Join(parts[1..], sep);
      JoinEnds(parts[1..], sep);
      assert Join(parts, sep) == parts[0] + sep + rest;
      assert parts[1..][|parts[1..]| - 1] == parts[|parts| - 1];
    }
  }

  /** Joining two non-empty lists is joining each and putting one separator between. */
  lemma {:induction false} JoinAppend(a: seq<string>, b: seq<string>, sep: string)
    requires |a| >= 1 && |b| >= 1
    ensures Join(a + b, sep) == Join(a, sep) + sep + Join(b, sep)
  {
    if |a| > 1 {
      assert (a + b)[1..] == a[1..] + b;
      JoinAppend(a[1..], b, sep);
    } else {
      assert (a + b)[1..] == b;
    }
  }

  /** Position of the first occurrence of `c` in `s`. */
  function IndexOf(s: string, c: char): (k: nat)
    requires c in s
    ensures k < |s| && s[k] == c && c !in s[..k]
  {
    if s[0] == c then 0 else 1 + IndexOf(s[1..], c)
  }

  /** `s.split(sep)` for a one-character separator: never empty, no part holds the
      separator, and joining the parts back with the separator gives `s`. */
  function Split(s: string, sep: char): (parts: seq<string>)
    ensures |parts| >= 1
    ensures forall i :: 0 <= i < |parts| ==> sep !in parts[i]
    ensures Join(parts, [sep]) == s
    decreases |s|
  {
    if sep !in s then [s]
    else
      var k := IndexOf(s, sep);
      var rest := Split(s[k + 1..], sep);
      var parts := [s[..k]] + rest;
      assert parts[1..] == rest;
      assert s == s[..k] + [sep] + s[k + 1..];
      parts
  }

  /** Joining with a one-character separator that no part contains, then splitting on it,
      gives the parts back. */
  lemma {:induction false} SplitJoin(parts: seq<string>, sep: char)
    requires |parts| >= 1
    requires forall i :: 0 <= i < |parts| ==> sep !in parts[i]
    ensures Split(Join(parts, [sep]), sep) == parts
  {
    if |parts| > 1 {
      var p, tail := parts[0], Join(parts[1..], [sep]);
      var s := p + [sep] + tail;
      assert Join(parts, [sep]) == s;
      assert Split(s, sep) == [p] + Split(tail, sep) by {
        assert s[..|p|] == p && s[|p| + 1..] == tail && s[|p|] == sep;
        SplitAtFirst(s, sep, |p|);
      }
      assert Split(tail, sep) == parts[1..] by {
        SplitJoin(parts[1..], sep);
      }
      assert parts == [p] + parts[1..];
    }
  }

  /** Splitting cuts at the first separator and splits the rest. */
  lemma SplitAtFirst(s: string, sep: char, k: nat)
    requires k < |s| && s[k] == sep && sep !in s[..k]
    ensures Split(s, sep) == [s[..k]] + Split(s[k + 1..], sep)
  {
    IndexOfFirst(s, sep, k);
  }

  /** The first occurrence is the one IndexOf finds. */
  lemma {:induction false} IndexOfFirst(s: string, c: char, k: nat)
    requires k < |s| && s[k] == c && c !in s[..k]
    ensures IndexOf(s, c) == k
  {
    if k > 0 {
      assert s[0] == s[..k][0];
      assert s[1..][..k - 1] == s[..k][1..];
      IndexOfFirst(s[1..], c, k - 1);
    }
  }

  /* ---------------------------------------------------------------------------------
     Array helpers
     --------------------------------------------------------------------------------- */

  /** `xs.filter(keep)`: order kept, only elements that pass, every passing element kept. */
  function Filter<T>(xs: seq<T>, keep: T -> bool): (r: seq<T>)
    ensures |r| <= |xs|
    ensures forall i :: 0 <= i < |r| ==> keep(r[i])
    ensures forall i :: 0 <= i < |r| ==> r[i] in xs
    ensures forall i :: 0 <= i < |xs| && keep(xs[i]) ==> xs[i] in r
  {
    if |xs| == 0 then []
    else if keep(xs[0]) then [xs[0]] + Filter(xs[1..], keep)
    else Filter(xs[1..], keep)
  }

  /** Filtering distributes over concatenation, so relative order is kept. */
  lemma {:induction false} FilterAppend<T>(a: seq<T>, b: seq<T>, keep: T -> bool)
    ensures Filter(a + b, keep) == Filter(a, keep) + Filter(b, keep)
  {
    if |a| > 0 {
      assert (a + b)[1..] == a[1..] + b;
      FilterAppend(a[1..], b, keep);
    } else {
      assert a + b == b;
    }
  }

  /** `xs.slice(lo, hi)` for non-negative bounds: bounds past the end are clamped. */
  function Slice<T>(xs: seq<T>, lo: nat, hi: nat): (r: seq<T>)
    ensures hi <= lo ==> r == []
    ensures lo <= hi && lo <= |xs| ==>
              && |r| == (if |xs| - lo < hi - lo then |xs| - lo else hi - lo)
              && r == xs[lo..lo + |r|]
  {
    var l := if lo < |xs| then lo else |xs|;
    var h := if hi < |xs| then hi else |xs|;
    if l <= h then xs[l..h] else []
  }

  /** Every element trimmed, in order. */
  function TrimAll(parts: seq<string>): (ts: seq<string>)
    ensures |ts| == |parts| && forall i :: 0 <= i < |parts| ==> ts[i] == Trim(parts[i])
  {
    seq(|parts|, i requires 0 <= i < |parts| => Trim(parts[i]))
  }

  /** `xs.slice(-k)` for `k > 0`: the last `min(k, |xs|)` elements. */
  function TakeLast<T>(xs: seq<T>, k: nat): (r: seq<T>)
    requires k > 0
    ensures |r| == if |xs| < k then |xs| else k
    ensures r == xs[|xs| - |r|..]
  {
    if |xs| <= k then xs else xs[|xs| - k..]
  }
}
