/** The JavaScript string operations the forms rely on: white space as `trim()` and the
    regular-expression class `\s` see it, `trim()`, `startsWith`, `split(c)[0]`/`split(c)[1]`,
    and the decimal rendering of a number inside a template literal. */
module Strings {

  /** The characters ECMAScript counts as WhiteSpace or LineTerminator: exactly the ones
      `String.prototype.trim` removes and the class `\s` matches. */
  predicate IsSpace(c: char)
  {
    || c == '\t' || c == '\n' || c == '\U{000B}' || c == '\U{000C}' || c == '\r' || c == ' '
    || c == '\U{00A0}' || c == '\U{1680}' || ('\U{2000}' <= c <= '\U{200A}')
    || c == '\U{2028}' || c == '\U{2029}' || c == '\U{202F}' || c == '\U{205F}'
    || c == '\U{3000}' || c == '\U{FEFF}'
  }

  predicate AllSpace(s: string)
  {
    forall k | 0 <= k < |s| :: IsSpace(s[k])
  }

  predicate NoSpace(s: string)
  {
    forall k | 0 <= k < |s| :: !IsSpace(s[k])
  }

  /** Number of white-space characters at the start of `s`. */
  function LeadingSpaces(s: string): (n: nat)
    ensures n <= |s|
    ensures forall k | 0 <= k < n :: IsSpace(s[k])
    ensures n < |s| ==> !IsSpace(s[n])
  {
    if |s| > 0 && IsSpace(s[0]) then 1 + LeadingSpaces(s[1..]) else 0
  }

  /** Number of white-space characters at the end of `s`. */
  function TrailingSpaces(s: string): (n: nat)
    ensures n <= |s|
    ensures forall k | |s| - n <= k < |s| :: IsSpace(s[k])
    ensures n < |s| ==> !IsSpace(s[|s| - 1 - n])
  {
    if |s| > 0 && IsSpace(s[|s| - 1]) then 1 + TrailingSpaces(s[..|s| - 1]) else 0
  }

  /** `s.trim()`: `s` without the white space at either end. What remains neither starts nor
      ends with white space, and it is empty exactly when `s` is all white space. */
  function Trim(s: string): (r: string)
    ensures r == [] || (!IsSpace(r[0]) && !IsSpace(r[|r| - 1]))
    ensures var a := LeadingSpaces(s);
      && a + |r| <= |s|
      && (forall k | 0 <= k < |r| :: r[k] == s[a + k])
      && (forall k | 0 <= k < a :: IsSpace(s[k]))
      && (forall k | a + |r| <= k < |s| :: IsSpace(s[k]))
    ensures r == [] <==> AllSpace(s)
  {
    var a := LeadingSpaces(s);
    var t := s[a..];
    var e := |t| - TrailingSpaces(t);
    var r := t[..e];
    TrimSlice(s, a, t, e, r);
    TrimEnds(s, a, t, e, r);
    TrimEmpty(s, a, r);
    assert r == [] || (!IsSpace(r[0]) && !IsSpace(r[|r| - 1]));
    assert a + |r| <= |s| && (forall k | 0 <= k < |r| :: r[k] == s[a + k]);
    assert r == [] <==> AllSpace(s);
    r
  }

  /** The kept text is the slice of `s` between the leading and the trailing white space. */
  lemma TrimSlice(s: string, a: nat, t: string, e: nat, r: string)
    requires a <= |s| && t == s[a..] && e <= |t| && r == t[..e]
    requires forall k | e <= k < |t| :: IsSpace(t[k])
    ensures a + |r| <= |s| && |r| == e
    ensures forall k | 0 <= k < |r| :: r[k] == s[a + k]
    ensures forall k | a + |r| <= k < |s| :: IsSpace(s[k])
  {
    forall k | 0 <= k < |r| ensures r[k] == s[a + k] {
      assert r[k] == t[k];
    }
    forall k | a + |r| <= k < |s| ensures IsSpace(s[k]) {
      assert s[k] == t[k - a];
    }
  }

  lemma TrimEnds(s: string, a: nat, t: string, e: nat, r: string)
    requires a <= |s| && t == s[a..] && e <= |t| && r == t[..e]
    requires a < |s| ==> !IsSpace(s[a])
    requires e > 0 ==> !IsSpace(t[e - 1])
    ensures r == [] || (!IsSpace(r[0]) && !IsSpace(r[|r| - 1]))
  {
    if r != [] {
      assert r[0] == t[0] == s[a];
      assert r[|r| - 1] == t[e - 1];
    }
  }

  lemma TrimEmpty(s: string, a: nat, r: string)
    requires a + |r| <= |s|
    requires forall k | 0 <= k < a :: IsSpace(s[k])
    requires forall k | a + |r| <= k < |s| :: IsSpace(s[k])
    requires a < |s| ==> !IsSpace(s[a])
    ensures r == [] <==> AllSpace(s)
  {
    if r != [] {
      assert !IsSpace(s[a]);
    }
  }

  /** JavaScript's `!s.trim()`: nothing but white space. */
  predicate IsBlank(s: string)
  {
    Trim(s) == []
  }

  /** Leading white space never changes what `trim()` keeps. */
  lemma TrimAfterSpace(p: string, x: string)
    requires AllSpace(p)
    ensures Trim(p + x) == Trim(x)
  {
    var n := LeadingSpaces(x);
    LeadingSpacesAfter(p, x);
    assert (p + x)[|p| + n..] == x[n..];
  }

  lemma LeadingSpacesAfter(p: string, x: string)
    requires AllSpace(p)
    ensures LeadingSpaces(p + x) == |p| + LeadingSpaces(x)
  {
    var s := p + x;
    var n := LeadingSpaces(x);
    forall k | 0 <= k < |p| + n ensures IsSpace(s[k]) {
      if k < |p| { assert s[k] == p[k]; } else { assert s[k] == x[k - |p|]; }
    }
    assert |p| + n < |s| ==> s[|p| + n] == x[n];
    LeadingSpacesUnique(s, |p| + n);
  }

  lemma LeadingSpacesUnique(s: string, n: nat)
    requires n <= |s|
    requires forall k | 0 <= k < n :: IsSpace(s[k])
    requires n < |s| ==> !IsSpace(s[n])
    ensures LeadingSpaces(s) == n
  {
  }

  /** A string without white space at its ends is its own trim. */
  lemma TrimOfTrimmed(s: string)
    requires s == [] || (!IsSpace(s[0]) && !IsSpace(s[|s| - 1]))
    ensures Trim(s) == s
  {
    assert LeadingSpaces(s) == 0;
    assert s[0..] == s;
  }

  lemma TrimIdempotent(s: string)
    ensures Trim(Trim(s)) == Trim(s)
  {
    TrimOfTrimmed(Trim(s));
  }

  predicate StartsWith(s: string, prefix: string)
  {
    |prefix| <= |s| && s[..|prefix|] == prefix
  }

  /** Position of the first `c` in `s`, or `|s|` when there is none. */
  function IndexOf(s: string, c: char): (i: nat)
    ensures i <= |s|
    ensures i < |s| ==> s[i] == c
    ensures forall k | 0 <= k < i :: s[k] != c
    ensures i == |s| <==> c !in s
  {
    if |s| == 0 then 0 else if s[0] == c then 0 else 1 + IndexOf(s[1..], c)
  }

  /** `s.split(c)[0]`: everything before the first `c`. */
  function TakeUntil(s: string, c: char): (r: string)
    ensures c !in r && StartsWith(s, r)
    ensures c in s ==> |r| < |s| && s[|r|] == c
    ensures c !in s ==> r == s
  {
    s[..IndexOf(s, c)]
  }

  /** Everything after the first `c` (empty when there is none). */
  function DropThrough(s: string, c: char): (r: string)
    ensures c in s ==> s == TakeUntil(s, c) + [c] + r
    ensures c !in s ==> r == []
  {
    var i := IndexOf(s, c);
    if i < |s| then s[i + 1..] else []
  }

  /** `IndexOf` is the only position that is a `c` with no `c` before it (or the end, when none). */
  lemma IndexOfUnique(s: string, c: char, i: nat)
    requires i <= |s| && (i < |s| ==> s[i] == c) && (i == |s| ==> c !in s)
    requires forall k | 0 <= k < i :: s[k] != c
    ensures IndexOf(s, c) == i
  {
  }

  lemma IndexOfAfter(p: string, x: string, c: char)
    requires c !in p
    ensures IndexOf(p + x, c) == |p| + IndexOf(x, c)
  {
    var j := IndexOf(x, c);
    forall k | 0 <= k < |p| + j ensures (p + x)[k] != c {
      if k < |p| { assert (p + x)[k] == p[k]; } else { assert (p + x)[k] == x[k - |p|]; }
    }
    if j == |x| {
      forall k | 0 <= k < |p + x| ensures (p + x)[k] != c {
        if k < |p| { assert (p + x)[k] == p[k]; } else { assert (p + x)[k] == x[k - |p|]; }
      }
    } else {
      assert (p + x)[|p| + j] == x[j];
    }
    IndexOfUnique(p + x, c, |p| + j);
  }

  /** Text before the first `c` of `p + x`, when `p` holds no `c`, is `p` followed by that of `x`. */
  lemma TakeUntilAfter(p: string, x: string, c: char)
    requires c !in p
    ensures TakeUntil(p + x, c) == p + TakeUntil(x, c)
  {
    IndexOfAfter(p, x, c);
  }

  /** Splitting `p + [c] + x` at its first `c`, when `p` holds none, gives `x` after it. */
  lemma DropThroughFirst(p: string, x: string, c: char)
    requires c !in p
    ensures c in p + [c] + x && DropThrough(p + [c] + x, c) == x
  {
    var s := p + [c] + x;
    assert s == p + ([c] + x);
    IndexOfAfter(p, [c] + x, c);
    assert IndexOf([c] + x, c) == 0;
    assert s[|p|] == c;
    assert s[|p| + 1..] == x;
  }

  /** Text before the first `c` of `p + [c] + x`, when `p` holds none, is `p`. */
  lemma TakeUntilFirst(p: string, x: string, c: char)
    requires c !in p
    ensures TakeUntil(p + [c] + x, c) == p
  {
    var s := p + [c] + x;
    assert s == p + ([c] + x);
    IndexOfAfter(p, [c] + x, c);
    assert IndexOf([c] + x, c) == 0;
    assert s[..|p|] == p;
  }

  function DigitChar(d: nat): (c: char)
    requires d < 10
    ensures '0' <= c <= '9' && (c as int) - ('0' as int) == d
  {
    (('0' as int) + d) as char
  }

  /** The decimal rendering of a number, as `${n}` produces it for a non-negative integer. */
  function Decimal(n: nat): (r: string)
    ensures |r| > 0
    ensures forall k | 0 <= k < |r| :: '0' <= r[k] <= '9'
    decreases n
  {
    if n < 10 then [DigitChar(n)] else Decimal(n / 10) + [DigitChar(n % 10)]
  }

  /** Reads a string of decimal digits back into a number. */
  function ParseDecimal(s: string): nat
    requires forall k | 0 <= k < |s| :: '0' <= s[k] <= '9'
  {
    if s == [] then 0
    else ParseDecimal(s[..|s| - 1]) * 10 + ((s[|s| - 1] as int) - ('0' as int))
  }

  lemma {:induction false} DecimalRoundTrip(n: nat)
    ensures ParseDecimal(Decimal(n)) == n
    decreases n
  {
    if n >= 10 {
      var s := Decimal(n);
      assert s[..|s| - 1] == Decimal(n / 10);
      DecimalRoundTrip(n / 10);
    }
  }

  /** A rendered number holds neither white space nor a colon. */
  lemma DecimalPlain(n: nat)
    ensures NoSpace(Decimal(n)) && ':' !in Decimal(n)
  {
    var s := Decimal(n);
    forall k | 0 <= k < |s| ensures s[k] != ':' && !IsSpace(s[k]) {
      assert '0' <= s[k] <= '9';
    }
  }
}
