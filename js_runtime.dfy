/**
 * The few JavaScript and Node.js runtime behaviours the modelled code relies on,
 * written out over unbounded integers: the `%` operator, the `~~` truncation,
 * the delay clamp of Node's `setTimeout`, the `\s` character class and
 * `String.prototype.split` with a one-character separator.
 */
module JsRuntime {
  import opened Wrappers

  /** Largest delay Node's timers accept (2^31 - 1 ms). */
  const TimeoutMax: int := 0x7FFF_FFFF

  const TwoTo31: int := 0x8000_0000
  const TwoTo32: int := 0x1_0000_0000

  function Abs(x: int): nat { if x < 0 then -x else x }

  /**
   * JavaScript `a % b` on integral numbers: the remainder truncates toward
   * zero, so it takes the sign of the dividend; `a % 0` is NaN (None).
   */
  function Rem(a: int, b: int): (r: Option<int>)
    ensures r.None? <==> b == 0
    ensures r.Some? ==> Abs(r.value) < Abs(b)
    ensures r.Some? && a >= 0 ==> 0 <= r.value
    ensures r.Some? && a < 0 ==> r.value <= 0
    ensures r.Some? ==> (a - r.value) % b == 0
    ensures b != 0 && Abs(a) < Abs(b) ==> r == Some(a)
  {
    if b == 0 then None
    else
      var m := Abs(b);
      ModSmall(Abs(a), m);
      RemCongruent(a, b);
      if a >= 0 then Some(a % m) else Some(-((-a) % m))
  }

  /** What the remainder of a truncating division leaves is a multiple of the divisor. */
  lemma RemCongruent(a: int, b: int)
    requires b != 0
    ensures var m := Abs(b);
            && (a >= 0 ==> (a - a % m) % b == 0)
            && (a < 0 ==> (a + (-a) % m) % b == 0)
  {
    var m := Abs(b);
    if a >= 0 {
      MultipleMod(a / m, b);
      assert a - a % m == (a / m) * m;
    } else {
      MultipleMod(-((-a) / m), b);
      assert a + (-a) % m == -((-a) / m) * m;
    }
  }

  lemma ModSmall(x: nat, m: int)
    requires m > 0
    ensures x < m ==> x % m == x
  {
    if x < m {
      assert x == 0 * m + x;
    }
  }

  lemma AbsMul(d: int, b: int)
    ensures Abs(d * b) == Abs(d) * Abs(b)
  {
    if d < 0 && b < 0 {
      assert d * b == (-d) * (-b);
    } else if d < 0 {
      assert d * b == -((-d) * b);
    } else if b < 0 {
      assert d * b == -(d * (-b));
    }
  }

  lemma MulAtLeast(x: nat, y: nat)
    requires x >= 1
    ensures x * y >= y
  {
    assert x * y == (x - 1) * y + y;
  }

  /** A nonzero multiple of `b` is at least `b` in magnitude. */
  lemma NonzeroMultiple(d: int, b: int)
    requires d != 0 && b != 0
    ensures Abs(d * b) >= Abs(b)
  {
    AbsMul(d, b);
    MulAtLeast(Abs(d), Abs(b));
  }

  /** A multiple of `Abs(b)` leaves remainder 0 when divided by `b`. */
  lemma MultipleMod(q: int, b: int)
    requires b != 0
    ensures (q * Abs(b)) % b == 0
  {
    var x := q * Abs(b);
    var k := if b > 0 then q else -q;
    assert x == k * b;
    var d := k - x / b;
    assert x == (x / b) * b + x % b;
    assert d * b == x % b;
    if d != 0 {
      NonzeroMultiple(d, b);
    }
  }

  /**
   * ECMAScript ToInt32 of an integral number, i.e. what `~~x` yields:
   * the value reduced modulo 2^32 into [-2^31, 2^31).
   */
  function ToInt32(x: int): (r: int)
    ensures -TwoTo31 <= r < TwoTo31
    ensures -TwoTo31 <= x < TwoTo31 ==> r == x
    ensures (x - r) % TwoTo32 == 0
  {
    var m := x % TwoTo32;
    if m >= TwoTo31 then m - TwoTo32 else m
  }

  /**
   * The delay Node's `setTimeout` actually waits: a delay that is NaN (None),
   * below 1 or above TimeoutMax is replaced by 1 ms.
   */
  function EffectiveDelay(delayMs: Option<int>): (d: int)
    ensures 1 <= d <= TimeoutMax
    ensures delayMs.Some? && 1 <= delayMs.value <= TimeoutMax ==> d == delayMs.value
    ensures (delayMs.None? || delayMs.value < 1 || delayMs.value > TimeoutMax) ==> d == 1
  {
    if delayMs.Some? && 1 <= delayMs.value <= TimeoutMax then delayMs.value else 1
  }

  /** The characters JavaScript's regular-expression class `\s` matches. */
  predicate IsSpace(c: char) {
    || c == '\t' || c == '\n' || c == '\U{B}' || c == '\U{C}' || c == '\r' || c == ' '
    || c == '\U{A0}' || c == '\U{1680}' || ('\U{2000}' <= c <= '\U{200A}')
    || c == '\U{2028}' || c == '\U{2029}' || c == '\U{202F}' || c == '\U{205F}'
    || c == '\U{3000}' || c == '\U{FEFF}'
  }

  /** The number of `\s` characters `s` starts with. */
  function LeadingSpaces(s: string): (n: nat)
    ensures n <= |s|
    ensures forall i :: 0 <= i < n ==> IsSpace(s[i])
    ensures n < |s| ==> !IsSpace(s[n])
    decreases |s|
  {
    if |s| > 0 && IsSpace(s[0]) then
      var n := LeadingSpaces(s[1..]);
      assert forall i :: 1 <= i < n + 1 ==> s[i] == s[1..][i - 1];
      n + 1
    else 0
  }

  /** The number of `\s` characters `s` ends with. */
  function TrailingSpaces(s: string): (n: nat)
    ensures n <= |s|
    ensures forall i :: |s| - n <= i < |s| ==> IsSpace(s[i])
    ensures n < |s| ==> !IsSpace(s[|s| - n - 1])
    decreases |s|
  {
    if |s| > 0 && IsSpace(s[|s| - 1]) then
      var n := TrailingSpaces(s[..|s| - 1]);
      assert forall i :: |s| - 1 - n <= i < |s| - 1 ==> s[i] == s[..|s| - 1][i];
      n + 1
    else 0
  }

  /** `s.trimStart()`: a suffix of `s`, all of whose removed characters are `\s`. */
  function TrimStart(s: string): (t: string)
    ensures |t| <= |s| && t == s[|s| - |t|..]
    ensures forall i :: 0 <= i < |s| - |t| ==> IsSpace(s[i])
    ensures |t| > 0 ==> !IsSpace(t[0])
  {
    s[LeadingSpaces(s)..]
  }

  /** `s.trimEnd()`: a prefix of `s`, all of whose removed characters are `\s`. */
  function TrimEnd(s: string): (t: string)
    ensures |t| <= |s| && t == s[..|t|]
    ensures forall i :: |t| <= i < |s| ==> IsSpace(s[i])
    ensures |t| > 0 ==> !IsSpace(t[|t| - 1])
  {
    s[..|s| - TrailingSpaces(s)]
  }

  /**
   * `s.trim()`: the slice of `s` left after removing white space at both ends;
   * it neither starts nor ends with white space.
   */
  function Trim(s: string): (t: string)
    ensures var lo := |s| - |TrimStart(s)|;
            && lo + |t| <= |s| && t == s[lo..lo + |t|]
            && (forall i :: 0 <= i < lo ==> IsSpace(s[i]))
            && (forall i :: lo + |t| <= i < |s| ==> IsSpace(s[i]))
    ensures |t| > 0 ==> !IsSpace(t[0]) && !IsSpace(t[|t| - 1])
  {
    var u := TrimStart(s);
    var t := TrimEnd(u);
    PrefixOfSuffix(s, u, t);
    t
  }

  /** A string that neither starts nor ends with white space is its own trim. */
  lemma TrimUnchanged(s: string)
    requires |s| > 0 ==> !IsSpace(s[0]) && !IsSpace(s[|s| - 1])
    ensures Trim(s) == s
  {
    assert s[0..] == s;
    assert s[..|s|] == s;
  }

  /** A prefix `t` of a suffix `u` of `s` is a slice of `s`, and what follows it in `s` follows it in `u`. */
  lemma PrefixOfSuffix(s: string, u: string, t: string)
    requires |u| <= |s| && u == s[|s| - |u|..]
    requires |t| <= |u| && t == u[..|t|]
    requires forall i :: |t| <= i < |u| ==> IsSpace(u[i])
    requires |t| > 0 ==> !IsSpace(u[0])
    ensures var lo := |s| - |u|;
            && lo + |t| <= |s| && t == s[lo..lo + |t|]
            && (forall i :: lo + |t| <= i < |s| ==> IsSpace(s[i]))
            && (|t| > 0 ==> !IsSpace(t[0]))
  {
    var lo := |s| - |u|;
    forall i | lo + |t| <= i < |s| ensures IsSpace(s[i]) {
      assert s[i] == u[i - lo];
    }
  }

  /** The index of the first `c` in `s`, or `|s|` when there is none. */
  function IndexOf(s: string, c: char): (i: nat)
    ensures i <= |s| && c !in s[..i]
    ensures i < |s| ==> s[i] == c
    decreases |s|
  {
    if |s| == 0 || s[0] == c then 0
    else
      var i := IndexOf(s[1..], c);
      assert s[..i + 1] == [s[0]] + s[1..][..i];
      i + 1
  }

  /**
   * `s.split(sep)` for a one-character string separator: the pieces between
   * the separators, in order; there is always at least one piece.
   */
  function Split(s: string, sep: char): (parts: seq<string>)
    ensures |parts| >= 1
    ensures forall i :: 0 <= i < |parts| ==> sep !in parts[i]
    ensures Join(parts, sep) == s
    decreases |s|
  {
    var i := IndexOf(s, sep);
    if i == |s| then
      assert s[..i] == s;
      [s]
    else
      var rest := Split(s[i + 1..], sep);
      assert ([s[..i]] + rest)[1..] == rest;
      assert s == s[..i] + [sep] + s[i + 1..];
      [s[..i]] + rest
  }

  /** `parts.join(sep)`: the inverse of Split. */
  function Join(parts: seq<string>, sep: char): string
    decreases |parts|
  {
    if |parts| == 0 then ""
    else if |parts| == 1 then parts[0]
    else parts[0] + [sep] + Join(parts[1..], sep)
  }

  /** Split undoes Join when no part contains the separator. */
  lemma {:induction false} SplitJoin(parts: seq<string>, sep: char)
    requires |parts| >= 1
    requires forall i :: 0 <= i < |parts| ==> sep !in parts[i]
    ensures Split(Join(parts, sep), sep) == parts
  {
    if |parts| == 1 {
      SplitNoSep(parts[0], sep);
    } else {
      SplitJoin(parts[1..], sep);
      SplitPrefix(parts[0], Join(parts[1..], sep), sep);
    }
  }

  /** A string without the separator splits into itself. */
  lemma SplitNoSep(s: string, sep: char)
    requires sep !in s
    ensures Split(s, sep) == [s]
  {
    assert s[..IndexOf(s, sep)] == s;
  }

  /** Splitting `a + sep + b`, where `a` holds no separator, yields `a` and then the pieces of `b`. */
  lemma SplitPrefix(a: string, b: string, sep: char)
    requires sep !in a
    ensures Split(a + [sep] + b, sep) == [a] + Split(b, sep)
  {
    var s := a + [sep] + b;
    IndexOfAfter(a, b, sep);
    assert s[..|a|] == a;
    assert s[|a| + 1..] == b;
  }

  /** In `a + c + b` with no `c` in `a`, the first `c` is the one after `a`. */
  lemma IndexOfAfter(a: string, b: string, c: char)
    requires c !in a
    ensures IndexOf(a + [c] + b, c) == |a|
  {
    var s := a + [c] + b;
    var i := IndexOf(s, c);
    assert s[..|a|] == a;
    assert s[|a|] == c;
  }

  /** The slices on either side of the separator at `i`, the second one ending at index `j` of the rest. */
  lemma PiecesAround(s: string, sep: char, i: nat, j: nat)
    requires i < |s| && s[i] == sep
    requires i + 1 + j <= |s|
    requires i + 1 + j < |s| ==> s[i + 1..][j] == sep
    ensures var a := s[..i]; var b := s[i + 1..][..j]; var k := |a| + 1;
            && sep in s && s[..|a|] == a
            && k + |b| <= |s| && s[k - 1] == sep && s[k..k + |b|] == b
            && (k + |b| == |s| || s[k + |b|] == sep)
  {
    assert s[i + 1..][..j] == s[i + 1..i + 1 + j];
  }

  /** Piece 0 runs up to the first separator; it is the only piece when there is none. */
  lemma SplitFirst(s: string, sep: char)
    ensures var i := IndexOf(s, sep); var p := Split(s, sep);
            && p[0] == s[..i]
            && (|p| == 1 <==> i == |s|)
  {
  }

  /** Piece 1 is the first piece of what follows the first separator. */
  lemma SplitSecond(s: string, sep: char)
    requires IndexOf(s, sep) < |s|
    ensures |Split(s, sep)| >= 2
    ensures Split(s, sep)[1] == Split(s[IndexOf(s, sep) + 1..], sep)[0]
  {
  }
}
