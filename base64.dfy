/**
 * Base64 with the standard alphabet and `=` padding, as in section 4 of
 * RFC 4648 (the encoding Node's `Buffer#toString("base64")` produces).
 */
module Base64 {
  import opened Wrappers

  type Byte = x: int | 0 <= x < 256
  type Sextet = x: int | 0 <= x < 64

  /** Table 1 of RFC 4648: the character that encodes each 6-bit value. */
  function SextetChar(v: Sextet): (c: char)
    ensures IsAlphabetChar(c)
  {
    if v < 26 then ('A' as int + v) as char
    else if v < 52 then ('a' as int + (v - 26)) as char
    else if v < 62 then ('0' as int + (v - 52)) as char
    else if v == 62 then '+'
    else '/'
  }

  predicate IsAlphabetChar(c: char) {
    ('A' <= c <= 'Z') || ('a' <= c <= 'z') || ('0' <= c <= '9') || c == '+' || c == '/'
  }

  /** Table 1 read backwards. */
  function CharSextet(c: char): (v: Sextet)
    requires IsAlphabetChar(c)
  {
    if 'A' <= c <= 'Z' then c as int - 'A' as int
    else if 'a' <= c <= 'z' then c as int - 'a' as int + 26
    else if '0' <= c <= '9' then c as int - '0' as int + 52
    else if c == '+' then 62
    else 63
  }

  lemma CharSextetOfSextetChar(v: Sextet)
    ensures CharSextet(SextetChar(v)) == v
  {
  }

  /** Three bytes as four characters (24 bits as four 6-bit groups, high bits first). */
  function EncodeGroup(a: Byte, b: Byte, c: Byte): (s: string)
    ensures |s| == 4 && forall i :: 0 <= i < 4 ==> IsAlphabetChar(s[i])
  {
    [SextetChar(a / 4), SextetChar((a % 4) * 16 + b / 16),
     SextetChar((b % 16) * 4 + c / 64), SextetChar(c % 64)]
  }

  /**
   * The encoding of `bytes`: full groups of three bytes, then a final group of
   * one byte (two characters and "==") or two bytes (three characters and "=").
   */
  function Encode(bytes: seq<Byte>): (s: string)
    ensures |s| == 4 * ((|bytes| + 2) / 3)
    ensures forall i :: 0 <= i < |s| ==> IsAlphabetChar(s[i]) || s[i] == '='
    ensures |bytes| % 3 == 0 ==> forall i :: 0 <= i < |s| ==> IsAlphabetChar(s[i])
    decreases |bytes|
  {
    if |bytes| == 0 then ""
    else if |bytes| == 1 then
      [SextetChar(bytes[0] / 4), SextetChar((bytes[0] % 4) * 16)] + "=="
    else if |bytes| == 2 then
      [SextetChar(bytes[0] / 4), SextetChar((bytes[0] % 4) * 16 + bytes[1] / 16),
       SextetChar((bytes[1] % 16) * 4)] + "="
    else
      EncodeGroup(bytes[0], bytes[1], bytes[2]) + Encode(bytes[3..])
  }

  /** Four characters without padding back to three bytes. */
  function DecodeGroup(s: string): (bytes: seq<Byte>)
    requires |s| == 4 && forall i :: 0 <= i < 4 ==> IsAlphabetChar(s[i])
    ensures |bytes| == 3
  {
    var v0, v1, v2, v3 := CharSextet(s[0]), CharSextet(s[1]), CharSextet(s[2]), CharSextet(s[3]);
    [v0 * 4 + v1 / 16, (v1 % 16) * 16 + v2 / 4, (v2 % 4) * 64 + v3]
  }

  /**
   * Decoding: groups of four characters; only the last group may end in padding.
   * A string whose length is not a multiple of four, or that holds a character
   * outside the alphabet elsewhere, is rejected (None).
   */
  function Decode(s: string): (r: Option<seq<Byte>>)
    ensures r.Some? ==> |s| % 4 == 0 && 4 * |r.value| <= 3 * |s| <= 4 * |r.value| + 8
    ensures |s| % 4 == 0 && (forall i :: 0 <= i < |s| ==> IsAlphabetChar(s[i])) ==>
              r.Some? && 4 * |r.value| == 3 * |s|
    decreases |s|
  {
    if |s| == 0 then Some([])
    else if |s| < 4 then None
    else if |s| == 4 && IsAlphabetChar(s[0]) && IsAlphabetChar(s[1]) && s[2] == '=' && s[3] == '=' then
      Some([CharSextet(s[0]) * 4 + CharSextet(s[1]) / 16])
    else if |s| == 4 && IsAlphabetChar(s[0]) && IsAlphabetChar(s[1]) && IsAlphabetChar(s[2]) && s[3] == '=' then
      var v0, v1, v2 := CharSextet(s[0]), CharSextet(s[1]), CharSextet(s[2]);
      Some([v0 * 4 + v1 / 16, (v1 % 16) * 16 + v2 / 4])
    else if forall i :: 0 <= i < 4 ==> IsAlphabetChar(s[i]) then
      match Decode(s[4..])
      case Some(rest) => Some(DecodeGroup(s[..4]) + rest)
      case None => None
    else None
  }

  lemma GroupRoundTrip(a: Byte, b: Byte, c: Byte)
    ensures DecodeGroup(EncodeGroup(a, b, c)) == [a, b, c]
  {
    var s := EncodeGroup(a, b, c);
    CharSextetOfSextetChar(a / 4);
    CharSextetOfSextetChar((a % 4) * 16 + b / 16);
    CharSextetOfSextetChar((b % 16) * 4 + c / 64);
    CharSextetOfSextetChar(c % 64);
    assert ((a % 4) * 16 + b / 16) / 16 == a % 4;
    assert ((a % 4) * 16 + b / 16) % 16 == b / 16;
    assert ((b % 16) * 4 + c / 64) / 4 == b % 16;
    assert ((b % 16) * 4 + c / 64) % 4 == c / 64;
  }

  lemma SingleRoundTrip(a: Byte)
    ensures Decode(Encode([a])) == Some([a])
  {
    CharSextetOfSextetChar(a / 4);
    CharSextetOfSextetChar((a % 4) * 16);
  }

  lemma PairRoundTrip(a: Byte, b: Byte)
    ensures Decode(Encode([a, b])) == Some([a, b])
  {
    var s := Encode([a, b]);
    var w0, w1, w2 := a / 4, (a % 4) * 16 + b / 16, (b % 16) * 4;
    CharSextetOfSextetChar(w0);
    CharSextetOfSextetChar(w1);
    CharSextetOfSextetChar(w2);
    assert s == [SextetChar(w0), SextetChar(w1), SextetChar(w2), '='];
    assert w0 * 4 + w1 / 16 == a by {
      assert w1 / 16 == a % 4;
    }
    assert (w1 % 16) * 16 + w2 / 4 == b by {
      assert w1 % 16 == b / 16;
      assert w2 / 4 == b % 16;
    }
  }

  /** A leading unpadded group decodes to its three bytes, followed by the rest. */
  lemma DecodeLeadingGroup(g: string, rest: string)
    requires |g| == 4 && forall i :: 0 <= i < 4 ==> IsAlphabetChar(g[i])
    ensures Decode(g + rest) == match Decode(rest)
                                case Some(r) => Some(DecodeGroup(g) + r)
                                case None => None
  {
    var s := g + rest;
    assert s[..4] == g && s[4..] == rest;
    assert s[3] != '=' && s[2] != '=';
    assert forall i :: 0 <= i < 4 ==> IsAlphabetChar(s[i]);
  }

  /** Decoding undoes encoding, for every byte string. */
  lemma {:induction false} DecodeEncode(bytes: seq<Byte>)
    ensures Decode(Encode(bytes)) == Some(bytes)
    decreases |bytes|
  {
    if |bytes| == 1 {
      SingleRoundTrip(bytes[0]);
      assert bytes == [bytes[0]];
    } else if |bytes| == 2 {
      PairRoundTrip(bytes[0], bytes[1]);
      assert bytes == [bytes[0], bytes[1]];
    } else if |bytes| >= 3 {
      DecodeEncode(bytes[3..]);
      GroupThenRest(bytes);
    }
  }

  lemma GroupThenRest(bytes: seq<Byte>)
    requires |bytes| >= 3
    requires Decode(Encode(bytes[3..])) == Some(bytes[3..])
    ensures Decode(Encode(bytes)) == Some(bytes)
  {
    var g := EncodeGroup(bytes[0], bytes[1], bytes[2]);
    var t := Encode(bytes[3..]);
    assert Encode(bytes) == g + t;
    DecodeLeadingGroup(g, t);
    GroupRoundTrip(bytes[0], bytes[1], bytes[2]);
    HeadAndTail(bytes);
  }

  lemma HeadAndTail(bytes: seq<Byte>)
    requires |bytes| >= 3
    ensures [bytes[0], bytes[1], bytes[2]] + bytes[3..] == bytes
  {
  }
}
