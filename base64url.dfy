/**
 * `base64.urlsafe_b64encode`: the base64url encoding of section 5 of
 * RFC 4648 (the alphabet of section 4 with `-` for 62 and `_` for 63), with
 * `=` padding, together with a decoder that inverts it.
 */
module Base64Url {
  import opened Wrappers

  type byte = x: int | 0 <= x < 256

  /** The 64 characters of the URL- and filename-safe alphabet. */
  predicate IsUrlSafeChar(c: char) {
    ('A' <= c <= 'Z') || ('a' <= c <= 'z') || ('0' <= c <= '9') || c == '-' || c == '_'
  }

  /** The character for a 6-bit value (Table 2 of RFC 4648). */
  function Sextet(v: int): char
    requires 0 <= v < 64
  {
    if v < 26 then ('A' as int + v) as char
    else if v < 52 then ('a' as int + (v - 26)) as char
    else if v < 62 then ('0' as int + (v - 52)) as char
    else if v == 62 then '-'
    else '_'
  }

  /** The 6-bit value of an alphabet character. */
  function SextetValue(c: char): (v: int)
    requires IsUrlSafeChar(c)
    ensures 0 <= v < 64
  {
    if 'A' <= c <= 'Z' then c as int - 'A' as int
    else if 'a' <= c <= 'z' then c as int - 'a' as int + 26
    else if '0' <= c <= '9' then c as int - '0' as int + 52
    else if c == '-' then 62
    else 63
  }

  /** Each 6-bit value has its own alphabet character, which reads back as the value. */
  lemma SextetRoundTrip(v: int)
    requires 0 <= v < 64
    ensures IsUrlSafeChar(Sextet(v)) && SextetValue(Sextet(v)) == v
  {
  }

  /** Three bytes (24 bits) as four characters. */
  function EncodeGroup(b0: byte, b1: byte, b2: byte): string {
    [Sextet(b0 / 4), Sextet((b0 % 4) * 16 + b1 / 16), Sextet((b1 % 16) * 4 + b2 / 64), Sextet(b2 % 64)]
  }

  /** The final, padded quantum: one byte gives `xx==`, two bytes `xxx=`, none the empty string. */
  function EncodeTail(b: seq<byte>): string
    requires |b| < 3
  {
    if |b| == 0 then ""
    else if |b| == 1 then [Sextet(b[0] / 4), Sextet((b[0] % 4) * 16), '=', '=']
    else [Sextet(b[0] / 4), Sextet((b[0] % 4) * 16 + b[1] / 16), Sextet((b[1] % 16) * 4), '=']
  }

  /** `base64.urlsafe_b64encode(b).decode('utf-8')`. */
  function Encode(b: seq<byte>): string
    decreases |b|
  {
    if |b| < 3 then EncodeTail(b)
    else EncodeGroup(b[0], b[1], b[2]) + Encode(b[3..])
  }

  /** Four alphabet characters back to three bytes. */
  function DecodeGroup(c0: char, c1: char, c2: char, c3: char): seq<byte>
    requires IsUrlSafeChar(c0) && IsUrlSafeChar(c1) && IsUrlSafeChar(c2) && IsUrlSafeChar(c3)
  {
    var v0, v1, v2, v3 := SextetValue(c0), SextetValue(c1), SextetValue(c2), SextetValue(c3);
    [v0 * 4 + v1 / 16, (v1 % 16) * 16 + v2 / 4, (v2 % 4) * 64 + v3]
  }

  /** The last four characters: a group padded with `==` or `=`, or a full group. */
  function DecodeLast(c0: char, c1: char, c2: char, c3: char): Option<seq<byte>> {
    if !IsUrlSafeChar(c0) || !IsUrlSafeChar(c1) then None
    else if c2 == '=' && c3 == '=' then
      Some([SextetValue(c0) * 4 + SextetValue(c1) / 16])
    else if !IsUrlSafeChar(c2) then None
    else if c3 == '=' then
      var v1 := SextetValue(c1);
      Some([SextetValue(c0) * 4 + v1 / 16, (v1 % 16) * 16 + SextetValue(c2) / 4])
    else if !IsUrlSafeChar(c3) then None
    else Some(DecodeGroup(c0, c1, c2, c3))
  }

  /** The decoder: full groups of four, the last of which may be padded. */
  function Decode(s: string): Option<seq<byte>>
    decreases |s|
  {
    if |s| == 0 then Some([])
    else if |s| < 4 then None
    else if |s| == 4 then DecodeLast(s[0], s[1], s[2], s[3])
    else if !(IsUrlSafeChar(s[0]) && IsUrlSafeChar(s[1]) && IsUrlSafeChar(s[2]) && IsUrlSafeChar(s[3])) then None
    else
      match Decode(s[4..])
      case None => None
      case Some(rest) => Some(DecodeGroup(s[0], s[1], s[2], s[3]) + rest)
  }

  /** How many `=` the encoding of `k` bytes ends with. */
  function PaddingLength(k: nat): nat {
    (3 - k % 3) % 3
  }

  /** `4 * ceil(k / 3)`: every started group of three bytes takes four characters. */
  lemma {:induction false} EncodeLength(b: seq<byte>)
    ensures |Encode(b)| == 4 * ((|b| + 2) / 3)
    decreases |b|
  {
    if |b| >= 3 {
      EncodeLength(b[3..]);
      assert |EncodeGroup(b[0], b[1], b[2])| == 4;
      GroupStep(|b|);
    } else {
      assert |EncodeTail(b)| == 4 * ((|b| + 2) / 3);
    }
  }

  /** One group of three more bytes: one more quantum, the same padding. */
  lemma GroupStep(k: nat)
    requires k >= 3
    ensures (k + 2) / 3 == (k - 3 + 2) / 3 + 1
    ensures PaddingLength(k) == PaddingLength(k - 3)
  {
  }

  /** The padding predicate: alphabet characters, then exactly `pad` trailing `=`. */
  ghost predicate WellPadded(s: string, pad: nat) {
    forall i :: 0 <= i < |s| ==> (s[i] == '=' <==> i >= |s| - pad) && (s[i] != '=' ==> IsUrlSafeChar(s[i]))
  }

  /** A group of three bytes is four alphabet characters. */
  lemma GroupAlphabet(b0: byte, b1: byte, b2: byte)
    ensures var g := EncodeGroup(b0, b1, b2);
            |g| == 4 && forall i :: 0 <= i < 4 ==> IsUrlSafeChar(g[i])
  {
    SextetRoundTrip(b0 / 4);
    SextetRoundTrip((b0 % 4) * 16 + b1 / 16);
    SextetRoundTrip((b1 % 16) * 4 + b2 / 64);
    SextetRoundTrip(b2 % 64);
  }

  /** The padded tail is well padded. */
  lemma TailAlphabet(b: seq<byte>)
    requires |b| < 3
    ensures WellPadded(EncodeTail(b), PaddingLength(|b|))
  {
    if |b| == 1 {
      SextetRoundTrip(b[0] / 4);
      SextetRoundTrip((b[0] % 4) * 16);
    } else if |b| == 2 {
      SextetRoundTrip(b[0] / 4);
      SextetRoundTrip((b[0] % 4) * 16 + b[1] / 16);
      SextetRoundTrip((b[1] % 16) * 4);
    }
  }

  /**
   * Every character of the encoding is from the URL-safe alphabet except
   * the trailing `=`, of which there are `PaddingLength(|b|)` (none when
   * `|b|` is a multiple of 3).
   */
  lemma {:induction false} EncodeAlphabet(b: seq<byte>)
    ensures var s := Encode(b);
            forall i :: 0 <= i < |s| ==>
              (s[i] == '=' <==> i >= |s| - PaddingLength(|b|)) && (s[i] != '=' ==> IsUrlSafeChar(s[i]))
    decreases |b|
  {
    if |b| < 3 {
      TailAlphabet(b);
    } else {
      EncodeAlphabet(b[3..]);
      EncodeLength(b[3..]);
      GroupStep(|b|);
      GroupAlphabet(b[0], b[1], b[2]);
      GroupThenRest(EncodeGroup(b[0], b[1], b[2]), Encode(b[3..]), PaddingLength(|b|));
    }
    assert WellPadded(Encode(b), PaddingLength(|b|));
  }

  /** A padding-free group of four followed by a well-padded rest is well padded. */
  lemma GroupThenRest(g: string, rest: string, pad: nat)
    requires |g| == 4 && forall i :: 0 <= i < 4 ==> IsUrlSafeChar(g[i])
    requires pad <= |rest| && WellPadded(rest, pad)
    ensures WellPadded(g + rest, pad)
  {
    var s := g + rest;
    forall i | 0 <= i < |s|
      ensures (s[i] == '=' <==> i >= |s| - pad) && (s[i] != '=' ==> IsUrlSafeChar(s[i]))
    {
      if i < 4 {
        assert s[i] == g[i];
      } else {
        assert s[i] == rest[i - 4];
      }
    }
  }

  /** Splitting a byte into sextets and joining them back: the three-byte case. */
  lemma GroupArithmetic(b0: byte, b1: byte, b2: byte)
    ensures var v1, v2 := (b0 % 4) * 16 + b1 / 16, (b1 % 16) * 4 + b2 / 64;
            && (b0 / 4) * 4 + v1 / 16 == b0
            && (v1 % 16) * 16 + v2 / 4 == b1
            && (v2 % 4) * 64 + b2 % 64 == b2
  {
    var v1, v2 := (b0 % 4) * 16 + b1 / 16, (b1 % 16) * 4 + b2 / 64;
    assert v1 / 16 == b0 % 4 && v1 % 16 == b1 / 16;
    assert v2 / 4 == b1 % 16 && v2 % 4 == b2 / 64;
  }

  /** The one-byte case. */
  lemma OneArithmetic(b0: byte)
    ensures (b0 / 4) * 4 + ((b0 % 4) * 16) / 16 == b0
  {
    assert ((b0 % 4) * 16) / 16 == b0 % 4;
  }

  /** The two-byte case. */
  lemma TwoArithmetic(b0: byte, b1: byte)
    ensures var v1 := (b0 % 4) * 16 + b1 / 16;
            && (b0 / 4) * 4 + v1 / 16 == b0
            && (v1 % 16) * 16 + ((b1 % 16) * 4) / 4 == b1
  {
    var v1 := (b0 % 4) * 16 + b1 / 16;
    assert v1 / 16 == b0 % 4 && v1 % 16 == b1 / 16;
    assert ((b1 % 16) * 4) / 4 == b1 % 16;
  }

  lemma DecodeEncodeGroup(b0: byte, b1: byte, b2: byte)
    ensures var g := EncodeGroup(b0, b1, b2);
            DecodeGroup(g[0], g[1], g[2], g[3]) == [b0, b1, b2]
  {
    GroupArithmetic(b0, b1, b2);
    SextetRoundTrip(b0 / 4);
    SextetRoundTrip((b0 % 4) * 16 + b1 / 16);
    SextetRoundTrip((b1 % 16) * 4 + b2 / 64);
    SextetRoundTrip(b2 % 64);
  }

  /** The decoder on a tail with two `=`. */
  lemma DecodeDoublePadded(c0: char, c1: char)
    requires IsUrlSafeChar(c0) && IsUrlSafeChar(c1)
    ensures Decode([c0, c1, '=', '=']) == Some([SextetValue(c0) * 4 + SextetValue(c1) / 16])
  {
  }

  /** The decoder on a tail with one `=`. */
  lemma DecodeSinglePadded(c0: char, c1: char, c2: char)
    requires IsUrlSafeChar(c0) && IsUrlSafeChar(c1) && IsUrlSafeChar(c2)
    ensures var v1 := SextetValue(c1);
            Decode([c0, c1, c2, '=']) == Some([SextetValue(c0) * 4 + v1 / 16, (v1 % 16) * 16 + SextetValue(c2) / 4])
  {
    var s := [c0, c1, c2, '='];
    assert s[2] != '=';
  }

  lemma DecodeEncodeOne(x: byte)
    ensures Decode(Encode([x])) == Some([x])
  {
    var v0, v1 := x / 4, (x % 4) * 16;
    var c0, c1 := Sextet(v0), Sextet(v1);
    assert Encode([x]) == [c0, c1, '=', '='];
    SextetRoundTrip(v0);
    SextetRoundTrip(v1);
    DecodeDoublePadded(c0, c1);
    assert [SextetValue(c0) * 4 + SextetValue(c1) / 16] == [x] by {
      OneArithmetic(x);
    }
  }

  /** The encoding of two bytes: three sextets and one `=`. */
  lemma EncodeTwo(x: byte, y: byte)
    ensures Encode([x, y]) == [Sextet(x / 4), Sextet((x % 4) * 16 + y / 16), Sextet((y % 16) * 4), '=']
  {
  }

  lemma DecodeEncodeTwo(x: byte, y: byte)
    ensures Decode(Encode([x, y])) == Some([x, y])
  {
    var v0, v1, v2 := x / 4, (x % 4) * 16 + y / 16, (y % 16) * 4;
    var c0, c1, c2 := Sextet(v0), Sextet(v1), Sextet(v2);
    EncodeTwo(x, y);
    SextetRoundTrip(v0);
    SextetRoundTrip(v1);
    SextetRoundTrip(v2);
    DecodeSinglePadded(c0, c1, c2);
    var w1 := SextetValue(c1);
    assert [SextetValue(c0) * 4 + w1 / 16, (w1 % 16) * 16 + SextetValue(c2) / 4] == [x, y] by {
      TwoArithmetic(x, y);
    }
  }

  /** Decoding a full group in front of a decodable rest. */
  lemma DecodeGroupThenRest(g: string, rest: string, r: seq<byte>)
    requires |g| == 4 && forall i :: 0 <= i < 4 ==> IsUrlSafeChar(g[i])
    requires Decode(rest) == Some(r)
    ensures Decode(g + rest) == Some(DecodeGroup(g[0], g[1], g[2], g[3]) + r)
  {
    var s := g + rest;
    assert s[0] == g[0] && s[1] == g[1] && s[2] == g[2] && s[3] == g[3];
    if rest == [] {
      assert s == g && g[2] != '=' && g[3] != '=';
      assert DecodeGroup(g[0], g[1], g[2], g[3]) + r == DecodeGroup(g[0], g[1], g[2], g[3]);
    } else {
      assert s[4..] == rest;
    }
  }

  /** The decoder inverts the encoder on every byte string. */
  lemma {:induction false} DecodeEncode(b: seq<byte>)
    ensures Decode(Encode(b)) == Some(b)
    decreases |b|
  {
    if |b| == 1 {
      assert b == [b[0]];
      DecodeEncodeOne(b[0]);
    } else if |b| == 2 {
      assert b == [b[0], b[1]];
      DecodeEncodeTwo(b[0], b[1]);
    } else if |b| >= 3 {
      var g := EncodeGroup(b[0], b[1], b[2]);
      GroupAlphabet(b[0], b[1], b[2]);
      DecodeEncode(b[3..]);
      DecodeGroupThenRest(g, Encode(b[3..]), b[3..]);
      DecodeEncodeGroup(b[0], b[1], b[2]);
      assert b == [b[0], b[1], b[2]] + b[3..];
    }
  }

  /** So the encoding is injective: distinct byte strings give distinct tokens. */
  lemma EncodeInjective(a: seq<byte>, b: seq<byte>)
    ensures Encode(a) == Encode(b) ==> a == b
  {
    DecodeEncode(a);
    DecodeEncode(b);
  }
}
