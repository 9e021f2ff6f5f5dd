/**
 * Base 64 encoding (section 4 of RFC 4648), as the `btoa` library applies
 * it to a "binary string" whose code units are bytes, together with a
 * strict decoder of padded base 64 text, which is its inverse. A browser
 * decodes a `data:` URI more leniently, but agrees with this decoder on
 * everything `btoa` produces.
 */
module Base64 {
  import opened Wrappers

  type byte = bv8

  /** The character of the 64-character alphabet for a number from 0 to 63. */
  function AlphabetChar(n: int): (c: char)
    requires 0 <= n < 64
    ensures c != '='
  {
    if n < 26 then ('A' as int + n) as char
    else if n < 52 then ('a' as int + (n - 26)) as char
    else if n < 62 then ('0' as int + (n - 52)) as char
    else if n == 62 then '+'
    else '/'
  }

  /** The number an alphabet character stands for, or None for any other character. */
  function AlphabetValue(c: char): (r: Option<int>)
    ensures r.Some? ==> 0 <= r.value < 64
  {
    if 'A' <= c <= 'Z' then Some(c as int - 'A' as int)
    else if 'a' <= c <= 'z' then Some(c as int - 'a' as int + 26)
    else if '0' <= c <= '9' then Some(c as int - '0' as int + 52)
    else if c == '+' then Some(62)
    else if c == '/' then Some(63)
    else None
  }

  lemma AlphabetRoundTrip(n: int)
    requires 0 <= n < 64
    ensures AlphabetValue(AlphabetChar(n)) == Some(n)
  {
  }

  /** The character for a six-bit value. */
  function SextetChar(v: bv24): (c: char)
    requires v < 64
    ensures c != '='
  {
    AlphabetChar(v as int)
  }

  /** The six-bit value of an alphabet character, or None for any other character. */
  function SextetValue(c: char): (r: Option<bv24>)
    ensures r.Some? ==> r.value < 64
  {
    match AlphabetValue(c)
    case Some(n) => Some(n as bv24)
    case None => None
  }

  lemma SextetRoundTrip(v: bv24)
    requires v < 64
    ensures SextetValue(SextetChar(v)) == Some(v)
  {
    AlphabetRoundTrip(v as int);
  }

  /** Six-bit value `k` (0 to 3, most significant first) of a 24-bit group. */
  function Sextet(n: bv24, k: nat): (v: bv24)
    requires k <= 3
    ensures v < 64
  {
    if k == 0 then (n >> 18) & 63
    else if k == 1 then (n >> 12) & 63
    else if k == 2 then (n >> 6) & 63
    else n & 63
  }

  /** The 24-bit group of three bytes, first byte most significant. */
  function Pack(b0: byte, b1: byte, b2: byte): bv24 {
    (b0 as bv24 << 16) | (b1 as bv24 << 8) | b2 as bv24
  }

  /** The 24-bit group of four six-bit values, first value most significant. */
  function Unpack(c0: bv24, c1: bv24, c2: bv24, c3: bv24): bv24 {
    (c0 << 18) | (c1 << 12) | (c2 << 6) | c3
  }

  /** Byte `k` (0, 1 or 2, most significant first) of a 24-bit group. */
  function ByteOf(n: bv24, k: nat): byte
    requires k <= 2
  {
    if k == 0 then ((n >> 16) & 0xFF) as bv8
    else if k == 1 then ((n >> 8) & 0xFF) as bv8
    else (n & 0xFF) as bv8
  }

  /** The four characters for one group of 24 bits. */
  function Quad(n: bv24): (s: string)
    ensures |s| == 4 && forall i :: 0 <= i < 4 ==> s[i] != '='
  {
    [SextetChar(Sextet(n, 0)), SextetChar(Sextet(n, 1)), SextetChar(Sextet(n, 2)), SextetChar(Sextet(n, 3))]
  }

  /** The base 64 text of a byte sequence, padded with '=' to a multiple of four characters. */
  function Encode(bs: seq<byte>): (s: string)
    ensures |s| == 4 * ((|bs| + 2) / 3)
  {
    if |bs| == 0 then ""
    else if |bs| == 1 then Quad(Pack(bs[0], 0, 0))[..2] + "=="
    else if |bs| == 2 then Quad(Pack(bs[0], bs[1], 0))[..3] + "="
    else Quad(Pack(bs[0], bs[1], bs[2])) + Encode(bs[3..])
  }

  /** The 24-bit group of four alphabet characters, or None when one is outside the alphabet. */
  function DecodeQuad(c0: char, c1: char, c2: char, c3: char): Option<bv24> {
    match (SextetValue(c0), SextetValue(c1), SextetValue(c2), SextetValue(c3))
    case (Some(v0), Some(v1), Some(v2), Some(v3)) => Some(Unpack(v0, v1, v2, v3))
    case _ => None
  }

  /** The bytes of a padded base 64 text, or None when it is not one. */
  function Decode(s: string): Option<seq<byte>>
    decreases |s|
  {
    if s == [] then Some([])
    else if |s| < 4 then None
    else if |s| == 4 && s[2] == '=' && s[3] == '=' then
      match DecodeQuad(s[0], s[1], 'A', 'A')
      case Some(n) => Some([ByteOf(n, 0)])
      case None => None
    else if |s| == 4 && s[3] == '=' then
      match DecodeQuad(s[0], s[1], s[2], 'A')
      case Some(n) => Some([ByteOf(n, 0), ByteOf(n, 1)])
      case None => None
    else
      match (DecodeQuad(s[0], s[1], s[2], s[3]), Decode(s[4..]))
      case (Some(n), Some(rest)) => Some([ByteOf(n, 0), ByteOf(n, 1), ByteOf(n, 2)] + rest)
      case _ => None
  }

  /** Splitting a group into sextets and joining them again gives the group back. */
  lemma UnpackSextets(n: bv24)
    ensures Unpack(Sextet(n, 0), Sextet(n, 1), Sextet(n, 2), Sextet(n, 3)) == n
  {
  }

  lemma PackBytes(b0: byte, b1: byte, b2: byte)
    ensures ByteOf(Pack(b0, b1, b2), 0) == b0
    ensures ByteOf(Pack(b0, b1, b2), 1) == b1
    ensures ByteOf(Pack(b0, b1, b2), 2) == b2
  {
  }

  /** A group padded after two characters: the dropped sextets are not needed to recover the first byte. */
  lemma PartialGroupOne(n: bv24)
    ensures ByteOf(Unpack(Sextet(n, 0), Sextet(n, 1), 0, 0), 0) == ByteOf(n, 0)
  {
  }

  /** A group padded after three characters: the dropped sextet is not needed to recover the first two bytes. */
  lemma PartialGroupTwo(n: bv24)
    ensures ByteOf(Unpack(Sextet(n, 0), Sextet(n, 1), Sextet(n, 2), 0), 0) == ByteOf(n, 0)
    ensures ByteOf(Unpack(Sextet(n, 0), Sextet(n, 1), Sextet(n, 2), 0), 1) == ByteOf(n, 1)
  {
  }

  lemma DecodeQuadOf(n: bv24)
    ensures DecodeQuad(Quad(n)[0], Quad(n)[1], Quad(n)[2], Quad(n)[3]) == Some(n)
  {
    SextetRoundTrip(Sextet(n, 0));
    SextetRoundTrip(Sextet(n, 1));
    SextetRoundTrip(Sextet(n, 2));
    SextetRoundTrip(Sextet(n, 3));
    UnpackSextets(n);
  }

  lemma DecodeEncodeOne(b0: byte)
    ensures Decode(Encode([b0])) == Some([b0])
  {
    var n := Pack(b0, 0, 0);
    var s := Encode([b0]);
    SextetRoundTrip(Sextet(n, 0));
    SextetRoundTrip(Sextet(n, 1));
    assert SextetValue('A') == Some(0);
    assert s == [Quad(n)[0], Quad(n)[1], '=', '='];
    var m := Unpack(Sextet(n, 0), Sextet(n, 1), 0, 0);
    assert DecodeQuad(s[0], s[1], 'A', 'A') == Some(m);
    PartialGroupOne(n);
    PackBytes(b0, 0, 0);
  }

  lemma DecodeEncodeTwo(b0: byte, b1: byte)
    ensures Decode(Encode([b0, b1])) == Some([b0, b1])
  {
    var n := Pack(b0, b1, 0);
    var s := Encode([b0, b1]);
    SextetRoundTrip(Sextet(n, 0));
    SextetRoundTrip(Sextet(n, 1));
    SextetRoundTrip(Sextet(n, 2));
    assert SextetValue('A') == Some(0);
    assert s == [Quad(n)[0], Quad(n)[1], Quad(n)[2], '='];
    assert s[2] != '=';
    var m := Unpack(Sextet(n, 0), Sextet(n, 1), Sextet(n, 2), 0);
    assert DecodeQuad(s[0], s[1], s[2], 'A') == Some(m);
    PartialGroupTwo(n);
    PackBytes(b0, b1, 0);
  }

  /** A full group of four alphabet characters decodes to its three bytes, followed by the rest. */
  lemma DecodeFullGroup(n: bv24, rest: string, tail: seq<byte>)
    requires Decode(rest) == Some(tail)
    ensures Decode(Quad(n) + rest) == Some([ByteOf(n, 0), ByteOf(n, 1), ByteOf(n, 2)] + tail)
  {
    var q := Quad(n);
    var s := q + rest;
    assert s[..4] == q && s[4..] == rest;
    assert s[0] == q[0] && s[1] == q[1] && s[2] == q[2] && s[3] == q[3];
    DecodeQuadOf(n);
  }

  lemma EncodeGroup(bs: seq<byte>)
    requires |bs| >= 3
    ensures Encode(bs) == Quad(Pack(bs[0], bs[1], bs[2])) + Encode(bs[3..])
  {
  }

  lemma GroupBytes(bs: seq<byte>)
    requires |bs| >= 3
    ensures [ByteOf(Pack(bs[0], bs[1], bs[2]), 0), ByteOf(Pack(bs[0], bs[1], bs[2]), 1), ByteOf(Pack(bs[0], bs[1], bs[2]), 2)] + bs[3..] == bs
  {
    PackBytes(bs[0], bs[1], bs[2]);
  }

  lemma DecodeEncodeGroup(bs: seq<byte>)
    requires |bs| >= 3 && Decode(Encode(bs[3..])) == Some(bs[3..])
    ensures Decode(Encode(bs)) == Some(bs)
  {
    EncodeGroup(bs);
    DecodeFullGroup(Pack(bs[0], bs[1], bs[2]), Encode(bs[3..]), bs[3..]);
    GroupBytes(bs);
  }

  /** Decoding an encoding gives back the bytes: a `data:` URI built from the cover shows the cover's own bytes. */
  lemma {:induction false} DecodeEncode(bs: seq<byte>)
    ensures Decode(Encode(bs)) == Some(bs)
    decreases |bs|
  {
    if |bs| == 1 {
      assert bs == [bs[0]];
      DecodeEncodeOne(bs[0]);
    } else if |bs| == 2 {
      assert bs == [bs[0], bs[1]];
      DecodeEncodeTwo(bs[0], bs[1]);
    } else if |bs| >= 3 {
      DecodeEncode(bs[3..]);
      DecodeEncodeGroup(bs);
    }
  }

  /** `String.fromCharCode` applied to each byte: the "binary string" of a byte sequence. */
  function BinaryString(data: seq<byte>): (s: string)
    ensures |s| == |data|
    ensures forall i :: 0 <= i < |s| ==> s[i] as int < 256
  {
    seq(|data|, i requires 0 <= i < |data| => (data[i] as int) as char)
  }

  /** The bytes of a binary string. */
  function Bytes(s: string): (bs: seq<byte>)
    requires forall i :: 0 <= i < |s| ==> s[i] as int < 256
    ensures |bs| == |s|
  {
    seq(|s|, i requires 0 <= i < |s| => (s[i] as int) as bv8)
  }

  /** `btoa(s)`: the base 64 text of the bytes of a binary string. */
  function Btoa(s: string): string
    requires forall i :: 0 <= i < |s| ==> s[i] as int < 256
  {
    Encode(Bytes(s))
  }

  /** The bytes recovered from `btoa` of a binary string are the original bytes. */
  lemma BtoaRoundTrip(data: seq<byte>)
    ensures Decode(Btoa(BinaryString(data))) == Some(data)
  {
    var s := BinaryString(data);
    assert Bytes(s) == data;
    DecodeEncode(data);
  }
}
