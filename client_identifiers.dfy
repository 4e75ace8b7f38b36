/**
  Client id and client secret construction: a fixed prefix plus the
  lowercase Base16 rendering (section 8 of RFC 4648, with the alphabet in
  lower case, as Node's `Buffer.toString('hex')` writes it) of random bytes.
  The bytes come from `crypto.randomBytes`, which the model takes as input.
 */
module ClientIdentifiers {
  import opened Errors

  type Byte = b: int | 0 <= b < 256

  const HexAlphabet: string := "0123456789abcdef"
  const ClientIdPrefix: string := "client_"
  /** Number of random bytes behind a client id and behind a client secret. */
  const ClientIdByteCount: nat := 16
  const ClientSecretByteCount: nat := 32

  predicate IsLowerHex(c: char) {
    ('0' <= c <= '9') || ('a' <= c <= 'f')
  }

  /** The digit for a nibble: '0'..'9', then 'a'..'f'. */
  function HexDigit(n: int): (c: char)
    requires 0 <= n < 16
    ensures IsLowerHex(c) && c == HexAlphabet[n]
  {
    if n < 10 then ('0' as int + n) as char else ('a' as int + n - 10) as char
  }

  /** The value of one lowercase hex digit, None for any other character. */
  function HexValue(c: char): (r: Option<int>)
    ensures r.Some? <==> IsLowerHex(c)
    ensures r.Some? ==> 0 <= r.value < 16 && HexDigit(r.value) == c
    ensures forall n :: 0 <= n < 16 && c == HexDigit(n) ==> r == Some(n)
  {
    if '0' <= c <= '9' then Some(c as int - '0' as int)
    else if 'a' <= c <= 'f' then Some(c as int - 'a' as int + 10)
    else None
  }

  function ByteOf(hi: int, lo: int): (b: Byte)
    requires 0 <= hi < 16 && 0 <= lo < 16
    ensures b / 16 == hi && b % 16 == lo
  {
    hi * 16 + lo
  }

  /** Two digits per byte, high nibble first. */
  function HexEncode(bytes: seq<Byte>): (s: string)
    ensures |s| == 2 * |bytes|
    ensures forall i :: 0 <= i < |s| ==> IsLowerHex(s[i])
  {
    if bytes == [] then ""
    else [HexDigit(bytes[0] / 16), HexDigit(bytes[0] % 16)] + HexEncode(bytes[1..])
  }

  /** Inverse of HexEncode: None for an odd length or a character outside the alphabet. */
  function HexDecode(s: string): Option<seq<Byte>>
  {
    if |s| < 2 then (if s == [] then Some([]) else None)
    else
      var hi, lo, rest := HexValue(s[0]), HexValue(s[1]), HexDecode(s[2..]);
      if hi.Some? && lo.Some? && rest.Some? then Some([ByteOf(hi.value, lo.value)] + rest.value)
      else None
  }

  /** A byte splits into two nibbles and is rebuilt from them. */
  lemma Nibbles(b: Byte)
    ensures 0 <= b / 16 < 16 && 0 <= b % 16 < 16 && (b / 16) * 16 + b % 16 == b
  {
  }

  lemma {:induction false} DecodeEncode(bytes: seq<Byte>)
    ensures HexDecode(HexEncode(bytes)) == Some(bytes)
  {
    if bytes != [] {
      var b := bytes[0];
      Nibbles(b);
      var hi, lo := b / 16, b % 16;
      var s := HexEncode(bytes);
      assert s == [HexDigit(hi), HexDigit(lo)] + HexEncode(bytes[1..]);
      assert s[2..] == HexEncode(bytes[1..]);
      DecodeEncode(bytes[1..]);
      assert HexValue(s[0]) == Some(hi) && HexValue(s[1]) == Some(lo);
      assert ByteOf(hi, lo) == b;
      assert [b] + bytes[1..] == bytes;
    }
  }

  /** A string that decodes is the canonical encoding of its bytes. */
  lemma {:induction false} EncodeDecode(s: string, bytes: seq<Byte>)
    requires HexDecode(s) == Some(bytes)
    ensures HexEncode(bytes) == s
  {
    if |s| >= 2 {
      var hi, lo := HexValue(s[0]).value, HexValue(s[1]).value;
      var rest := HexDecode(s[2..]).value;
      EncodeDecode(s[2..], rest);
      var b := bytes[0];
      assert b == ByteOf(hi, lo) && bytes[1..] == rest;
      assert s == [s[0], s[1]] + s[2..];
    }
  }

  /** `client_${randomBytes(16).toString('hex')}` */
  function GenerateClientId(random: seq<Byte>): (id: string)
    requires |random| == ClientIdByteCount
    ensures |id| == 39 && id[..|ClientIdPrefix|] == ClientIdPrefix
    ensures forall i :: |ClientIdPrefix| <= i < |id| ==> IsLowerHex(id[i])
  {
    ClientIdPrefix + HexEncode(random)
  }

  /** `randomBytes(32).toString('hex')` */
  function GenerateClientSecret(random: seq<Byte>): (secret: string)
    requires |random| == ClientSecretByteCount
    ensures |secret| == 64
    ensures forall i :: 0 <= i < |secret| ==> IsLowerHex(secret[i])
  {
    HexEncode(random)
  }

  /** Hex-decoding the part of a client id after its prefix gives back the random bytes. */
  lemma ClientIdRoundTrip(random: seq<Byte>)
    requires |random| == ClientIdByteCount
    ensures HexDecode(GenerateClientId(random)[|ClientIdPrefix|..]) == Some(random)
  {
    assert GenerateClientId(random)[|ClientIdPrefix|..] == HexEncode(random);
    DecodeEncode(random);
  }

  lemma ClientSecretRoundTrip(random: seq<Byte>)
    requires |random| == ClientSecretByteCount
    ensures HexDecode(GenerateClientSecret(random)) == Some(random)
  {
    DecodeEncode(random);
  }

  /** Different random bytes give different client ids. */
  lemma ClientIdInjective(r1: seq<Byte>, r2: seq<Byte>)
    requires |r1| == ClientIdByteCount && |r2| == ClientIdByteCount
    requires GenerateClientId(r1) == GenerateClientId(r2)
    ensures r1 == r2
  {
    ClientIdRoundTrip(r1);
    ClientIdRoundTrip(r2);
  }
}
