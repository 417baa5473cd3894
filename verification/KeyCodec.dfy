/**
 Encoding and decoding of cache keys. A Go string is a sequence of bytes; base64 is the standard alphabet with
 padding of section 4 of RFC 4648.
 */
module KeyCodec {
  import opened Common

  type Byte = b: nat | b < 256
  type Bytes = seq<Byte>

  datatype KeyHash = Base64 | Sha256 | Sha512 | Hex | Plain | Unknown(n: int)

  // ---------- Hex ----------

  function HexDigit(n: nat): (c: Byte)
    requires n < 16
  {
    if n < 10 then 48 + n else 87 + n
  }

  /** Upper and lower case are accepted. */
  function HexValue(c: Byte): (n: Option<nat>)
    ensures n.Some? ==> n.value < 16
  {
    if 48 <= c <= 57 then Some(c - 48)
    else if 97 <= c <= 102 then Some(c - 87)
    else if 65 <= c <= 70 then Some(c - 55)
    else None
  }

  function EncodeHex(input: Bytes): Bytes {
    if input == [] then []
    else [HexDigit(input[0] / 16), HexDigit(input[0] % 16)] + EncodeHex(input[1..])
  }

  function DecodeHex(text: Bytes): Option<Bytes> {
    if text == [] then Some([])
    else if |text| < 2 || HexValue(text[0]).None? || HexValue(text[1]).None? then None
    else
      var b: Byte := HexValue(text[0]).value * 16 + HexValue(text[1]).value;
      match DecodeHex(text[2..])
      case None => None
      case Some(rest) => Some([b] + rest)
  }

  const HEX_DIGITS: string := "0123456789abcdef"

  /** Lower case digits, the high one first. */
  lemma HexIsStandard(b: Byte)
    ensures |EncodeHex([b])| == 2
    ensures EncodeHex([b])[0] == HEX_DIGITS[b / 16] as int && EncodeHex([b])[1] == HEX_DIGITS[b % 16] as int
  {
    assert [b][1..] == [];
    HexDigitIsStandard(b / 16);
    HexDigitIsStandard(b % 16);
  }

  /** Both cases of the letters are read, and nothing but digits and these letters. */
  lemma HexValueExactly(c: Byte)
    ensures HexValue(c).Some? <==>
              ('0' as int <= c <= '9' as int || 'a' as int <= c <= 'f' as int || 'A' as int <= c <= 'F' as int)
    ensures '0' as int <= c <= '9' as int ==> HexValue(c) == Some(c - '0' as int)
    ensures 'a' as int <= c <= 'f' as int ==> HexValue(c) == Some(10 + (c - 'a' as int))
    ensures 'A' as int <= c <= 'F' as int ==> HexValue(c) == Some(10 + (c - 'A' as int))
  {
  }

  /** Only texts of digit pairs decode, to one byte a pair. */
  lemma {:induction false} HexDecodesPairs(text: Bytes)
    ensures DecodeHex(text).Some? <==> |text| % 2 == 0 && forall i :: 0 <= i < |text| ==> HexValue(text[i]).Some?
    ensures DecodeHex(text).Some? ==> 2 * |DecodeHex(text).value| == |text|
  {
    if |text| >= 2 {
      HexDecodesPairs(text[2..]);
      assert text == [text[0], text[1]] + text[2..];
    }
  }

  lemma HexDigitIsStandard(n: nat)
    requires n < 16
    ensures HexDigit(n) == HEX_DIGITS[n] as int
  {
  }

  lemma {:induction false} HexRoundTrip(input: Bytes)
    ensures DecodeHex(EncodeHex(input)) == Some(input)
  {
    if input != [] {
      HexRoundTrip(input[1..]);
      assert EncodeHex(input)[2..] == EncodeHex(input[1..]);
      assert input == [input[0]] + input[1..];
    }
  }

  // ---------- Base64 ----------

  const PAD: Byte := 61

  /** A-Z, a-z, 0-9, '+', '/'. */
  function Letter(n: nat): (c: Byte)
    requires n < 64
    ensures c != PAD && c != 10 && c != 13
  {
    if n < 26 then 65 + n
    else if n < 52 then 71 + n
    else if n < 62 then n - 4
    else if n == 62 then 43
    else 47
  }

  function LetterValue(c: Byte): (n: Option<nat>)
    ensures n.Some? ==> n.value < 64
  {
    if 65 <= c <= 90 then Some(c - 65)
    else if 97 <= c <= 122 then Some(c - 71)
    else if 48 <= c <= 57 then Some(c + 4)
    else if c == 43 then Some(62)
    else if c == 47 then Some(63)
    else None
  }

  /** The letters are those of the standard alphabet, table 1 of RFC 4648. */
  lemma LetterIsStandard(n: nat)
    requires n < 64
    ensures n < 26 ==> Letter(n) == 'A' as int + n
    ensures 26 <= n < 52 ==> Letter(n) == 'a' as int + (n - 26)
    ensures 52 <= n < 62 ==> Letter(n) == '0' as int + (n - 52)
    ensures n == 62 ==> Letter(n) == '+' as int
    ensures n == 63 ==> Letter(n) == '/' as int
    ensures PAD == '=' as int
  {
  }

  lemma LetterRoundTrip(n: nat)
    requires n < 64
    ensures LetterValue(Letter(n)) == Some(n)
  {
  }

  function EncodeBase64(input: Bytes): Bytes {
    if input == [] then []
    else if |input| == 1 then
      [Letter(input[0] / 4), Letter(input[0] % 4 * 16), PAD, PAD]
    else if |input| == 2 then
      [Letter(input[0] / 4), Letter(input[0] % 4 * 16 + input[1] / 16), Letter(input[1] % 16 * 4), PAD]
    else
      [Letter(input[0] / 4), Letter(input[0] % 4 * 16 + input[1] / 16),
       Letter(input[1] % 16 * 4 + input[2] / 64), Letter(input[2] % 64)] + EncodeBase64(input[3..])
  }

  /** The decoder skips line ends wherever they stand. */
  function WithoutLineEnds(text: Bytes): Bytes {
    if text == [] then []
    else if text[0] == 10 || text[0] == 13 then WithoutLineEnds(text[1..])
    else [text[0]] + WithoutLineEnds(text[1..])
  }

  /** Groups of four letters; only the last group may be padded, and its spare bits are ignored. */
  function DecodeGroups(text: Bytes): Option<Bytes> {
    if text == [] then Some([])
    else if |text| < 4 || LetterValue(text[0]).None? || LetterValue(text[1]).None? then None
    else
      var x, y := LetterValue(text[0]).value, LetterValue(text[1]).value;
      var a: Byte := x * 4 + y / 16;
      if text[2] == PAD then
        if text[3] == PAD && |text| == 4 then Some([a]) else None
      else if LetterValue(text[2]).None? then None
      else
        var z := LetterValue(text[2]).value;
        var b: Byte := y % 16 * 16 + z / 4;
        if text[3] == PAD then
          if |text| == 4 then Some([a, b]) else None
        else if LetterValue(text[3]).None? then None
        else
          var c: Byte := z % 4 * 64 + LetterValue(text[3]).value;
          match DecodeGroups(text[4..])
          case None => None
          case Some(rest) => Some([a, b, c] + rest)
  }

  function DecodeBase64(text: Bytes): Option<Bytes> {
    DecodeGroups(WithoutLineEnds(text))
  }

  /** Line ends may stand anywhere. */
  lemma {:induction false} LineEndsIgnored(a: Bytes, lineEnd: Byte, b: Bytes)
    requires lineEnd == 10 || lineEnd == 13
    ensures DecodeBase64(a + [lineEnd] + b) == DecodeBase64(a + b)
  {
    SkipsAppend(a, [lineEnd] + b);
    SkipsAppend(a, b);
    assert a + [lineEnd] + b == a + ([lineEnd] + b);
    assert ([lineEnd] + b)[1..] == b;
  }

  lemma {:induction false} SkipsAppend(a: Bytes, b: Bytes)
    ensures WithoutLineEnds(a + b) == WithoutLineEnds(a) + WithoutLineEnds(b)
  {
    if a == [] {
      assert a + b == b;
    } else {
      assert (a + b)[1..] == a[1..] + b;
      SkipsAppend(a[1..], b);
    }
  }

  /** Only whole groups of letters and padding decode. */
  lemma {:induction false} GroupsOnly(text: Bytes)
    requires DecodeGroups(text).Some?
    ensures |text| % 4 == 0 && forall i :: 0 <= i < |text| ==> LetterValue(text[i]).Some? || text[i] == PAD
  {
    if text != [] && text[2] != PAD && text[3] != PAD {
      GroupsOnly(text[4..]);
      assert text == text[..4] + text[4..];
    }
  }

  lemma {:induction false} EncodedHasNoLineEnds(input: Bytes)
    ensures forall i :: 0 <= i < |EncodeBase64(input)| ==> EncodeBase64(input)[i] != 10 && EncodeBase64(input)[i] != 13
  {
    if |input| >= 3 {
      EncodedHasNoLineEnds(input[3..]);
    }
  }

  lemma {:induction false} NothingToSkip(text: Bytes)
    requires forall i :: 0 <= i < |text| ==> text[i] != 10 && text[i] != 13
    ensures WithoutLineEnds(text) == text
  {
    if text != [] {
      NothingToSkip(text[1..]);
    }
  }

  /** Three bytes survive the trip through four letters. */
  lemma GroupRoundTrip(a: Byte, b: Byte, c: Byte)
    ensures a / 4 * 4 + (a % 4 * 16 + b / 16) / 16 == a
    ensures (a % 4 * 16 + b / 16) % 16 * 16 + (b % 16 * 4 + c / 64) / 4 == b
    ensures (b % 16 * 4 + c / 64) % 4 * 64 + c % 64 == c
  {
  }

  lemma FullGroupDecodes(x: nat, y: nat, z: nat, w: nat, a: Byte, b: Byte, c: Byte, text: Bytes, rest: Bytes)
    requires x < 64 && y < 64 && z < 64 && w < 64 && DecodeGroups(text) == Some(rest)
    requires a == x * 4 + y / 16 && b == y % 16 * 16 + z / 4 && c == z % 4 * 64 + w
    ensures DecodeGroups([Letter(x), Letter(y), Letter(z), Letter(w)] + text) == Some([a, b, c] + rest)
  {
    LetterRoundTrip(x);
    LetterRoundTrip(y);
    LetterRoundTrip(z);
    LetterRoundTrip(w);
    assert ([Letter(x), Letter(y), Letter(z), Letter(w)] + text)[4..] == text;
  }

  lemma ShortGroupDecodes(x: nat, y: nat, z: nat, a: Byte, b: Byte)
    requires x < 64 && y < 64 && z < 64
    requires a == x * 4 + y / 16 && b == y % 16 * 16 + z / 4
    ensures DecodeGroups([Letter(x), Letter(y), PAD, PAD]) == Some([a])
    ensures DecodeGroups([Letter(x), Letter(y), Letter(z), PAD]) == Some([a, b])
  {
    LetterRoundTrip(x);
    LetterRoundTrip(y);
    LetterRoundTrip(z);
  }

  lemma ThreeBytes(a: Byte, b: Byte, c: Byte, text: Bytes, rest: Bytes)
    requires DecodeGroups(text) == Some(rest)
    ensures DecodeGroups([Letter(a / 4), Letter(a % 4 * 16 + b / 16), Letter(b % 16 * 4 + c / 64), Letter(c % 64)]
                         + text) == Some([a, b, c] + rest)
  {
    GroupRoundTrip(a, b, c);
    var x, y, z, w := a / 4, a % 4 * 16 + b / 16, b % 16 * 4 + c / 64, c % 64;
    FullGroupDecodes(x, y, z, w, a, b, c, text, rest);
  }

  lemma OneByte(a: Byte)
    ensures DecodeGroups(EncodeBase64([a])) == Some([a])
  {
    GroupRoundTrip(a, 0, 0);
    var x, y := a / 4, a % 4 * 16;
    ShortGroupDecodes(x, y, 0, a, 0);
  }

  lemma TwoBytes(a: Byte, b: Byte)
    ensures DecodeGroups(EncodeBase64([a, b])) == Some([a, b])
  {
    var x, y, z := a / 4, a % 4 * 16 + b / 16, b % 16 * 4;
    assert EncodeBase64([a, b]) == [Letter(x), Letter(y), Letter(z), PAD];
    assert a == x * 4 + y / 16 && b == y % 16 * 16 + z / 4 by {
      TwoByteBits(a, b);
    }
    ShortGroupDecodes(x, y, z, a, b);
  }

  lemma TwoByteBits(a: Byte, b: Byte)
    ensures a == a / 4 * 4 + (a % 4 * 16 + b / 16) / 16
    ensures b == (a % 4 * 16 + b / 16) % 16 * 16 + b % 16 * 4 / 4
  {
  }

  lemma {:induction false} GroupsRoundTrip(input: Bytes)
    ensures DecodeGroups(EncodeBase64(input)) == Some(input)
  {
    if |input| == 1 {
      OneByte(input[0]);
      assert input == [input[0]];
    } else if |input| == 2 {
      TwoBytes(input[0], input[1]);
      assert input == [input[0], input[1]];
    } else if |input| > 2 {
      GroupsRoundTrip(input[3..]);
      ThreeBytes(input[0], input[1], input[2], EncodeBase64(input[3..]), input[3..]);
      assert input == [input[0], input[1], input[2]] + input[3..];
    }
  }

  /** A group of four letters spells the 24 bits of three bytes, the six highest first. */
  lemma GroupBits(a: Byte, b: Byte, c: Byte)
    ensures var letters := EncodeBase64([a, b, c]);
            && |letters| == 4 && (forall i :: 0 <= i < 4 ==> LetterValue(letters[i]).Some?)
            && LetterValue(letters[0]).value * 262144 + LetterValue(letters[1]).value * 4096
               + LetterValue(letters[2]).value * 64 + LetterValue(letters[3]).value == a * 65536 + b * 256 + c
  {
    assert [a, b, c][3..] == [];
    LetterRoundTrip(a / 4);
    LetterRoundTrip(a % 4 * 16 + b / 16);
    LetterRoundTrip(b % 16 * 4 + c / 64);
    LetterRoundTrip(c % 64);
    SplitBits(a, b, c);
  }

  lemma SplitBits(a: Byte, b: Byte, c: Byte)
    ensures (a / 4) * 262144 + (a % 4 * 16 + b / 16) * 4096 + (b % 16 * 4 + c / 64) * 64 + c % 64
              == a * 65536 + b * 256 + c
  {
  }

  lemma {:induction false} Base64RoundTrip(input: Bytes)
    ensures DecodeBase64(EncodeBase64(input)) == Some(input)
  {
    EncodedHasNoLineEnds(input);
    NothingToSkip(EncodeBase64(input));
    GroupsRoundTrip(input);
  }

  // ---------- Keys ----------

  /** cache_base.go lines 127 to 140; sha256 and sha512 are given. */
  function EncodeKey(hash: KeyHash, sha256: Bytes -> Bytes, sha512: Bytes -> Bytes, key: Bytes): Bytes {
    match hash
    case Sha256 => EncodeHex(sha256(key))
    case Sha512 => EncodeHex(sha512(key))
    case Hex => EncodeHex(key)
    case Plain => key
    case Base64 => EncodeBase64(key)
    case Unknown(_) => EncodeBase64(key)
  }

  /** cache.go lines 282 to 293. */
  function DecodeKey(hash: KeyHash, key: Bytes): Option<Bytes> {
    match hash
    case Base64 => DecodeBase64(key)
    case Hex => DecodeHex(key)
    case Plain => Some(key)
    case _ => None
  }

  predicate Decodable(hash: KeyHash) {
    hash.Base64? || hash.Hex? || hash.Plain?
  }

  /** DecodeKey inverts EncodeKey exactly in the base64, hex and plain modes. */
  lemma KeyRoundTrip(hash: KeyHash, sha256: Bytes -> Bytes, sha512: Bytes -> Bytes, key: Bytes)
    ensures DecodeKey(hash, EncodeKey(hash, sha256, sha512, key)) == Some(key) <==> Decodable(hash)
    ensures !Decodable(hash) ==> DecodeKey(hash, EncodeKey(hash, sha256, sha512, key)) == None
  {
    HexRoundTrip(key);
    Base64RoundTrip(key);
  }

  /** In the SHA modes the encoded key is the digest, in hex: it can be read back, and keys with different digests stay
      different. */
  lemma DigestKeys(sha256: Bytes -> Bytes, sha512: Bytes -> Bytes, a: Bytes, b: Bytes)
    ensures DecodeHex(EncodeKey(Sha256, sha256, sha512, a)) == Some(sha256(a))
    ensures DecodeHex(EncodeKey(Sha512, sha256, sha512, a)) == Some(sha512(a))
    ensures EncodeKey(Sha256, sha256, sha512, a) == EncodeKey(Sha256, sha256, sha512, b) <==> sha256(a) == sha256(b)
    ensures EncodeKey(Sha512, sha256, sha512, a) == EncodeKey(Sha512, sha256, sha512, b) <==> sha512(a) == sha512(b)
  {
    HexRoundTrip(sha256(a));
    HexRoundTrip(sha256(b));
    HexRoundTrip(sha512(a));
    HexRoundTrip(sha512(b));
  }

  /** An unknown mode encodes as base64 does, though it cannot be decoded. */
  lemma {:induction false} UnknownModeIsBase64(n: int, sha256: Bytes -> Bytes, sha512: Bytes -> Bytes, key: Bytes)
    ensures DecodeBase64(EncodeKey(Unknown(n), sha256, sha512, key)) == Some(key)
    ensures DecodeKey(Unknown(n), EncodeKey(Unknown(n), sha256, sha512, key)) == None
  {
    Base64RoundTrip(key);
  }

  /** In those modes different keys stay different. */
  lemma EncodeKeyInjective(hash: KeyHash, sha256: Bytes -> Bytes, sha512: Bytes -> Bytes, a: Bytes, b: Bytes)
    requires Decodable(hash) && EncodeKey(hash, sha256, sha512, a) == EncodeKey(hash, sha256, sha512, b)
    ensures a == b
  {
    KeyRoundTrip(hash, sha256, sha512, a);
    KeyRoundTrip(hash, sha256, sha512, b);
  }
}
