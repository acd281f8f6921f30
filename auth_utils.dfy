/** Password storage: a lowercase base-16 encoding of byte buffers (section 8 of RFC 4648) and
    password hashing and verification over an abstract key derivation. */
module AuthUtils {
  import opened Wrappers
  import opened JsStrings

  newtype byte = b: int | 0 <= b < 256

  const SaltLength: nat := 16
  const KeyLength: nat := 64

  type Salt = s: seq<byte> | |s| == SaltLength witness seq(16, _ => 0)
  type DerivedKey = s: seq<byte> | |s| == KeyLength witness seq(64, _ => 0)

  /** PBKDF2 with HMAC-SHA-256, 100000 rounds and a 512-bit output (section 5.2 of
      RFC 8018), on the UTF-8 bytes of the password and the salt bytes: a given deterministic
      function. */
  type Derivation = (string, seq<byte>) -> DerivedKey

  const HexDigits: string := "0123456789abcdef"

  predicate IsLowerHex(s: string) {
    forall i :: 0 <= i < |s| ==> s[i] in HexDigits
  }

  /** `b.toString(16)`: the lowercase base-16 digits of `b` without leading zeros. */
  function ToHexString(b: byte): string {
    if b < 16 then [HexDigits[b]] else [HexDigits[b / 16], HexDigits[b % 16]]
  }

  /** `padStart(2, '0')`. */
  function PadStart2(s: string): string {
    if |s| < 2 then seq(2 - |s|, _ => '0') + s else s
  }

  function ByteToHex(b: byte): string {
    PadStart2(ToHexString(b))
  }

  /** Each byte becomes exactly two lowercase digits, the high nibble first. */
  lemma ByteToHexDigits(b: byte)
    ensures ByteToHex(b) == [HexDigits[b / 16], HexDigits[b % 16]]
  {
    if b < 16 {
      assert b / 16 == 0 && b % 16 == b;
    }
  }

  /** `bufferToHex`: the two-digit encodings of the bytes, concatenated in byte order. */
  function BufferToHex(bytes: seq<byte>): (hex: string)
    ensures |hex| == 2 * |bytes|
    ensures IsLowerHex(hex)
  {
    if bytes == [] then ""
    else
      ByteToHexDigits(bytes[0]);
      ByteToHex(bytes[0]) + BufferToHex(bytes[1..])
  }

  /** Characters 2k and 2k+1 of the encoding are the digits of byte k. */
  lemma {:induction false} BufferToHexAt(bytes: seq<byte>, k: nat)
    requires k < |bytes|
    ensures BufferToHex(bytes)[2 * k..2 * k + 2] == [HexDigits[bytes[k] / 16], HexDigits[bytes[k] % 16]]
  {
    ByteToHexDigits(bytes[0]);
    if k > 0 {
      BufferToHexAt(bytes[1..], k - 1);
      var h := BufferToHex(bytes);
      var t := BufferToHex(bytes[1..]);
      assert h == ByteToHex(bytes[0]) + t;
      assert h[2 * k..2 * k + 2] == t[2 * (k - 1)..2 * (k - 1) + 2];
    }
  }

  /** A `Uint8Array` store: `NaN` becomes 0, other values are taken modulo 256. */
  function ToUint8(v: Option<int>): byte {
    if v.None? then 0 else (v.value % 256) as byte
  }

  /** `hexToBuffer`, as a value: `|hex| / 2` bytes, byte k being `parseInt` of characters 2k
      and 2k+1 stored into a `Uint8Array`; a trailing odd character is dropped. */
  function DecodeHex(hex: string): (bytes: seq<byte>)
    ensures |bytes| == |hex| / 2
  {
    seq(|hex| / 2, k requires 0 <= k < |hex| / 2 => ToUint8(ParseInt(hex[2 * k..2 * k + 2], 16)))
  }

  predicate IsHexDigit(c: char) {
    DigitValue(c) < 16
  }

  /** `parseInt` of two base-16 digits is their value. */
  lemma ParseHexPair(c1: char, c2: char)
    requires IsHexDigit(c1) && IsHexDigit(c2)
    ensures ParseInt([c1, c2], 16) == Some(16 * DigitValue(c1) + DigitValue(c2))
  {
    var s := [c1, c2];
    assert TrimStart(s) == s;
    assert DigitPrefixLength(s, 16) == 2 by {
      assert s[1..] == [c2];
      assert DigitPrefixLength([c2], 16) == 1;
    }
    assert s[..2] == s;
    assert DigitsValue(s, 16) == 16 * DigitValue(c1) + DigitValue(c2) by {
      assert s[..|s| - 1] == [c1];
      assert [c1][..0] == [];
      assert DigitsValue([c1], 16) == DigitsValue([], 16) * 16 + DigitValue(c1);
      assert DigitsValue(s, 16) == DigitsValue([c1], 16) * 16 + DigitValue(c2);
    }
  }

  /** On an even-length string of base-16 digits (either case), byte k is the value of
      characters 2k and 2k+1. */
  lemma DecodeHexDigits(hex: string, k: nat)
    requires forall i :: 0 <= i < |hex| ==> IsHexDigit(hex[i])
    requires k < |hex| / 2
    ensures DecodeHex(hex)[k] as int == 16 * DigitValue(hex[2 * k]) + DigitValue(hex[2 * k + 1])
  {
    assert hex[2 * k..2 * k + 2] == [hex[2 * k], hex[2 * k + 1]];
    ParseHexPair(hex[2 * k], hex[2 * k + 1]);
  }

  lemma HexDigitsValue(i: nat)
    requires i < 16
    ensures DigitValue(HexDigits[i]) == i
  {
  }

  /** The two digits of a byte parse back to the byte. */
  lemma ParseByteDigits(b: byte)
    ensures ParseInt([HexDigits[b / 16], HexDigits[b % 16]], 16) == Some(b as int)
  {
    var hi, lo := b as int / 16, b as int % 16;
    HexDigitsValue(hi);
    HexDigitsValue(lo);
    ParseHexPair(HexDigits[hi], HexDigits[lo]);
    assert 16 * hi + lo == b as int;
  }

  /** Byte k of a decoding depends only on characters 2k and 2k+1. */
  lemma DecodeHexAt(hex: string, k: nat, c1: char, c2: char)
    requires k < |hex| / 2 && hex[2 * k..2 * k + 2] == [c1, c2]
    ensures DecodeHex(hex)[k] == ToUint8(ParseInt([c1, c2], 16))
  {
  }

  lemma RoundTripAt(bytes: seq<byte>, k: nat)
    requires k < |bytes|
    ensures DecodeHex(BufferToHex(bytes))[k] == bytes[k]
  {
    var b := bytes[k];
    var c1, c2 := HexDigits[b / 16], HexDigits[b % 16];
    BufferToHexAt(bytes, k);
    DecodeHexAt(BufferToHex(bytes), k, c1, c2);
    ParseByteDigits(b);
    ToUint8Byte(b);
  }

  lemma ToUint8Byte(b: byte)
    ensures ToUint8(Some(b as int)) == b
  {
  }

  /** Decoding an encoding gives the bytes back. */
  lemma RoundTrip(bytes: seq<byte>)
    ensures DecodeHex(BufferToHex(bytes)) == bytes
  {
    var hex := BufferToHex(bytes);
    forall k | 0 <= k < |bytes| ensures DecodeHex(hex)[k] == bytes[k] {
      RoundTripAt(bytes, k);
    }
  }

  /** Dropping the first two characters drops the first byte. */
  lemma DecodeHexTail(hex: string)
    requires |hex| >= 2
    ensures DecodeHex(hex)[1..] == DecodeHex(hex[2..])
  {
    var d, rest := DecodeHex(hex), hex[2..];
    forall k | 0 <= k < |rest| / 2 ensures d[k + 1] == DecodeHex(rest)[k] {
      assert hex[2 * (k + 1)..2 * (k + 1) + 2] == rest[2 * k..2 * k + 2];
    }
  }

  lemma ToUint8InRange(v: int)
    requires 0 <= v < 256
    ensures ToUint8(Some(v)) as int == v
  {
  }

  /** A lowercase digit names its own position in `HexDigits`. */
  lemma LowerHexDigit(c: char)
    requires c in HexDigits
    ensures DigitValue(c) < 16 && HexDigits[DigitValue(c)] == c
  {
  }

  /** Two lowercase digits decode to a byte that encodes back to them. */
  lemma DigitsOfParsedPair(c1: char, c2: char)
    requires c1 in HexDigits && c2 in HexDigits
    ensures ByteToHex(ToUint8(ParseInt([c1, c2], 16))) == [c1, c2]
  {
    LowerHexDigit(c1);
    LowerHexDigit(c2);
    ParseHexPair(c1, c2);
    var hi, lo := DigitValue(c1), DigitValue(c2);
    ToUint8InRange(16 * hi + lo);
    var b := ToUint8(Some(16 * hi + lo));
    assert (b / 16) as int == hi && (b % 16) as int == lo;
    ByteToHexDigits(b);
  }

  /** The encoding of a decoding starts with the first two lowercase digits, followed by the
      encoding of the decoding of the rest. */
  lemma EncodeDecodeStep(hex: string)
    requires IsLowerHex(hex) && |hex| >= 2
    ensures BufferToHex(DecodeHex(hex)) == [hex[0], hex[1]] + BufferToHex(DecodeHex(hex[2..]))
  {
    var d := DecodeHex(hex);
    DecodeHexTail(hex);
    DecodeHexAt(hex, 0, hex[0], hex[1]);
    DigitsOfParsedPair(hex[0], hex[1]);
    assert BufferToHex(d) == ByteToHex(d[0]) + BufferToHex(d[1..]);
  }

  /** Encoding a decoded even-length lowercase string gives the string back. */
  lemma {:induction false} EncodeDecode(hex: string)
    requires IsLowerHex(hex) && |hex| % 2 == 0
    ensures BufferToHex(DecodeHex(hex)) == hex
  {
    if |hex| > 0 {
      var rest := hex[2..];
      assert IsLowerHex(rest) by {
        forall i | 0 <= i < |rest| ensures rest[i] in HexDigits {
          assert rest[i] == hex[i + 2];
        }
      }
      EncodeDecode(rest);
      EncodeDecodeStep(hex);
      assert hex == [hex[0], hex[1]] + rest;
    }
  }

  /** `hexToBuffer`: fills a zeroed `Uint8Array` of `|hex| / 2` bytes two characters at a time;
      a write past its end (the odd trailing character) is ignored. */
  method HexToBuffer(hex: string) returns (buffer: seq<byte>)
    ensures buffer == DecodeHex(hex)
  {
    var bytes := new byte[|hex| / 2](_ => 0);
    var i := 0;
    while i < |hex|
      invariant 0 <= i && i % 2 == 0 && i <= |hex| + 1
      invariant forall k :: 0 <= k < i / 2 && k < bytes.Length ==> bytes[k] == DecodeHex(hex)[k]
    {
      var chunk := hex[i..if i + 2 <= |hex| then i + 2 else |hex|];
      if i / 2 < bytes.Length {
        bytes[i / 2] := ToUint8(ParseInt(chunk, 16));
      }
      i := i + 2;
    }
    buffer := bytes[..];
  }

  datatype HashedPassword = HashedPassword(hash: string, salt: string)

  /** `hashPassword` with the random salt given: the derived key and the salt, hex-encoded. */
  function HashPassword(derive: Derivation, password: string, salt: Salt): (r: HashedPassword)
    ensures |r.hash| == 2 * KeyLength && |r.salt| == 2 * SaltLength
    ensures IsLowerHex(r.hash) && IsLowerHex(r.salt)
    ensures DecodeHex(r.salt) == salt
  {
    RoundTrip(salt);
    HashedPassword(BufferToHex(derive(password, salt)), BufferToHex(salt))
  }

  /** The outcome of `verifyPassword`: the key re-derived with the decoded salt, hex-encoded,
      equals the stored hash exactly. */
  predicate PasswordMatches(derive: Derivation, password: string, hash: string, salt: string) {
    BufferToHex(derive(password, DecodeHex(salt))) == hash
  }

  method VerifyPassword(derive: Derivation, password: string, hash: string, salt: string) returns (ok: bool)
    ensures ok == PasswordMatches(derive, password, hash, salt)
  {
    var saltBuffer := HexToBuffer(salt);
    var hashToVerify := BufferToHex(derive(password, saltBuffer));
    ok := hashToVerify == hash;
  }

  /** A password verifies against the hash and salt that hashing it produced. */
  lemma HashThenVerify(derive: Derivation, password: string, salt: Salt)
    ensures PasswordMatches(derive, password, HashPassword(derive, password, salt).hash,
                            HashPassword(derive, password, salt).salt)
  {
    RoundTrip(salt);
  }

  /** A stored hash matches exactly when it is the 128-digit lowercase encoding of the
      re-derived key. */
  lemma PasswordMatchesIff(derive: Derivation, password: string, hash: string, salt: string)
    ensures PasswordMatches(derive, password, hash, salt) <==>
      |hash| == 2 * KeyLength && IsLowerHex(hash) && DecodeHex(hash) == derive(password, DecodeHex(salt))
  {
    var key := derive(password, DecodeHex(salt));
    if PasswordMatches(derive, password, hash, salt) {
      RoundTrip(key);
    }
    if |hash| == 2 * KeyLength && IsLowerHex(hash) && DecodeHex(hash) == key {
      EncodeDecode(hash);
    }
  }
}
