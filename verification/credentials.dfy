/**
 * The credential codec: salted password digests `hex(key) + "." + hex(salt)` and
 * their verification. The key derivation (scrypt with a 64-byte output) and the
 * random salt are not modelled: the derivation is a parameter of type `Kdf` and
 * the salt is passed in by the caller.
 */
module Credentials {
  import opened Wrappers
  import opened Text

  newtype byte = x: int | 0 <= x < 256

  const KeyLength: nat := 64
  const SaltLength: nat := 16

  /** The bytes of `randomBytes(16)`. */
  type Salt = s: seq<byte> | |s| == SaltLength witness seq(16, _ => 0 as byte)

  /** A key derived with output length 64. */
  type Key = s: seq<byte> | |s| == KeyLength witness seq(64, _ => 0 as byte)

  /** `scrypt(password, salt, 64)`: deterministic, otherwise unknown. */
  type Kdf = (string, string) -> Key

  predicate IsHexChar(c: char) {
    '0' <= c <= '9' || 'a' <= c <= 'f' || 'A' <= c <= 'F'
  }

  function HexDigit(n: int): (c: char)
    requires 0 <= n < 16
    ensures IsHexChar(c)
  {
    if n < 10 then ('0' as int + n) as char else ('a' as int + n - 10) as char
  }

  lemma HexDigitValue(n: int)
    requires 0 <= n < 16
    ensures HexValue(HexDigit(n)) == Some(n)
  {
  }

  /** The value of one hexadecimal digit, either case. */
  function HexValue(c: char): Option<int> {
    if '0' <= c <= '9' then Some(c as int - '0' as int)
    else if 'a' <= c <= 'f' then Some(c as int - 'a' as int + 10)
    else if 'A' <= c <= 'F' then Some(c as int - 'A' as int + 10)
    else None
  }

  /** `buf.toString("hex")`: two lower-case digits per byte. */
  function Hex(b: seq<byte>): (r: string)
    ensures |r| == 2 * |b|
    ensures forall i :: 0 <= i < |r| ==> IsHexChar(r[i])
  {
    if |b| == 0 then ""
    else [HexDigit(b[0] as int / 16), HexDigit(b[0] as int % 16)] + Hex(b[1..])
  }

  /**
   * `Buffer.from(s, "hex")`: decodes digit pairs from the left and stops at the
   * first pair that is not two hexadecimal digits; a trailing odd digit is dropped.
   */
  function HexDecode(s: string): (r: seq<byte>)
    ensures |r| <= |s| / 2
  {
    if |s| < 2 then []
    else match (HexValue(s[0]), HexValue(s[1]))
      case (Some(h), Some(l)) => [(h * 16 + l) as byte] + HexDecode(s[2..])
      case _ => []
  }

  /** Decoding the hexadecimal form of bytes gives the bytes back. */
  lemma {:induction false} HexRoundTrip(b: seq<byte>)
    ensures HexDecode(Hex(b)) == b
  {
    if |b| > 0 {
      var h := Hex(b);
      var hi, lo := b[0] as int / 16, b[0] as int % 16;
      HexDigitValue(hi);
      HexDigitValue(lo);
      assert h[0] == HexDigit(hi) && h[1] == HexDigit(lo);
      assert (hi * 16 + lo) as byte == b[0];
      assert h[2..] == Hex(b[1..]);
      HexRoundTrip(b[1..]);
      assert b == [b[0]] + b[1..];
    }
  }

  lemma HexHasNoDot(b: seq<byte>)
    ensures '.' !in Hex(b)
  {
    var h := Hex(b);
    forall i | 0 <= i < |h| ensures h[i] != '.' {
      assert IsHexChar(h[i]);
    }
  }

  /**
   * `hashPassword`: the derived key and the salt, both in hexadecimal, joined by a
   * dot. The key is derived from the salt's hexadecimal text.
   */
  function HashPassword(password: string, salt: Salt, scrypt: Kdf): (digest: string)
    ensures |digest| == 2 * KeyLength + 1 + 2 * SaltLength
    ensures Split(digest, '.') == [Hex(scrypt(password, Hex(salt))), Hex(salt)]
    ensures HexDecode(Split(digest, '.')[0]) == scrypt(password, Hex(salt))
    ensures HexDecode(Split(digest, '.')[1]) == salt
  {
    var saltHex := Hex(salt);
    var key := scrypt(password, saltHex);
    var keyHex := Hex(key);
    HexHasNoDot(salt);
    HexHasNoDot(key);
    SplitAtFirstSeparator(keyHex, '.', saltHex);
    SplitWithoutSeparator(saltHex, '.');
    HexRoundTrip(salt);
    HexRoundTrip(scrypt(password, saltHex));
    keyHex + "." + saltHex
  }

  /** `crypto.timingSafeEqual`, which throws a RangeError on buffers of different lengths. */
  function TimingSafeEqual(a: seq<byte>, b: seq<byte>): (r: Result<bool, string>)
    ensures r.Success? <==> |a| == |b|
    ensures r.Success? ==> (r.value <==> a == b)
  {
    if |a| != |b| then Failure("RangeError: Input buffers must have the same byte length")
    else Success(a == b)
  }

  /** The key text and the salt text of a stored digest: the first two dot-separated parts. */
  function DigestParts(stored: string): (string, Option<string>) {
    var parts := Split(stored, '.');
    (parts[0], if |parts| > 1 then Some(parts[1]) else None)
  }

  /**
   * `comparePasswords`: false for a digest without a non-empty key part and a
   * non-empty salt part; otherwise re-derives the key from the supplied password
   * and the stored salt and compares it with the stored key. A comparison error
   * is caught and reported as false.
   */
  function ComparePasswords(supplied: string, stored: string, scrypt: Kdf): bool {
    var (hashed, salt) := DigestParts(stored);
    if hashed == "" || salt.None? || salt.value == "" then false
    else
      match TimingSafeEqual(HexDecode(hashed), scrypt(supplied, salt.value))
      case Success(equal) => equal
      case Failure(_) => false
  }

  /** A malformed digest is rejected rather than raising. */
  lemma ComparePasswordsFailsClosed(supplied: string, stored: string, scrypt: Kdf)
    ensures '.' !in stored ==> !ComparePasswords(supplied, stored, scrypt)
    ensures Split(stored, '.')[0] == "" ==> !ComparePasswords(supplied, stored, scrypt)
    ensures |Split(stored, '.')| > 1 && Split(stored, '.')[1] == "" ==> !ComparePasswords(supplied, stored, scrypt)
  {
    if '.' !in stored {
      SplitWithoutSeparator(stored, '.');
    }
  }

  /** An accepted password re-derives exactly the stored key from the stored salt. */
  lemma ComparePasswordsAccepts(supplied: string, stored: string, scrypt: Kdf)
    requires ComparePasswords(supplied, stored, scrypt)
    ensures var parts := Split(stored, '.');
      |parts| > 1 && parts[0] != "" && parts[1] != "" && HexDecode(parts[0]) == scrypt(supplied, parts[1])
  {
  }

  /** Round trip: a digest made from a password accepts that password. */
  lemma HashThenCompare(password: string, salt: Salt, scrypt: Kdf)
    ensures ComparePasswords(password, HashPassword(password, salt, scrypt), scrypt)
  {
    var digest := HashPassword(password, salt, scrypt);
    assert DigestParts(digest) == (Hex(scrypt(password, Hex(salt))), Some(Hex(salt)));
  }

  /** A password whose derived key differs from the stored one is rejected. */
  lemma OtherPasswordRejected(password: string, other: string, salt: Salt, scrypt: Kdf)
    requires scrypt(other, Hex(salt)) != scrypt(password, Hex(salt))
    ensures !ComparePasswords(other, HashPassword(password, salt, scrypt), scrypt)
  {
    var digest := HashPassword(password, salt, scrypt);
    assert DigestParts(digest) == (Hex(scrypt(password, Hex(salt))), Some(Hex(salt)));
  }
}
