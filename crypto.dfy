/**
 * The framing of `encrypt` and `decrypt` (src/lib/utils.ts): a key derived
 * from the secret by SHA-512, AES-256-CBC under one process-wide IV, and the
 * output packaged as the IV in hex followed by the cipher's hex output.
 *
 * The hash and the cipher are not modelled: they are the function values of a
 * `Primitives` record, and what the framing needs of them is stated as the
 * hypothesis `CipherRoundTrips`.
 */
module Crypto {

  import opened Base

  type byte = x: int | 0 <= x < 256

  /** `crypto.randomBytes(16)`, drawn once when the module loads. */
  const IvLength: nat := 16
  /** Length of the IV's hex encoding, the fixed split point of `decrypt`. */
  const IvHexLength: nat := 32
  /** `.digest("hex").substring(0, 32)`: key length in characters. */
  const KeyLength: nat := 32

  type Iv = b: seq<byte> | |b| == IvLength witness seq(16, _ => 0)

  const HexDigits: string := "0123456789abcdef"

  /** `buffer.toString("hex")`: two lower-case hex digits per byte. */
  function HexEncode(b: seq<byte>): (h: string)
    ensures |h| == 2 * |b|
    ensures forall i :: 0 <= i < |h| ==> h[i] in HexDigits
  {
    if |b| == 0 then ""
    else [HexDigits[b[0] / 16], HexDigits[b[0] % 16]] + HexEncode(b[1..])
  }

  predicate IsHexDigit(c: char)
  {
    ('0' <= c <= '9') || ('a' <= c <= 'f') || ('A' <= c <= 'F')
  }

  function HexValue(c: char): (n: nat)
    requires IsHexDigit(c)
    ensures n < 16
  {
    if '0' <= c <= '9' then c as int - '0' as int
    else if 'a' <= c <= 'f' then c as int - 'a' as int + 10
    else c as int - 'A' as int + 10
  }

  /**
   * `Buffer.from(h, "hex")`: decodes pairs of hex digits from the left and
   * stops at the first pair that is not two hex digits (or a lone last digit).
   */
  function HexDecode(h: string): (b: seq<byte>)
    ensures |b| <= |h| / 2
    decreases |h|
  {
    if |h| < 2 || !IsHexDigit(h[0]) || !IsHexDigit(h[1]) then []
    else [16 * HexValue(h[0]) + HexValue(h[1])] + HexDecode(h[2..])
  }

  /** The two hex digits of a byte decode back to that byte. */
  lemma HexPairValue(x: byte)
    ensures IsHexDigit(HexDigits[x / 16]) && IsHexDigit(HexDigits[x % 16])
    ensures 16 * HexValue(HexDigits[x / 16]) + HexValue(HexDigits[x % 16]) == x
  {
    var hi, lo := x / 16, x % 16;
    assert HexValue(HexDigits[hi]) == hi;
    assert HexValue(HexDigits[lo]) == lo;
  }

  /** Decoding the hex encoding of a byte string gives the bytes back. */
  lemma {:induction false} HexDecodeEncode(b: seq<byte>)
    ensures HexDecode(HexEncode(b)) == b
    decreases |b|
  {
    if |b| > 0 {
      var h := HexEncode(b);
      var rest := HexEncode(b[1..]);
      assert h == [HexDigits[b[0] / 16], HexDigits[b[0] % 16]] + rest;
      HexPairValue(b[0]);
      assert h[2..] == rest;
      var x: byte := 16 * HexValue(h[0]) + HexValue(h[1]);
      assert x == b[0];
      assert HexDecode(h) == [x] + HexDecode(rest);
      HexDecodeEncode(b[1..]);
      assert [b[0]] + b[1..] == b;
    }
  }

  /** A hex string of even length decodes in full exactly when every character is a hex digit. */
  lemma {:induction false} HexDecodeFull(h: string)
    requires |h| % 2 == 0
    ensures |HexDecode(h)| == |h| / 2 <==> forall i :: 0 <= i < |h| ==> IsHexDigit(h[i])
    decreases |h|
  {
    if |h| >= 2 {
      HexDecodeFull(h[2..]);
      if IsHexDigit(h[0]) && IsHexDigit(h[1]) {
        assert forall i :: 2 <= i < |h| ==> h[i] == h[2..][i - 2];
      }
    }
  }

  /**
   * The hash and cipher the framing is built on: SHA-512 as a hex digest,
   * AES-256-CBC encryption (UTF-8 in, hex out, `update` then `final`) and its
   * decryption, which throws (`None`) on a bad padding or key.
   */
  datatype Primitives = Primitives(
    sha512Hex: string -> string,
    cipher: (string, Iv, string) -> string,
    decipher: (string, Iv, string) -> Option<string>)

  /** The cipher's own guarantee, taken as a hypothesis: deciphering undoes ciphering. */
  ghost predicate CipherRoundTrips(p: Primitives)
  {
    forall key, iv, data :: p.decipher(key, iv, p.cipher(key, iv, data)) == Some(data)
  }

  /** `createHash("sha512").update(secret).digest("hex").substring(0, 32)`. */
  function DeriveKey(p: Primitives, secret: string): (key: string)
    ensures |key| <= KeyLength
    ensures key <= p.sha512Hex(secret)
    ensures |p.sha512Hex(secret)| >= KeyLength ==> |key| == KeyLength
    ensures |p.sha512Hex(secret)| < KeyLength ==> key == p.sha512Hex(secret)
  {
    var digest := p.sha512Hex(secret);
    if |digest| >= KeyLength then digest[..KeyLength] else digest
  }

  /** `encrypt(data, secretKey)`: the process IV in hex, then the ciphertext. */
  function Encrypt(p: Primitives, iv: Iv, data: string, secretKey: string): (r: string)
    ensures |r| >= IvHexLength && r[..IvHexLength] == HexEncode(iv)
  {
    HexEncode(iv) + p.cipher(DeriveKey(p, secretKey), iv, data)
  }

  datatype DecryptError = InvalidIv | BadDecrypt

  /**
   * `decrypt(data, secretKey)`: the first 32 characters (or fewer, as `slice`
   * gives) are the IV in hex, the rest is the ciphertext.  A prefix that does
   * not decode to 16 bytes makes `createDecipheriv` throw.
   */
  function Decrypt(p: Primitives, data: string, secretKey: string): (r: Result<string, DecryptError>)
    ensures r != Err(InvalidIv) <==>
              |data| >= IvHexLength && forall i :: 0 <= i < IvHexLength ==> IsHexDigit(data[i])
  {
    var cut := if |data| < IvHexLength then |data| else IvHexLength;
    var ivBytes := HexDecode(data[..cut]);
    IvPrefixDecodes(data);
    if |ivBytes| != IvLength then
      Err(InvalidIv)
    else
      match p.decipher(DeriveKey(p, secretKey), ivBytes, data[cut..])
      case None => Err(BadDecrypt)
      case Some(plain) => Ok(plain)
  }

  /** The IV prefix of `decrypt`'s input decodes to 16 bytes exactly when it is 32 hex digits. */
  lemma IvPrefixDecodes(data: string)
    ensures var cut := if |data| < IvHexLength then |data| else IvHexLength;
            |HexDecode(data[..cut])| == IvLength <==>
              |data| >= IvHexLength && forall i :: 0 <= i < IvHexLength ==> IsHexDigit(data[i])
  {
    if |data| >= IvHexLength {
      HexDecodeFull(data[..IvHexLength]);
    }
  }

  /** `decrypt` undoes `encrypt` under the same secret, given the cipher's own round trip. */
  lemma DecryptEncrypt(p: Primitives, iv: Iv, data: string, secretKey: string)
    requires CipherRoundTrips(p)
    ensures Decrypt(p, Encrypt(p, iv, data, secretKey), secretKey) == Ok(data)
  {
    var e := Encrypt(p, iv, data, secretKey);
    HexDecodeEncode(iv);
    assert e[..IvHexLength] == HexEncode(iv);
    assert e[IvHexLength..] == p.cipher(DeriveKey(p, secretKey), iv, data);
  }
}
