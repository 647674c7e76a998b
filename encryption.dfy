/**
 * The credential envelope: a stored personal access token is sealed with
 * AES-256-GCM (NIST SP 800-38D) under a process-wide 32-character key and a
 * fresh 16-byte IV, and kept as `ivHex:cipherHex:tagHex`.
 *
 * The block cipher itself is abstract. GCM is encrypt-then-authenticate: the
 * ciphertext comes from the key stream, and the tag is a function of key, IV
 * and ciphertext. A `Cipher` is therefore three functions, and `Authenticated`
 * says that deciphering what was enciphered with the same key and IV gives
 * the plaintext back. The tag check in `Decrypt` is the real one: a tag other
 * than the one computed from key, IV and ciphertext fails.
 */
module Encryption {
  import opened Wrappers
  import Text
  import Hex

  const KeyLength: nat := 32
  const IvLength: nat := 16

  type Key = k: string | |k| == KeyLength witness "00000000000000000000000000000000"
  type Iv = iv: seq<Hex.byte> | |iv| == IvLength witness seq(16, _ => 0)

  datatype Cipher = Cipher(
    encipher: (Key, seq<Hex.byte>, string) -> seq<Hex.byte>,
    decipher: (Key, seq<Hex.byte>, seq<Hex.byte>) -> string,
    authTag: (Key, seq<Hex.byte>, seq<Hex.byte>) -> seq<Hex.byte>)

  /** The property every authenticated cipher has: same key and IV undo the encryption. */
  ghost predicate Authenticated(c: Cipher)
  {
    forall k, iv, p :: c.decipher(k, iv, c.encipher(k, iv, p)) == p
  }

  datatype ConfigError = KeyMissingOrWrongLength
  datatype DecryptError = FormatError | AuthenticationError

  /** Module setup: the key must be present and exactly 32 characters long. */
  function LoadKey(env: Option<string>): (r: Result<Key, ConfigError>)
    ensures r.Ok? <==> env.Some? && |env.value| == KeyLength
    ensures r.Ok? ==> r.value == env.value
  {
    if env.Some? && |env.value| == KeyLength then Ok(env.value) else Err(KeyMissingOrWrongLength)
  }

  /** `encrypt(text)`, with the random IV passed in. */
  function Encrypt(key: Key, c: Cipher, iv: Iv, text: string): (r: string)
    ensures var ciphertext := c.encipher(key, iv, text);
      Text.Split(r, ':') == [Hex.Encode(iv), Hex.Encode(ciphertext), Hex.Encode(c.authTag(key, iv, ciphertext))]
    ensures |Text.Split(r, ':')[0]| == 2 * IvLength
  {
    var ciphertext := c.encipher(key, iv, text);
    var tag := c.authTag(key, iv, ciphertext);
    Hex.EncodeHasNoColon(iv);
    Hex.EncodeHasNoColon(ciphertext);
    Hex.EncodeHasNoColon(tag);
    SplitEnvelope(Hex.Encode(iv), Hex.Encode(ciphertext), Hex.Encode(tag));
    Hex.Encode(iv) + ":" + Hex.Encode(ciphertext) + ":" + Hex.Encode(tag)
  }

  /** `decrypt(envelope)`. */
  function Decrypt(key: Key, c: Cipher, envelope: string): (r: Result<string, DecryptError>)
    ensures r == Err(FormatError) <==> |Text.Split(envelope, ':')| != 3
    ensures r.Ok? ==> Authentic(key, c, Text.Split(envelope, ':'))
  {
    var parts := Text.Split(envelope, ':');
    if |parts| != 3 then Err(FormatError)
    else
      var iv := Hex.Decode(parts[0]);
      var ciphertext := Hex.Decode(parts[1]);
      var tag := Hex.Decode(parts[2]);
      if tag == c.authTag(key, iv, ciphertext) then Ok(c.decipher(key, iv, ciphertext))
      else Err(AuthenticationError)
  }

  /** The three envelope fields carry a tag that the key computes for that IV and ciphertext. */
  predicate Authentic(key: Key, c: Cipher, parts: seq<string>)
    requires |parts| == 3
  {
    Hex.Decode(parts[2]) == c.authTag(key, Hex.Decode(parts[0]), Hex.Decode(parts[1]))
  }

  /** Three colon-free fields joined by colons split back into those fields. */
  lemma SplitEnvelope(a: string, b: string, d: string)
    requires ':' !in a && ':' !in b && ':' !in d
    ensures Text.Split(a + ":" + b + ":" + d, ':') == [a, b, d]
  {
    Text.SplitJoin(a + ":" + b, ':', d);
    Text.SplitJoin(a, ':', b);
    Text.SplitNoSeparator(a, ':');
    Text.SplitNoSeparator(b, ':');
    Text.SplitNoSeparator(d, ':');
  }

  /** `decrypt(encrypt(t)) == t` with the same key and an authenticated cipher. */
  lemma DecryptEncrypt(key: Key, c: Cipher, iv: Iv, text: string)
    requires Authenticated(c)
    ensures Decrypt(key, c, Encrypt(key, c, iv, text)) == Ok(text)
  {
    var ciphertext := c.encipher(key, iv, text);
    Hex.DecodeEncode(iv);
    Hex.DecodeEncode(ciphertext);
    Hex.DecodeEncode(c.authTag(key, iv, ciphertext));
  }

  /** An envelope of well-formed fields whose tag is not the one the key computes is refused, never decrypted. */
  lemma TamperedTagFails(key: Key, c: Cipher, iv: seq<Hex.byte>, ciphertext: seq<Hex.byte>, tag: seq<Hex.byte>)
    requires tag != c.authTag(key, iv, ciphertext)
    ensures Decrypt(key, c, Hex.Encode(iv) + ":" + Hex.Encode(ciphertext) + ":" + Hex.Encode(tag)) == Err(AuthenticationError)
  {
    Hex.EncodeHasNoColon(iv);
    Hex.EncodeHasNoColon(ciphertext);
    Hex.EncodeHasNoColon(tag);
    SplitEnvelope(Hex.Encode(iv), Hex.Encode(ciphertext), Hex.Encode(tag));
    Hex.DecodeEncode(iv);
    Hex.DecodeEncode(ciphertext);
    Hex.DecodeEncode(tag);
  }

  /**
   * Replacing the ciphertext of a sealed envelope with another one fails
   * unless the key happens to compute the same tag for the new ciphertext.
   */
  lemma TamperedCiphertextFails(key: Key, c: Cipher, iv: Iv, text: string, other: seq<Hex.byte>)
    requires c.authTag(key, iv, other) != c.authTag(key, iv, c.encipher(key, iv, text))
    ensures var tag := c.authTag(key, iv, c.encipher(key, iv, text));
      Decrypt(key, c, Hex.Encode(iv) + ":" + Hex.Encode(other) + ":" + Hex.Encode(tag)) == Err(AuthenticationError)
  {
    TamperedTagFails(key, c, iv, other, c.authTag(key, iv, c.encipher(key, iv, text)));
  }

  /**
   * Node decodes hex case-insensitively, so writing the tag field in upper
   * case still decrypts: not every change of a hex character is tampering.
   */
  lemma UpperCaseTagStillDecrypts(key: Key, c: Cipher, iv: Iv, text: string)
    requires Authenticated(c)
    ensures var ciphertext := c.encipher(key, iv, text);
      var tag := c.authTag(key, iv, ciphertext);
      Decrypt(key, c, Hex.Encode(iv) + ":" + Hex.Encode(ciphertext) + ":" + Text.ToUpper(Hex.Encode(tag))) == Ok(text)
  {
    var ciphertext := c.encipher(key, iv, text);
    var tag := c.authTag(key, iv, ciphertext);
    var lower := Hex.Encode(tag);
    var upper := Text.ToUpper(lower);
    forall i | 0 <= i < |lower|
      ensures Hex.DigitValue(lower[i]) == Hex.DigitValue(upper[i])
    {
      assert Hex.IsHexDigit(lower[i]);
    }
    Hex.DecodeIgnoresCase(lower, upper);
    assert ':' !in upper by {
      forall i | 0 <= i < |upper| ensures upper[i] != ':' {
        assert Hex.IsHexDigit(lower[i]);
      }
    }
    Hex.EncodeHasNoColon(iv);
    Hex.EncodeHasNoColon(ciphertext);
    SplitEnvelope(Hex.Encode(iv), Hex.Encode(ciphertext), upper);
    Hex.DecodeEncode(iv);
    Hex.DecodeEncode(ciphertext);
    Hex.DecodeEncode(tag);
  }
}
