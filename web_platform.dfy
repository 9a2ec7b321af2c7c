/** The browser facilities the encryption code calls and cannot see into:
    `TextEncoder`/`TextDecoder`, Web Crypto's PBKDF2 key derivation and AES-GCM,
    and `btoa`/`atob`. They are given as a value of type `Platform`, and what the
    model relies on about them is collected in `Sound`. */
module WebPlatform {
  import opened JsBuiltins

  datatype HashName = Sha256
  datatype CipherName = AesGcm

  /** The `deriveKey` request: PBKDF2 (RFC 8018 section 5.2) with the given
      HMAC hash and iteration count, producing a key for the given cipher with
      the given length in bits. */
  datatype Pbkdf2Params = Pbkdf2Params(hash: HashName, iterations: nat, cipher: CipherName, keyBits: nat)

  /** Length in bytes of the AES-GCM authentication tag Web Crypto appends by default (128 bits). */
  const TagLength: nat := 16

  datatype Platform = Platform(
    /** `new TextEncoder().encode(s)` */
    utf8Encode: JsString -> seq<Byte>,
    /** `new TextDecoder().decode(bytes)`: replaces malformed input, drops a leading
        byte order mark (the default `ignoreBOM: false`) and never throws */
    utf8Decode: seq<Byte> -> JsString,
    /** `importKey("raw", password, "PBKDF2")` followed by `deriveKey(params, ...)`: the key's bytes */
    pbkdf2: (Pbkdf2Params, seq<Byte>, seq<Byte>) -> seq<Byte>,
    /** `encrypt({name: "AES-GCM", iv}, key, data)`: ciphertext followed by the tag */
    aesGcmEncrypt: (seq<Byte>, seq<Byte>, seq<Byte>) -> seq<Byte>,
    /** `decrypt({name: "AES-GCM", iv}, key, data)`; None is the `OperationError` it rejects with */
    aesGcmDecrypt: (seq<Byte>, seq<Byte>, seq<Byte>) -> Option<seq<Byte>>,
    /** `btoa(s)` on a string whose code units are all below 256 */
    btoa: JsString -> JsString,
    /** `atob(s)`; None is the `InvalidCharacterError` it throws */
    atob: JsString -> Option<JsString>)

  /** A string `btoa` accepts: every code unit is below 256. */
  predicate IsBinaryString(s: JsString)
  {
    forall k :: 0 <= k < |s| ==> s[k] < 0x100
  }

  /** The code unit of the byte order mark U+FEFF. */
  const ByteOrderMark: CodeUnit := 0xFEFF

  /** What a default `TextDecoder` gives back for the UTF-8 encoding of `s`:
      `s` without a leading byte order mark. */
  function StripBom(s: JsString): JsString
  {
    if s != [] && s[0] == ByteOrderMark then s[1..] else s
  }

  /** What the model assumes about the platform:
      - UTF-8 encoding followed by decoding returns every well-formed string,
        except that a leading byte order mark is dropped (lone surrogates are
        replaced by U+FFFD on encoding, so ill-formed strings do not come back);
      - PBKDF2 is a function of (parameters, password, salt) only, giving keyBits/8 bytes;
      - AES-GCM adds a 16-byte tag, decrypting with the same key and IV
        returns exactly what was encrypted (NIST SP 800-38D), and data shorter
        than the tag is rejected with `OperationError`;
      - base64 (RFC 4648 section 4) decoding returns what was encoded. */
  ghost predicate Sound(p: Platform)
  {
    && (forall s :: WellFormed(s) ==> p.utf8Decode(p.utf8Encode(s)) == StripBom(s))
    && (forall params, password, salt :: |p.pbkdf2(params, password, salt)| == params.keyBits / 8)
    && (forall key, iv, data :: |p.aesGcmEncrypt(key, iv, data)| == |data| + TagLength)
    && (forall key, iv, data :: p.aesGcmDecrypt(key, iv, p.aesGcmEncrypt(key, iv, data)) == Some(data))
    && (forall key, iv, data :: |data| < TagLength ==> p.aesGcmDecrypt(key, iv, data) == None)
    && (forall s :: IsBinaryString(s) ==> p.atob(p.btoa(s)) == Some(s))
  }

  /** A stand-in platform with no cryptographic strength at all (UTF-16
      big-endian instead of UTF-8, a zero key, a zero tag, base64 as the
      identity). It exists to show that `Sound` can be met, so the lemmas that
      assume it do not hold vacuously. */
  function Witness(): Platform
  {
    Platform(WitnessEncode, WitnessDecode, WitnessDerive, WitnessSeal, WitnessOpen,
             s => s, s => Some(s))
  }

  function WitnessEncode(s: JsString): seq<Byte>
  {
    seq(2 * |s|, i requires 0 <= i < 2 * |s| => if i % 2 == 0 then s[i / 2] / 0x100 else s[i / 2] % 0x100)
  }

  function WitnessDecode(b: seq<Byte>): JsString
  {
    StripBom(seq(|b| / 2, i requires 0 <= i < |b| / 2 => (b[2 * i] as int) * 0x100 + (b[2 * i + 1] as int)))
  }

  function WitnessDerive(params: Pbkdf2Params, password: seq<Byte>, salt: seq<Byte>): seq<Byte>
  {
    seq(params.keyBits / 8, _ => 0)
  }

  function WitnessSeal(key: seq<Byte>, iv: seq<Byte>, data: seq<Byte>): seq<Byte>
  {
    data + seq(TagLength, _ => 0)
  }

  function WitnessOpen(key: seq<Byte>, iv: seq<Byte>, data: seq<Byte>): Option<seq<Byte>>
  {
    if |data| >= TagLength then Some(data[..|data| - TagLength]) else None
  }

  lemma WitnessTextRoundTrip(s: JsString)
    ensures WitnessDecode(WitnessEncode(s)) == StripBom(s)
  {
    var e := WitnessEncode(s);
    var d := seq(|e| / 2, i requires 0 <= i < |e| / 2 => (e[2 * i] as int) * 0x100 + (e[2 * i + 1] as int));
    assert |e| / 2 == |s|;
    forall i | 0 <= i < |s|
      ensures d[i] == s[i]
    {
      var hi, lo := 2 * i, 2 * i + 1;
      assert hi % 2 == 0 && hi / 2 == i;
      assert lo % 2 == 1 && lo / 2 == i;
      assert e[hi] == s[i] / 0x100;
      assert e[lo] == s[i] % 0x100;
      assert d[i] == (e[hi] as int) * 0x100 + (e[lo] as int);
    }
    assert d == s;
  }

  lemma WitnessCipherRoundTrip(key: seq<Byte>, iv: seq<Byte>, data: seq<Byte>)
    ensures WitnessOpen(key, iv, WitnessSeal(key, iv, data)) == Some(data)
  {
    var c := WitnessSeal(key, iv, data);
    assert c[..|c| - TagLength] == data;
  }

  lemma SoundIsSatisfiable()
    ensures Sound(Witness())
  {
    forall s: JsString
      ensures WitnessDecode(WitnessEncode(s)) == StripBom(s)
    {
      WitnessTextRoundTrip(s);
    }
    forall key: seq<Byte>, iv: seq<Byte>, data: seq<Byte>
      ensures WitnessOpen(key, iv, WitnessSeal(key, iv, data)) == Some(data)
    {
      WitnessCipherRoundTrip(key, iv, data);
    }
  }
}
