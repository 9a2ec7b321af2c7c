/** `encryptMessage` and `decryptMessage`: password-based encryption of a
    message into a base64 string and back. The key is derived with PBKDF2
    (HMAC-SHA-256, 100000 iterations) into a 256-bit AES-GCM key; the salt and
    the IV are drawn at random by the caller of `EncryptMessage`. */
module MessageCrypto {
  import opened JsBuiltins
  import opened Envelope
  import opened WebPlatform

  /** The key derivation requested on the encryption path. */
  const EncryptKeyParams := Pbkdf2Params(Sha256, 100000, AesGcm, 256)
  /** The key derivation requested on the decryption path, written out separately in the page. */
  const DecryptKeyParams := Pbkdf2Params(Sha256, 100000, AesGcm, 256)

  /** `String.fromCharCode(...bytes)`: one code unit per byte. */
  function BinaryString(bytes: seq<Byte>): (r: JsString)
    ensures |r| == |bytes| && IsBinaryString(r)
    ensures ByteValues(r) == bytes
  {
    seq(|bytes|, i requires 0 <= i < |bytes| => bytes[i] as CodeUnit)
  }

  /** `new Uint8Array(s.split("").map(c => c.charCodeAt(0)))`: one byte per code
      unit, reduced modulo 256 as a `Uint8Array` stores numbers. */
  function ByteValues(s: JsString): (r: seq<Byte>)
    ensures |r| == |s|
    ensures forall i :: 0 <= i < |s| && s[i] < 0x100 ==> r[i] == s[i]
  {
    seq(|s|, i requires 0 <= i < |s| => s[i] % 0x100)
  }

  /** The key `encryptMessage` derives from the password and the salt. */
  function EncryptionKey(p: Platform, password: JsString, salt: seq<Byte>): seq<Byte>
  {
    p.pbkdf2(EncryptKeyParams, p.utf8Encode(password), salt)
  }

  /** The bytes `encryptMessage` packs: salt, IV, then AES-GCM of the UTF-8 text. */
  function SealedBytes(p: Platform, text: JsString, password: JsString, salt: seq<Byte>, iv: seq<Byte>): seq<Byte>
  {
    salt + iv + p.aesGcmEncrypt(EncryptionKey(p, password, salt), iv, p.utf8Encode(text))
  }

  /** The string `encryptMessage` resolves to. */
  function Encrypted(p: Platform, text: JsString, password: JsString, salt: seq<Byte>, iv: seq<Byte>): JsString
  {
    p.btoa(BinaryString(SealedBytes(p, text, password, salt, iv)))
  }

  /** `encryptMessage(text, password)`, with the 16 random salt bytes and the 12
      random IV bytes passed in. */
  method EncryptMessage(p: Platform, text: JsString, password: JsString, salt: seq<Byte>, iv: seq<Byte>)
    returns (r: JsString)
    ensures r == Encrypted(p, text, password, salt, iv)
  {
    var data := p.utf8Encode(text);
    var key := p.pbkdf2(EncryptKeyParams, p.utf8Encode(password), salt);
    var encrypted := p.aesGcmEncrypt(key, iv, data);
    var combined := Pack(salt, iv, encrypted);
    r := p.btoa(BinaryString(combined[..]));
  }

  /** How `decryptMessage` can reject: `atob` throws `InvalidCharacterError`, or
      AES-GCM decryption rejects with `OperationError` (wrong key, altered bytes,
      a too-short IV or ciphertext). */
  datatype DecryptError = InvalidCharacter | OperationFailed

  /** The key `decryptMessage` derives: from the password and the first 16 bytes of the blob. */
  function DecryptionKey(p: Platform, password: JsString, combined: seq<Byte>): seq<Byte>
  {
    p.pbkdf2(DecryptKeyParams, p.utf8Encode(password), Split(combined).salt)
  }

  /** `decryptMessage(encryptedData, password)`. No length check is made before
      the cipher is called; only `atob` and AES-GCM can reject. */
  function DecryptMessage(p: Platform, encryptedData: JsString, password: JsString): (r: Result<JsString, DecryptError>)
    ensures r == Failure(InvalidCharacter) <==> p.atob(encryptedData).None?
  {
    match p.atob(encryptedData)
    case None => Failure(InvalidCharacter)
    case Some(binary) =>
      var combined := ByteValues(binary);
      var parts := Split(combined);
      match p.aesGcmDecrypt(DecryptionKey(p, password, combined), parts.iv, parts.ciphertext)
      case None => Failure(OperationFailed)
      case Some(plain) => Success(p.utf8Decode(plain))
  }

  /** Both paths ask for the same derivation, and the key decryption recomputes
      from the stored salt is the key encryption used. */
  lemma {:induction false} KeyRecomputedOnDecrypt(p: Platform, text: JsString, password: JsString, salt: seq<Byte>, iv: seq<Byte>)
    requires |salt| == SaltLength && |iv| == IvLength
    ensures DecryptKeyParams == EncryptKeyParams
    ensures DecryptionKey(p, password, SealedBytes(p, text, password, salt, iv)) == EncryptionKey(p, password, salt)
  {
    var encrypted := p.aesGcmEncrypt(EncryptionKey(p, password, salt), iv, p.utf8Encode(text));
    SplitOfPack(salt, iv, encrypted);
  }

  /** The key is 256 bits. */
  lemma KeyLength(p: Platform, password: JsString, salt: seq<Byte>)
    requires Sound(p)
    ensures |EncryptionKey(p, password, salt)| == 32
  {
  }

  /** The decoded blob holds 16 + 12 + (UTF-8 length + 16) bytes. */
  lemma SealedLength(p: Platform, text: JsString, password: JsString, salt: seq<Byte>, iv: seq<Byte>)
    requires Sound(p) && |salt| == SaltLength && |iv| == IvLength
    ensures |SealedBytes(p, text, password, salt, iv)| == SaltLength + IvLength + |p.utf8Encode(text)| + TagLength
  {
  }

  /** Decrypting what was encrypted, with the same password, gives the text
      back, except that the default `TextDecoder` drops a leading byte order
      mark. Only well-formed text can be carried through UTF-8. */
  lemma {:induction false} RoundTrip(p: Platform, text: JsString, password: JsString, salt: seq<Byte>, iv: seq<Byte>)
    requires Sound(p) && WellFormed(text)
    requires |salt| == SaltLength && |iv| == IvLength
    ensures DecryptMessage(p, Encrypted(p, text, password, salt, iv), password) == Success(StripBom(text))
    ensures text == [] || text[0] != ByteOrderMark ==>
      DecryptMessage(p, Encrypted(p, text, password, salt, iv), password) == Success(text)
  {
    var sealed := SealedBytes(p, text, password, salt, iv);
    var key := EncryptionKey(p, password, salt);
    var encrypted := p.aesGcmEncrypt(key, iv, p.utf8Encode(text));
    assert p.atob(p.btoa(BinaryString(sealed))) == Some(BinaryString(sealed));
    SplitOfPack(salt, iv, encrypted);
    KeyRecomputedOnDecrypt(p, text, password, salt, iv);
    assert p.aesGcmDecrypt(key, iv, encrypted) == Some(p.utf8Encode(text));
  }

  /** A message that starts with U+FEFF passes the encrypt guard (its trim is
      not empty) but comes back from decryption without that first code unit. */
  lemma LeadingBomIsDropped(p: Platform, password: JsString, salt: seq<Byte>, iv: seq<Byte>)
    requires Sound(p) && |salt| == SaltLength && |iv| == IvLength
    ensures var text: JsString := [ByteOrderMark, 'h' as int];
      && WellFormed(text) && !IsBlank(text)
      && DecryptMessage(p, Encrypted(p, text, password, salt, iv), password) == Success(['h' as int])
  {
    var text: JsString := [ByteOrderMark, 'h' as int];
    BomTextFacts(text);
    RoundTrip(p, text, password, salt, iv);
  }

  lemma BomTextFacts(text: JsString)
    requires text == [ByteOrderMark, 'h' as int]
    ensures WellFormed(text) && !IsBlank(text) && StripBom(text) == ['h' as int]
  {
    BlankIffAllWhitespace(text);
    assert !IsWhitespace(text[1]);
    assert text[1..] == ['h' as int];
    assert WellFormed(text[1..]);
  }

  /** There is no length check, but Web Crypto rejects AES-GCM input shorter than
      the tag: every blob under 16 + 12 + 16 = 44 bytes (including salt and IV
      cut short) fails as `OperationError` and reads as a wrong password. */
  lemma ShortBlobRejected(p: Platform, data: JsString, password: JsString, message: JsString)
    requires Sound(p) && p.atob(data).Some?
    requires |ByteValues(p.atob(data).value)| < CiphertextOffset + TagLength
    ensures DecryptMessage(p, data, password) == Failure(OperationFailed)
    ensures DecryptToast(ThrownBy(DecryptMessage(p, data, password).error, message)) == IncorrectPassword
  {
    var combined := ByteValues(p.atob(data).value);
    assert |Split(combined).ciphertext| < TagLength;
  }

  /** What `handleDecrypt` catches: the error's `name` and `message`. */
  datatype Thrown = Thrown(name: JsString, message: JsString)

  const IncorrectPassword := Str("Incorrect password. Please try again.")
  const DecryptFallback := Str("Failed to decrypt message")
  const InvalidCharacterName := Str("InvalidCharacterError")
  const OperationErrorName := Str("OperationError")

  lemma ToastTextsDiffer()
    ensures InvalidCharacterName != OperationErrorName
    ensures IncorrectPassword != [] && DecryptFallback != [] && IncorrectPassword != DecryptFallback
  {
    assert InvalidCharacterName[0] == 'I' as int;
    assert OperationErrorName[0] == 'O' as int;
    assert IncorrectPassword[0] == 'I' as int;
    assert DecryptFallback[0] == 'F' as int;
  }

  /** The toast `handleDecrypt` shows for a caught error (`error.message ||
      fallback` after the `OperationError` test). It is never empty, and it
      reads as a wrong password exactly for an `OperationError` or for an
      error whose own message is that text. */
  function DecryptToast(e: Thrown): (r: JsString)
    ensures r != []
    ensures r == IncorrectPassword <==> e.name == OperationErrorName || e.message == IncorrectPassword
    ensures e.name != OperationErrorName && e.message != [] ==> r == e.message
    ensures e.name != OperationErrorName && e.message == [] ==> r == DecryptFallback
  {
    ToastTextsDiffer();
    if e.name == OperationErrorName then IncorrectPassword
    else if e.message != [] then e.message
    else DecryptFallback
  }

  /** The error object a rejected `decryptMessage` throws: a DOMException named
      after its cause, with a message whose text is up to the browser. Only the
      cipher's rejection carries the name `OperationError`. */
  function ThrownBy(e: DecryptError, message: JsString): (t: Thrown)
    ensures t.name == OperationErrorName <==> e == OperationFailed
    ensures t.message == message
  {
    ToastTextsDiffer();
    match e
    case InvalidCharacter => Thrown(InvalidCharacterName, message)
    case OperationFailed => Thrown(OperationErrorName, message)
  }

  /** Every decryption the cipher rejects, whatever the cause (a wrong password
      or an altered envelope), shows the same incorrect-password text; only a
      malformed base64 string is told apart, by the browser's own message. */
  lemma DecryptFailureToast(p: Platform, data: JsString, password: JsString, message: JsString)
    requires DecryptMessage(p, data, password).Failure?
    ensures var toast := DecryptToast(ThrownBy(DecryptMessage(p, data, password).error, message));
      && toast != []
      && (p.atob(data).Some? ==> toast == IncorrectPassword)
      && (p.atob(data).None? ==> toast == if message != [] then message else DecryptFallback)
  {
  }
}
