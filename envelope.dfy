/** The byte layout of an encrypted message: salt (16 bytes), then the AES-GCM
    initialisation vector (12 bytes), then the AES-GCM output (ciphertext
    followed by its tag). Encryption writes the three parts into a fresh
    `Uint8Array`; decryption cuts them out again with fixed offsets. */
module Envelope {
  import opened JsBuiltins

  const SaltLength: nat := 16
  const IvLength: nat := 12
  /** Where decryption expects the ciphertext to start. */
  const CiphertextOffset: nat := SaltLength + IvLength

  /** `dst.set(src, offset)`: copies `src` into `dst` starting at `offset` and
      leaves every other element as it was. */
  method SetAt(dst: array<Byte>, src: seq<Byte>, offset: nat)
    requires offset + |src| <= dst.Length
    modifies dst
    ensures forall j :: 0 <= j < dst.Length ==>
      dst[j] == if offset <= j < offset + |src| then src[j - offset] else old(dst[j])
  {
    var k := 0;
    while k < |src|
      invariant 0 <= k <= |src|
      invariant forall j :: 0 <= j < dst.Length ==>
        dst[j] == if offset <= j < offset + k then src[j - offset] else old(dst[j])
    {
      dst[offset + k] := src[k];
      k := k + 1;
    }
  }

  /** Allocates `salt.length + iv.length + encrypted.byteLength` zero bytes and
      writes salt at 0, iv at `salt.length` and the AES-GCM output at
      `salt.length + iv.length`. Every byte of the result comes from one of the
      three parts. */
  method Pack(salt: seq<Byte>, iv: seq<Byte>, encrypted: seq<Byte>) returns (combined: array<Byte>)
    ensures fresh(combined)
    ensures combined[..] == salt + iv + encrypted
  {
    combined := new Byte[|salt| + |iv| + |encrypted|](_ => 0);
    SetAt(combined, salt, 0);
    SetAt(combined, iv, |salt|);
    SetAt(combined, encrypted, |salt| + |iv|);
    assert forall j :: 0 <= j < combined.Length ==> combined[..][j] == (salt + iv + encrypted)[j];
  }

  /** The three parts decryption reads back. */
  datatype Parts = Parts(salt: seq<Byte>, iv: seq<Byte>, ciphertext: seq<Byte>)

  /** `combined.slice(0, 16)`, `combined.slice(16, 28)` and `combined.slice(28)`.
      There is no length check: a short blob gives short (possibly empty) parts.
      For every blob the three parts partition it, nothing lost or duplicated,
      so packing the parts gives the blob back. */
  function Split(combined: seq<Byte>): (p: Parts)
    ensures p.salt + p.iv + p.ciphertext == combined
    ensures |p.salt| == Min(|combined|, SaltLength)
    ensures |p.iv| == Min(|combined|, CiphertextOffset) - Min(|combined|, SaltLength)
    ensures |p.ciphertext| == |combined| - Min(|combined|, CiphertextOffset)
  {
    var p := Parts(ClampedSlice(combined, 0, SaltLength),
                   ClampedSlice(combined, SaltLength, CiphertextOffset),
                   ClampedSlice(combined, CiphertextOffset, |combined|));
    assert |combined| > CiphertextOffset ==>
      combined == combined[..SaltLength] + combined[SaltLength..CiphertextOffset] + combined[CiphertextOffset..];
    p
  }

  /** The packed layout: total length and the offset of each part. */
  lemma PackedLayout(salt: seq<Byte>, iv: seq<Byte>, encrypted: seq<Byte>)
    ensures var c := salt + iv + encrypted;
      && |c| == |salt| + |iv| + |encrypted|
      && c[..|salt|] == salt
      && c[|salt|..|salt| + |iv|] == iv
      && c[|salt| + |iv|..] == encrypted
  {
    var c := salt + iv + encrypted;
    assert c[..|salt|] == salt;
    assert c[|salt|..|salt| + |iv|] == iv;
    assert c[|salt| + |iv|..] == encrypted;
  }

  /** With the salt and IV lengths encryption draws, splitting undoes packing. */
  lemma SplitOfPack(salt: seq<Byte>, iv: seq<Byte>, encrypted: seq<Byte>)
    requires |salt| == SaltLength && |iv| == IvLength
    ensures Split(salt + iv + encrypted) == Parts(salt, iv, encrypted)
  {
    PackedLayout(salt, iv, encrypted);
  }

  /** For a non-empty AES-GCM output (it always carries a tag), the fixed
      offsets of decryption recover the parts exactly when the salt has 16 and
      the IV 12 bytes: encryption computes its offsets from the lengths, while
      decryption hard-codes them. */
  lemma {:induction false} SplitOfPackIff(salt: seq<Byte>, iv: seq<Byte>, encrypted: seq<Byte>)
    requires |encrypted| > 0
    ensures Split(salt + iv + encrypted) == Parts(salt, iv, encrypted)
      <==> |salt| == SaltLength && |iv| == IvLength
  {
    if |salt| == SaltLength && |iv| == IvLength {
      SplitOfPack(salt, iv, encrypted);
    }
  }
}
