/** src/data_encrypt.cpp and src/data_decrypt.cpp as functions over the lifecycle
    state: the encryption service first generates and seals a fresh key under the
    reference and then unseals it to encrypt; the decryption service unseals and
    decrypts. DataEncrypt and DataDecrypt run the same steps imperatively and are
    proved equal to these functions. */
module Pipeline {
  import opened Wrappers
  import opened Bytes
  import opened Lifecycle
  import opened Evp

  /** The inputs from the world that one EncryptData call sees: the foreign results
      of its GenerateSealedKey call, what /dev/random delivered for the key and the
      IV, the foreign results of the UnsealKey call inside EncryptPlaintext,
      whether EVP_CIPHER_CTX_new succeeded, and the memory that follows the
      unsealed key's vector, which EVP_aes_256_cbc() reads as the second half of
      its 32-byte key. */
  datatype EncryptEnv = EncryptEnv(generate: Session, keyRead: Bytes, ivRead: Bytes, unseal: Session, contextOk: bool,
                                   pastKey: Bytes)

  /** The same for one DecryptData call. */
  datatype DecryptEnv = DecryptEnv(unseal: Session, contextOk: bool, pastKey: Bytes)

  /** EncryptPlaintext's result, the final value of its out-parameter, and the state. */
  datatype Encrypted = Encrypted(outcome: Outcome<bool>, ciphertext: Bytes, after: TpmState)

  /** EncryptData's result (it catches the lifecycle's exceptions), its
      out-parameter, and the state. */
  datatype EncryptedData = EncryptedData(ok: bool, dataOut: Bytes, after: TpmState)

  /** DecryptCiphertext's result (-1 or the plaintext length), the bytes it wrote to
      the front of the caller's buffer, and the state. */
  datatype Decrypted = Decrypted(outcome: Outcome<int>, written: Bytes, after: TpmState)

  /** DecryptData's result (it does not catch the lifecycle's exceptions), its
      out-parameter, and the state. */
  datatype DecryptedData = DecryptedData(outcome: Outcome<bool>, dataOut: Bytes, after: TpmState)

  // ------------------------------------------------------------ encryption

  /** The EVP part of EncryptPlaintext: create a context, then encrypt the bytes
      `strlen` counts in the plaintext, under the 32 bytes read from the key's
      vector and the memory past it. */
  function EncryptWithKey(c: Cipher, contextOk: bool, key: Bytes, pastKey: Bytes, iv: Bytes, plaintext: Bytes): (r: Option<Bytes>)
    ensures var k, m := BytesRead(key, pastKey, Aes256KeyLength), UpToNul(plaintext);
            && (r.Some? <==> contextOk && c.encryptInit(k, iv) && c.encryptUpdate(k, iv, m).Some? && c.encryptFinal(k, iv, m).Some?)
            && (r.Some? ==> r.value == c.encryptUpdate(k, iv, m).value + c.encryptFinal(k, iv, m).value)
    ensures Pkcs7Lengths(c) && r.Some? ==> |r.value| == PaddedLength(CStrLen(plaintext))
  {
    if contextOk then Encrypt(c, BytesRead(key, pastKey, Aes256KeyLength), iv, UpToNul(plaintext)) else None
  }

  /** DataEncrypt::EncryptPlaintext. An unseal failure returns -1 from a function
      declared bool, which converts to true. */
  function EncryptPlaintext(s: TpmState, env: Session, contextOk: bool, pastKey: Bytes, c: Cipher, ref: string,
                            plaintext: Bytes, ciphertextIn: Bytes): (r: Encrypted)
    ensures r.after == Initialise(s, env).after
    ensures r.outcome.Threw? <==> Initialise(s, env).outcome.Threw?
    ensures r.outcome != Returned(true) ==> r.ciphertext == ciphertextIn
    ensures var u := UnsealKey(s, env, ref, [], []);
            u.outcome.Returned? && u.outcome.value.ok ==>
              var ct := EncryptWithKey(c, contextOk, u.outcome.value.key, pastKey, u.outcome.value.iv, plaintext);
              && r.outcome == Returned(ct.Some?)
              && (ct.Some? ==> r.ciphertext == ct.value)
  {
    var u := UnsealKey(s, env, ref, [], []);
    if u.outcome.Threw? then Encrypted(Threw(u.outcome.error), ciphertextIn, u.after)
    else if !u.outcome.value.ok then
      var minusOne: int := -1;
      Encrypted(Returned(minusOne != 0), ciphertextIn, u.after)
    else match EncryptWithKey(c, contextOk, u.outcome.value.key, pastKey, u.outcome.value.iv, plaintext)
      case None => Encrypted(Returned(false), ciphertextIn, u.after)
      case Some(ct) => Encrypted(Returned(true), ct, u.after)
  }

  /** DataEncrypt::EncryptData: generate and seal first, then encrypt under the same
      reference; a runtime_error from either becomes false. */
  function EncryptData(s: TpmState, overwrite: bool, e: EncryptEnv, c: Cipher, ref: string,
                       dataIn: Bytes, dataOutIn: Bytes): (r: EncryptedData)
    ensures !r.ok ==> r.dataOut == dataOutIn
    ensures var g := GenerateSealedKey(s, e.generate, ref, e.keyRead, e.ivRead, overwrite);
            g.outcome.Threw? ==> !r.ok && r.after == g.after
    ensures var g := GenerateSealedKey(s, e.generate, ref, e.keyRead, e.ivRead, overwrite);
            g.outcome.Returned? ==>
              r == (var p := EncryptPlaintext(g.after, e.unseal, e.contextOk, e.pastKey, c, ref, dataIn, dataOutIn);
                    EncryptedData(p.outcome == Returned(true), p.ciphertext, p.after))
  {
    var g := GenerateSealedKey(s, e.generate, ref, e.keyRead, e.ivRead, overwrite);
    if g.outcome.Threw? then EncryptedData(false, dataOutIn, g.after)
    else if !g.outcome.value then EncryptedData(false, dataOutIn, g.after)
    else
      var p := EncryptPlaintext(g.after, e.unseal, e.contextOk, e.pastKey, c, ref, dataIn, dataOutIn);
      if p.outcome.Threw? then EncryptedData(false, dataOutIn, p.after)
      else if !p.outcome.value then EncryptedData(false, p.ciphertext, p.after)
      else EncryptedData(true, p.ciphertext, p.after)
  }

  // ------------------------------------------------------------ decryption

  /** The EVP part of DecryptCiphertext: create a context, then decrypt under the
      32 bytes read from the key's vector and the memory past it. */
  function DecryptWithKey(c: Cipher, contextOk: bool, key: Bytes, pastKey: Bytes, iv: Bytes, ciphertext: Bytes): (r: Option<Bytes>)
    ensures var k := BytesRead(key, pastKey, Aes256KeyLength);
            && (r.Some? <==> contextOk && c.decryptInit(k, iv) && c.decryptUpdate(k, iv, ciphertext).Some?
                             && c.decryptFinal(k, iv, ciphertext).Some?)
            && (r.Some? ==> r.value == c.decryptUpdate(k, iv, ciphertext).value + c.decryptFinal(k, iv, ciphertext).value)
  {
    if contextOk then Decrypt(c, BytesRead(key, pastKey, Aes256KeyLength), iv, ciphertext) else None
  }

  /** What the EVP part writes into the caller's buffer: the plaintext when it
      succeeds, nothing when the context cannot be created. */
  function DecryptWrittenWithKey(c: Cipher, contextOk: bool, key: Bytes, pastKey: Bytes, iv: Bytes, ciphertext: Bytes): (w: Bytes)
    ensures !contextOk ==> w == []
    ensures DecryptWithKey(c, contextOk, key, pastKey, iv, ciphertext).Some? ==>
              w == DecryptWithKey(c, contextOk, key, pastKey, iv, ciphertext).value
  {
    if contextOk then DecryptWritten(c, BytesRead(key, pastKey, Aes256KeyLength), iv, ciphertext) else []
  }

  /** DataDecrypt::DecryptCiphertext: -1 on any failure, else the plaintext length. */
  function DecryptCiphertext(s: TpmState, env: Session, contextOk: bool, pastKey: Bytes, c: Cipher, ref: string,
                             ciphertext: Bytes): (r: Decrypted)
    ensures r.after == Initialise(s, env).after
    ensures r.outcome.Threw? <==> Initialise(s, env).outcome.Threw?
    ensures r.outcome.Returned? && r.outcome.value != -1 ==> r.outcome.value == |r.written|
    ensures UnsealKey(s, env, ref, [], []).outcome == Returned(Unsealed(false, [], [])) ==>
              r.outcome == Returned(-1) && r.written == []
    ensures var u := UnsealKey(s, env, ref, [], []);
            u.outcome.Returned? && u.outcome.value.ok ==>
              var key, iv := u.outcome.value.key, u.outcome.value.iv;
              var p := DecryptWithKey(c, contextOk, key, pastKey, iv, ciphertext);
              && r.written == DecryptWrittenWithKey(c, contextOk, key, pastKey, iv, ciphertext)
              && (r.outcome == Returned(-1) <==> p.None?)
              && (p.Some? ==> r.outcome == Returned(|p.value|))
  {
    var u := UnsealKey(s, env, ref, [], []);
    if u.outcome.Threw? then Decrypted(Threw(u.outcome.error), [], u.after)
    else if !u.outcome.value.ok then Decrypted(Returned(-1), [], u.after)
    else
      var key, iv := u.outcome.value.key, u.outcome.value.iv;
      var written := DecryptWrittenWithKey(c, contextOk, key, pastKey, iv, ciphertext);
      match DecryptWithKey(c, contextOk, key, pastKey, iv, ciphertext)
      case None => Decrypted(Returned(-1), written, u.after)
      case Some(p) => Decrypted(Returned(|p|), written, u.after)
  }

  /** DataDecrypt::DecryptData: the out-parameter is assigned the first
      plaintext_length bytes of the buffer, unless DecryptCiphertext returned -1. */
  function DecryptData(s: TpmState, e: DecryptEnv, c: Cipher, ref: string, dataIn: Bytes, dataOutIn: Bytes): (r: DecryptedData)
    ensures var d := DecryptCiphertext(s, e.unseal, e.contextOk, e.pastKey, c, ref, dataIn);
            && r.after == d.after
            && (r.outcome.Threw? <==> d.outcome.Threw?)
            && (r.outcome == Returned(false) <==> d.outcome == Returned(-1))
            && (r.outcome != Returned(true) ==> r.dataOut == dataOutIn)
            && (r.outcome == Returned(true) ==> r.dataOut == d.written[..d.outcome.value])
  {
    var d := DecryptCiphertext(s, e.unseal, e.contextOk, e.pastKey, c, ref, dataIn);
    if d.outcome.Threw? then DecryptedData(Threw(d.outcome.error), dataOutIn, d.after)
    else if d.outcome.value == -1 then DecryptedData(Returned(false), dataOutIn, d.after)
    else DecryptedData(Returned(true), d.written[..d.outcome.value], d.after)
  }

  // ------------------------------------------------------------ properties

  /** The bytes fed to the cipher are the plaintext cut at its first NUL, and the
      ciphertext is their padded length: a non-empty multiple of the block size. */
  lemma CiphertextLength(c: Cipher, contextOk: bool, key: Bytes, pastKey: Bytes, iv: Bytes, plaintext: Bytes)
    requires Pkcs7Lengths(c)
    ensures var r := EncryptWithKey(c, contextOk, key, pastKey, iv, plaintext);
            r.Some? ==>
              && |r.value| == PaddedLength(CStrLen(plaintext))
              && |r.value| % BlockSize == 0 && |r.value| >= BlockSize
  {
    PaddedLengthBounds(CStrLen(plaintext));
  }

  /** What EncryptData hands back when it succeeds: either the padded encryption of
      the plaintext's strlen prefix, or, when the fresh key could not be unsealed,
      the out-parameter as it was. */
  lemma EncryptDataLength(s: TpmState, overwrite: bool, e: EncryptEnv, c: Cipher, ref: string, dataIn: Bytes, dataOutIn: Bytes)
    requires Pkcs7Lengths(c)
    ensures var en := EncryptData(s, overwrite, e, c, ref, dataIn, dataOutIn);
            en.ok ==> en.dataOut == dataOutIn || |en.dataOut| == PaddedLength(CStrLen(dataIn))
  {
    var g := GenerateSealedKey(s, e.generate, ref, e.keyRead, e.ivRead, overwrite);
    if g.outcome.Returned? {
      var u := UnsealKey(g.after, e.unseal, ref, [], []);
      if u.outcome.Returned? && u.outcome.value.ok {
        CiphertextLength(c, e.contextOk, u.outcome.value.key, e.pastKey, u.outcome.value.iv, dataIn);
      }
    }
  }

  /** When the reference cannot be unsealed, EncryptPlaintext reports success and
      leaves its output as it was. */
  lemma UnsealFailureReportsSuccess(s: TpmState, env: Session, contextOk: bool, pastKey: Bytes, c: Cipher, ref: string,
                                    plaintext: Bytes, ciphertextIn: Bytes)
    requires UnsealKey(s, env, ref, [], []).outcome.Returned?
    requires !UnsealKey(s, env, ref, [], []).outcome.value.ok
    ensures EncryptPlaintext(s, env, contextOk, pastKey, c, ref, plaintext, ciphertextIn).outcome == Returned(true)
    ensures EncryptPlaintext(s, env, contextOk, pastKey, c, ref, plaintext, ciphertextIn).ciphertext == ciphertextIn
  {
  }

  /** So EncryptData succeeds without encrypting whenever the freshly sealed key
      cannot be unsealed (for instance because both seals were refused). */
  lemma RefusedSealsStillSucceed(s: TpmState, overwrite: bool, e: EncryptEnv, c: Cipher, ref: string, dataIn: Bytes, dataOutIn: Bytes)
    requires Initialise(s, e.generate).outcome.Returned? && !e.generate.keyCallOk && !e.generate.ivCallOk
    requires KeyPath(ref) !in s.objects
    requires e.unseal.initOk && e.unseal.setAuthOk
    ensures EncryptData(s, overwrite, e, c, ref, dataIn, dataOutIn).ok
    ensures EncryptData(s, overwrite, e, c, ref, dataIn, dataOutIn).dataOut == dataOutIn
  {
    var g := GenerateSealedKey(s, e.generate, ref, e.keyRead, e.ivRead, overwrite);
    assert KeyPath(ref) !in g.after.objects;
  }

  /** The key that GenerateSealedKey seals and UnsealKey returns is 16 bytes long,
      half of what EVP_aes_256_cbc() reads as its key: the cipher is keyed by those
      16 bytes followed by the 16 bytes of memory after them. */
  lemma UnsealedKeyShorterThanCipherKey(s: TpmState, gen: Session, un: Session, ref: string, keyRead: Bytes, ivRead: Bytes,
                                        overwrite: bool, pastKey: Bytes)
    requires Initialise(s, gen).outcome.Returned? && gen.keyCallOk && gen.ivCallOk
    requires overwrite || (KeyPath(ref) !in s.objects && IvPath(ref) !in s.objects)
    requires un.initOk && un.setAuthOk && un.keyCallOk && un.ivCallOk
    requires |pastKey| >= Aes256KeyLength - SealedKeyLength
    ensures var u := UnsealKey(GenerateSealedKey(s, gen, ref, keyRead, ivRead, overwrite).after, un, ref, [], []);
            && u.outcome.Returned? && u.outcome.value.ok
            && |u.outcome.value.key| == SealedKeyLength < Aes256KeyLength
            && |u.outcome.value.iv| == AesIvLength
            && BytesRead(u.outcome.value.key, pastKey, Aes256KeyLength)
               == u.outcome.value.key + pastKey[..Aes256KeyLength - SealedKeyLength]
  {
    GenerateThenUnseal(s, gen, un, ref, keyRead, ivRead, overwrite, [], []);
  }

  /** For a 16-byte key the cipher key is decided as much by the 16 bytes of memory
      past the key's vector as by the key itself: two runs agree on it exactly when
      those bytes agree. */
  lemma CipherKeyDependsOnPastKey(key: Bytes, pastKey1: Bytes, pastKey2: Bytes)
    requires |key| == SealedKeyLength
    requires |pastKey1| >= Aes256KeyLength - SealedKeyLength && |pastKey2| >= Aes256KeyLength - SealedKeyLength
    ensures BytesRead(key, pastKey1, Aes256KeyLength) == BytesRead(key, pastKey2, Aes256KeyLength)
            <==> pastKey1[..Aes256KeyLength - SealedKeyLength] == pastKey2[..Aes256KeyLength - SealedKeyLength]
  {
    var k1, k2 := BytesRead(key, pastKey1, Aes256KeyLength), BytesRead(key, pastKey2, Aes256KeyLength);
    if k1 == k2 {
      assert k1[SealedKeyLength..] == pastKey1[..Aes256KeyLength - SealedKeyLength];
      assert k2[SealedKeyLength..] == pastKey2[..Aes256KeyLength - SealedKeyLength];
    }
  }

  /** DecryptData's plaintext fits the buffer it allocates, of the ciphertext's size. */
  lemma PlaintextFitsBuffer(s: TpmState, env: Session, contextOk: bool, pastKey: Bytes, c: Cipher, ref: string, ciphertext: Bytes)
    requires Pkcs7Lengths(c)
    ensures var d := DecryptCiphertext(s, env, contextOk, pastKey, c, ref, ciphertext);
            && |d.written| <= |ciphertext|
            && (d.outcome.Returned? && d.outcome.value != -1 ==>
                  d.outcome.value <= |ciphertext| && |ciphertext| > 0 && |ciphertext| % BlockSize == 0)
  {
    var u := UnsealKey(s, env, ref, [], []);
    if u.outcome.Returned? && u.outcome.value.ok {
      DecryptLength(c, BytesRead(u.outcome.value.key, pastKey, Aes256KeyLength), u.outcome.value.iv, ciphertext);
    }
  }

  /** The round trip: when EncryptData succeeds with a key it could generate, seal
      and unseal, a later DecryptData under the same reference that gets past
      initialisation and unsealing gives back the plaintext up to its first NUL,
      provided the memory past the unsealed key's vector holds the same bytes in
      both runs. */
  lemma RoundTrip(s: TpmState, overwrite: bool, e: EncryptEnv, d: DecryptEnv, c: Cipher, ref: string, plaintext: Bytes,
                  out0: Bytes, out1: Bytes)
    requires Inverts(c)
    requires Initialise(s, e.generate).outcome.Returned? && e.generate.keyCallOk && e.generate.ivCallOk
    requires overwrite || (KeyPath(ref) !in s.objects && IvPath(ref) !in s.objects)
    requires e.unseal.initOk && e.unseal.setAuthOk && e.unseal.keyCallOk && e.unseal.ivCallOk
    requires d.unseal.initOk && d.unseal.setAuthOk && d.unseal.keyCallOk && d.unseal.ivCallOk && d.contextOk
    requires e.pastKey == d.pastKey
    ensures var en := EncryptData(s, overwrite, e, c, ref, plaintext, out0);
            en.ok ==> DecryptData(en.after, d, c, ref, en.dataOut, out1) == DecryptedData(Returned(true), UpToNul(plaintext), en.after)
  {
    var g := GenerateSealedKey(s, e.generate, ref, e.keyRead, e.ivRead, overwrite);
    var key, iv := RandomData(SealedKeyLength, e.keyRead), RandomData(SealedIvLength, e.ivRead);
    GenerateThenUnseal(s, e.generate, e.unseal, ref, e.keyRead, e.ivRead, overwrite, [], []);
    GenerateThenUnseal(s, e.generate, d.unseal, ref, e.keyRead, e.ivRead, overwrite, [], []);
    var en := EncryptData(s, overwrite, e, c, ref, plaintext, out0);
    if en.ok {
      assert en.after == g.after;
      var cipherKey := BytesRead(key, e.pastKey, Aes256KeyLength);
      var ct := Encrypt(c, cipherKey, iv, UpToNul(plaintext));
      assert ct.Some? && en.dataOut == ct.value;
      assert Decrypt(c, cipherKey, iv, ct.value) == Some(UpToNul(plaintext));
    }
  }

  /** For a plaintext without NUL bytes the round trip is exact; one with a NUL byte
      never comes back whole. */
  lemma RoundTripExactIffNoNul(s: TpmState, overwrite: bool, e: EncryptEnv, d: DecryptEnv, c: Cipher, ref: string, plaintext: Bytes,
                               out0: Bytes, out1: Bytes)
    requires Inverts(c)
    requires Initialise(s, e.generate).outcome.Returned? && e.generate.keyCallOk && e.generate.ivCallOk
    requires overwrite || (KeyPath(ref) !in s.objects && IvPath(ref) !in s.objects)
    requires e.unseal.initOk && e.unseal.setAuthOk && e.unseal.keyCallOk && e.unseal.ivCallOk
    requires d.unseal.initOk && d.unseal.setAuthOk && d.unseal.keyCallOk && d.unseal.ivCallOk && d.contextOk
    requires e.pastKey == d.pastKey
    requires EncryptData(s, overwrite, e, c, ref, plaintext, out0).ok
    ensures var en := EncryptData(s, overwrite, e, c, ref, plaintext, out0);
            DecryptData(en.after, d, c, ref, en.dataOut, out1).dataOut == plaintext <==> 0 !in plaintext
  {
    RoundTrip(s, overwrite, e, d, c, ref, plaintext, out0, out1);
  }
}
