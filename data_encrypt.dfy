/** src/data_encrypt.cpp as it runs: class DataEncrypt's static operations, against
    a Common.Tpm and an abstract EVP cipher. File reading and writing are inputs:
    the result of FileToString, and whether StringToFile succeeds. */
module DataEncrypt {
  import opened Wrappers
  import opened Bytes
  import opened Evp
  import Lifecycle
  import Pipeline
  import Common

  /** The EVP part of EncryptPlaintext: the ciphertext buffer is filled by Update at
      offset 0 and by Final at offset `len`, and the out-parameter is assigned its
      first ciphertext_len bytes on success only. The buffer has room for the input
      plus one block; the 2n bytes of the source are too few for short inputs. */
  method EncryptWithKey(c: Cipher, contextOk: bool, key: Bytes, pastKey: Bytes, iv: Bytes, plaintext: Bytes, ciphertextIn: Bytes)
    returns (ok: bool, ciphertextOut: Bytes)
    requires Pkcs7Lengths(c)
    ensures ok <==> Pipeline.EncryptWithKey(c, contextOk, key, pastKey, iv, plaintext).Some?
    ensures ok ==> ciphertextOut == Pipeline.EncryptWithKey(c, contextOk, key, pastKey, iv, plaintext).value
    ensures ok ==> |ciphertextOut| == PaddedLength(CStrLen(plaintext))
    ensures !ok ==> ciphertextOut == ciphertextIn
  {
    if !contextOk {
      return false, ciphertextIn;
    }
    // EVP_aes_256_cbc() reads a 32-byte key from the vector's data pointer
    var cipherKey := BytesRead(key, pastKey, Aes256KeyLength);
    if !c.encryptInit(cipherKey, iv) {
      return false, ciphertextIn;
    }
    var ciphertext := new uint8[CiphertextCapacity(|plaintext|)];
    var input := plaintext[..CStrLen(plaintext)];
    var update := c.encryptUpdate(cipherKey, iv, input);
    if update.None? {
      return false, ciphertextIn;
    }
    var len := |update.value|;
    CiphertextCapacitySuffices(|input|, |plaintext|);
    forall i | 0 <= i < len {
      ciphertext[i] := update.value[i];
    }
    var ciphertextLen := len;
    var final := c.encryptFinal(cipherKey, iv, input);
    if final.None? {
      return false, ciphertextIn;
    }
    forall i | 0 <= i < |final.value| {
      ciphertext[len + i] := final.value[i];
    }
    ciphertextLen := ciphertextLen + |final.value|;
    assert ciphertext[..ciphertextLen] == update.value + final.value by {
      assert ciphertext[..len] == update.value;
      assert ciphertext[len..ciphertextLen] == final.value;
      assert ciphertext[..ciphertextLen] == ciphertext[..len] + ciphertext[len..ciphertextLen];
    }
    return true, ciphertext[..ciphertextLen];
  }

  /** DataEncrypt::EncryptPlaintext. */
  method EncryptPlaintext(tpm: Common.Tpm, env: Lifecycle.Session, contextOk: bool, pastKey: Bytes, c: Cipher, ref: string,
                          plaintext: Bytes, ciphertextIn: Bytes) returns (r: Outcome<bool>, ciphertextOut: Bytes)
    requires Pkcs7Lengths(c)
    modifies tpm
    ensures var e := Pipeline.EncryptPlaintext(old(tpm.State()), env, contextOk, pastKey, c, ref, plaintext, ciphertextIn);
            r == e.outcome && ciphertextOut == e.ciphertext && tpm.State() == e.after
  {
    var unsealed, key, iv := tpm.UnsealKey(ref, env, [], []);
    if unsealed.Threw? {
      return Threw(unsealed.error), ciphertextIn;
    }
    if !unsealed.value {
      // `return -1;` in a function returning bool
      var minusOne: int := -1;
      return Returned(minusOne != 0), ciphertextIn;
    }
    var ok;
    ok, ciphertextOut := EncryptWithKey(c, contextOk, key, pastKey, iv, plaintext, ciphertextIn);
    r := Returned(ok);
  }

  /** DataEncrypt::EncryptData. */
  method EncryptData(tpm: Common.Tpm, e: Pipeline.EncryptEnv, c: Cipher, dataIn: Bytes, dataOutIn: Bytes, ref: string)
    returns (ok: bool, dataOut: Bytes)
    requires Pkcs7Lengths(c)
    modifies tpm
    ensures var d := Pipeline.EncryptData(old(tpm.State()), tpm.overwriteOnSeal, e, c, ref, dataIn, dataOutIn);
            ok == d.ok && dataOut == d.dataOut && tpm.State() == d.after
  {
    dataOut := dataOutIn;
    var generated := tpm.GenerateSealedKey(ref, e.generate, e.keyRead, e.ivRead);
    if generated.Threw? {
      // the runtime_error is caught
      return false, dataOut;
    }
    if !generated.value {
      return false, dataOut;
    }
    var encrypted;
    encrypted, dataOut := EncryptPlaintext(tpm, e.unseal, e.contextOk, e.pastKey, c, ref, dataIn, dataOut);
    if encrypted.Threw? {
      // the runtime_error is caught
      return false, dataOut;
    }
    if !encrypted.value {
      return false, dataOut;
    }
    return true, dataOut;
  }

  /** DataEncrypt::EncryptFile: `fileIn` is what FileToString read (None when the
      file cannot be opened), `writeOk` whether StringToFile succeeds, and `fileOut`
      the bytes handed to StringToFile (None when it is not called). */
  method EncryptFile(tpm: Common.Tpm, e: Pipeline.EncryptEnv, c: Cipher, fileIn: Option<Bytes>, writeOk: bool, ref: string)
    returns (ok: bool, fileOut: Option<Bytes>)
    requires Pkcs7Lengths(c)
    modifies tpm
    ensures fileIn.None? ==> !ok && fileOut.None? && tpm.State() == old(tpm.State())
    ensures fileIn.Some? ==>
              var d := Pipeline.EncryptData(old(tpm.State()), tpm.overwriteOnSeal, e, c, ref, fileIn.value, []);
              && tpm.State() == d.after
              && (!d.ok ==> !ok && fileOut.None?)
              && (d.ok ==> fileOut == Some(d.dataOut) && ok == writeOk)
  {
    if fileIn.None? {
      return false, None;
    }
    var fileContents := fileIn.value;
    var encryptedContents: Bytes := [];
    var encrypted;
    encrypted, encryptedContents := EncryptData(tpm, e, c, fileContents, encryptedContents, ref);
    if !encrypted {
      return false, None;
    }
    fileOut := Some(encryptedContents);
    if !writeOk {
      return false, fileOut;
    }
    return true, fileOut;
  }
}
