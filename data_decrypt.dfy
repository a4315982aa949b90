/** src/data_decrypt.cpp as it runs: class DataDecrypt's static operations, against
    a Common.Tpm and an abstract EVP cipher. Reading the input file and writing the
    output are inputs, as in DataEncrypt. */
module DataDecrypt {
  import opened Wrappers
  import opened Bytes
  import opened Evp
  import Lifecycle
  import Pipeline
  import Common

  /** The EVP part of DecryptCiphertext: Update fills the caller's buffer from offset
      0, Final continues at offset `len`, and the result is their total length, or
      -1 as soon as one step fails. */
  method DecryptWithKey(c: Cipher, contextOk: bool, key: Bytes, pastKey: Bytes, iv: Bytes, ciphertext: Bytes,
                        plaintext: array<uint8>)
    returns (plaintextLen: int)
    requires Pkcs7Lengths(c)
    requires |ciphertext| <= plaintext.Length
    modifies plaintext
    ensures var w := Pipeline.DecryptWrittenWithKey(c, contextOk, key, pastKey, iv, ciphertext);
            |w| <= |ciphertext| && plaintext[..] == w + old(plaintext[|w|..])
    ensures plaintextLen == match Pipeline.DecryptWithKey(c, contextOk, key, pastKey, iv, ciphertext)
                            case None => -1
                            case Some(p) => |p|
  {
    // EVP_aes_256_cbc() reads a 32-byte key from the vector's data pointer
    var cipherKey := BytesRead(key, pastKey, Aes256KeyLength);
    DecryptLength(c, cipherKey, iv, ciphertext);
    if !contextOk {
      return -1;
    }
    if !c.decryptInit(cipherKey, iv) {
      return -1;
    }
    var update := c.decryptUpdate(cipherKey, iv, ciphertext);
    if update.None? {
      return -1;
    }
    var len := |update.value|;
    forall i | 0 <= i < len {
      plaintext[i] := update.value[i];
    }
    assert plaintext[..] == update.value + old(plaintext[len..]);
    plaintextLen := len;
    var final := c.decryptFinal(cipherKey, iv, ciphertext);
    if final.None? {
      return -1;
    }
    forall i | 0 <= i < |final.value| {
      plaintext[len + i] := final.value[i];
    }
    plaintextLen := plaintextLen + |final.value|;
    assert plaintext[..] == update.value + final.value + old(plaintext[plaintextLen..]) by {
      assert plaintext[..len] == update.value;
      assert plaintext[len..plaintextLen] == final.value;
      assert plaintext[plaintextLen..] == old(plaintext[plaintextLen..]);
      assert plaintext[..] == plaintext[..len] + plaintext[len..plaintextLen] + plaintext[plaintextLen..];
    }
  }

  /** DataDecrypt::DecryptCiphertext, writing into the caller's `plaintext` buffer. */
  method DecryptCiphertext(tpm: Common.Tpm, env: Lifecycle.Session, contextOk: bool, pastKey: Bytes, c: Cipher,
                           ciphertext: Bytes, ref: string, plaintext: array<uint8>) returns (r: Outcome<int>)
    requires Pkcs7Lengths(c)
    requires |ciphertext| <= plaintext.Length
    modifies tpm, plaintext
    ensures var d := Pipeline.DecryptCiphertext(old(tpm.State()), env, contextOk, pastKey, c, ref, ciphertext);
            && r == d.outcome && tpm.State() == d.after
            && |d.written| <= plaintext.Length && plaintext[..] == d.written + old(plaintext[|d.written|..])
  {
    var unsealed, key, iv := tpm.UnsealKey(ref, env, [], []);
    if unsealed.Threw? {
      return Threw(unsealed.error);
    }
    if !unsealed.value {
      return Returned(-1);
    }
    var plaintextLen := DecryptWithKey(c, contextOk, key, pastKey, iv, ciphertext, plaintext);
    return Returned(plaintextLen);
  }

  /** DataDecrypt::DecryptData: the buffer has the ciphertext's size. */
  method DecryptData(tpm: Common.Tpm, e: Pipeline.DecryptEnv, c: Cipher, dataIn: Bytes, dataOutIn: Bytes, ref: string)
    returns (r: Outcome<bool>, dataOut: Bytes)
    requires Pkcs7Lengths(c)
    modifies tpm
    ensures var d := Pipeline.DecryptData(old(tpm.State()), e, c, ref, dataIn, dataOutIn);
            r == d.outcome && dataOut == d.dataOut && tpm.State() == d.after
  {
    var plaintext := new uint8[|dataIn|];
    var plaintextLength := DecryptCiphertext(tpm, e.unseal, e.contextOk, e.pastKey, c, dataIn, ref, plaintext);
    if plaintextLength.Threw? {
      // not caught here: the runtime_error leaves DecryptData
      return Threw(plaintextLength.error), dataOutIn;
    }
    if plaintextLength.value == -1 {
      return Returned(false), dataOutIn;
    }
    dataOut := plaintext[..plaintextLength.value];
    r := Returned(true);
  }

  /** DataDecrypt::DecryptFile: `fileIn` is the file's contents (None when it cannot
      be opened), `writeOk` whether StringToFile succeeds, and `fileOut` the bytes
      handed to StringToFile (None when it is not called). */
  method DecryptFile(tpm: Common.Tpm, e: Pipeline.DecryptEnv, c: Cipher, fileIn: Option<Bytes>, writeOk: bool, ref: string)
    returns (r: Outcome<bool>, fileOut: Option<Bytes>)
    requires Pkcs7Lengths(c)
    modifies tpm
    ensures fileIn.None? ==> r == Returned(false) && fileOut.None? && tpm.State() == old(tpm.State())
    ensures fileIn.Some? ==>
              var d := Pipeline.DecryptData(old(tpm.State()), e, c, ref, fileIn.value, []);
              && tpm.State() == d.after
              && (d.outcome.Threw? ==> r == d.outcome && fileOut.None?)
              && (d.outcome == Returned(false) ==> r == Returned(false) && fileOut.None?)
              && (d.outcome == Returned(true) ==> fileOut == Some(d.dataOut) && r == Returned(writeOk))
  {
    if fileIn.None? {
      return Returned(false), None;
    }
    var encryptedContents := fileIn.value;
    var decryptedContents: Bytes := [];
    var decrypted;
    decrypted, decryptedContents := DecryptData(tpm, e, c, encryptedContents, decryptedContents, ref);
    if decrypted.Threw? {
      return Threw(decrypted.error), None;
    }
    if !decrypted.value {
      return Returned(false), None;
    }
    fileOut := Some(decryptedContents);
    if !writeOk {
      return Returned(false), fileOut;
    }
    return Returned(true), fileOut;
  }
}
