/** Stand-in for OpenSSL's EVP interface driven with EVP_aes_256_cbc(): AES
    (FIPS 197) in CBC mode (NIST SP 800-38A, section 6.2) with PKCS #7 padding
    (RFC 5652, section 6.3). The block cipher itself is not modelled: a Cipher is
    any choice of the six EVP entry points, each a total function of the key, the
    IV and the single input buffer the application passes. Facts about real AES
    that the model relies on are spelled out as predicates (Pkcs7Lengths, Inverts)
    and required where they are used. */
module Evp {
  import opened Wrappers
  import opened Bytes

  const BlockSize: nat := 16
  /** The key length EVP_aes_256_cbc() reads. */
  const Aes256KeyLength: nat := 32
  const AesIvLength: nat := 16

  /** EVP_{Encrypt,Decrypt}{Init_ex,Update,Final_ex} for one context used for a
      single Update call; None is a return value other than 1. */
  datatype Cipher = Cipher(
    encryptInit: (Bytes, Bytes) -> bool,
    encryptUpdate: (Bytes, Bytes, Bytes) -> Option<Bytes>,
    encryptFinal: (Bytes, Bytes, Bytes) -> Option<Bytes>,
    decryptInit: (Bytes, Bytes) -> bool,
    decryptUpdate: (Bytes, Bytes, Bytes) -> Option<Bytes>,
    decryptFinal: (Bytes, Bytes, Bytes) -> Option<Bytes>)

  /** Size of the PKCS #7 padded encryption of n bytes: always at least one byte of
      padding, up to the next multiple of the block size. */
  function PaddedLength(n: nat): nat
  {
    BlockSize * (n / BlockSize + 1)
  }

  /** Bytes a fresh decryption context emits from one Update over n bytes with
      padding on: whole blocks, holding back the last one when n is block-aligned. */
  function DecryptUpdateLength(n: nat): nat
  {
    if n > 0 && n % BlockSize == 0 then n - BlockSize else BlockSize * (n / BlockSize)
  }

  /** The output lengths of CBC with PKCS #7 padding for one Update and one Final:
      encryption emits the whole blocks of the input and then one padded block;
      decryption emits DecryptUpdateLength bytes, and Final succeeds only on a
      non-empty block-aligned input, emitting fewer than a block. */
  ghost predicate Pkcs7Lengths(c: Cipher)
  {
    && (forall key, iv, m :: c.encryptUpdate(key, iv, m).Some? ==>
          |c.encryptUpdate(key, iv, m).value| == BlockSize * (|m| / BlockSize))
    && (forall key, iv, m :: c.encryptFinal(key, iv, m).Some? ==>
          |c.encryptFinal(key, iv, m).value| == BlockSize)
    && (forall key, iv, x :: c.decryptUpdate(key, iv, x).Some? ==>
          |c.decryptUpdate(key, iv, x).value| == DecryptUpdateLength(|x|))
    && (forall key, iv, x :: c.decryptFinal(key, iv, x).Some? ==>
          |x| > 0 && |x| % BlockSize == 0 && |c.decryptFinal(key, iv, x).value| < BlockSize)
  }

  /** The `n` bytes EVP reads through a pointer to the start of `buffer`, where
      `beyond` is the memory that follows the buffer: a buffer shorter than `n`
      is read past its end. */
  function BytesRead(buffer: Bytes, beyond: Bytes, n: nat): (r: Bytes)
    ensures |buffer| >= n ==> r == buffer[..n]
    ensures |buffer| < n <= |buffer| + |beyond| ==> r == buffer + beyond[..n - |buffer|]
  {
    var memory := buffer + beyond;
    if |memory| >= n then memory[..n] else memory
  }

  /** Init, one Update over `m`, Final, in that order; the ciphertext is the
      Update output followed by the Final output, and has the padded length. */
  function Encrypt(c: Cipher, key: Bytes, iv: Bytes, m: Bytes): (r: Option<Bytes>)
    ensures r.Some? <==> c.encryptInit(key, iv) && c.encryptUpdate(key, iv, m).Some? && c.encryptFinal(key, iv, m).Some?
    ensures r.Some? ==> r.value == c.encryptUpdate(key, iv, m).value + c.encryptFinal(key, iv, m).value
    ensures Pkcs7Lengths(c) && r.Some? ==> |r.value| == PaddedLength(|m|)
  {
    if !c.encryptInit(key, iv) then None
    else match c.encryptUpdate(key, iv, m)
      case None => None
      case Some(u) =>
        match c.encryptFinal(key, iv, m)
        case None => None
        case Some(f) => Some(u + f)
  }

  /** Init, one Update over `x`, padding-checked Final, in that order. */
  function Decrypt(c: Cipher, key: Bytes, iv: Bytes, x: Bytes): (r: Option<Bytes>)
    ensures r.Some? <==> c.decryptInit(key, iv) && c.decryptUpdate(key, iv, x).Some? && c.decryptFinal(key, iv, x).Some?
    ensures r.Some? ==> r.value == c.decryptUpdate(key, iv, x).value + c.decryptFinal(key, iv, x).value
  {
    if !c.decryptInit(key, iv) then None
    else match c.decryptUpdate(key, iv, x)
      case None => None
      case Some(u) =>
        match c.decryptFinal(key, iv, x)
        case None => None
        case Some(f) => Some(u + f)
  }

  /** What a decryption writes into the caller's buffer from offset 0: the
      plaintext on success, and the Update output that stays there when Final
      then fails. */
  function DecryptWritten(c: Cipher, key: Bytes, iv: Bytes, x: Bytes): (w: Bytes)
    ensures Decrypt(c, key, iv, x).Some? ==> w == Decrypt(c, key, iv, x).value
    ensures Decrypt(c, key, iv, x).None? && c.decryptInit(key, iv) && c.decryptUpdate(key, iv, x).Some? ==>
              w == c.decryptUpdate(key, iv, x).value
    ensures !c.decryptInit(key, iv) || c.decryptUpdate(key, iv, x).None? ==> w == []
  {
    if !c.decryptInit(key, iv) then []
    else match c.decryptUpdate(key, iv, x)
      case None => []
      case Some(u) =>
        match c.decryptFinal(key, iv, x)
        case None => u
        case Some(f) => u + f
  }

  /** Decryption with the key and IV used to encrypt gives back the plaintext. */
  ghost predicate Inverts(c: Cipher)
  {
    forall key, iv, m :: Encrypt(c, key, iv, m).Some? ==> Decrypt(c, key, iv, Encrypt(c, key, iv, m).value) == Some(m)
  }

  /** The padded length is a non-zero multiple of the block size, longer than the
      input by one to sixteen bytes. */
  lemma PaddedLengthBounds(n: nat)
    ensures PaddedLength(n) % BlockSize == 0
    ensures n < PaddedLength(n) <= n + BlockSize
    ensures PaddedLength(n) >= BlockSize
  {
  }

  /** Successful decryption needs a non-empty block-aligned input and gives back
      less than the input but no more than a block less. What is written into the
      buffer never exceeds the input length, and on success it is the output. */
  lemma DecryptLength(c: Cipher, key: Bytes, iv: Bytes, x: Bytes)
    requires Pkcs7Lengths(c)
    ensures |DecryptWritten(c, key, iv, x)| <= |x|
    ensures Decrypt(c, key, iv, x).Some? ==>
              && DecryptWritten(c, key, iv, x) == Decrypt(c, key, iv, x).value
              && |x| > 0 && |x| % BlockSize == 0
              && |x| - BlockSize <= |Decrypt(c, key, iv, x).value| < |x|
  {
    if c.decryptInit(key, iv) && c.decryptUpdate(key, iv, x).Some? {
      assert |c.decryptUpdate(key, iv, x).value| == DecryptUpdateLength(|x|);
      if c.decryptFinal(key, iv, x).Some? {
        assert |c.decryptFinal(key, iv, x).value| < BlockSize;
      }
    }
  }

  // ------------------------------------------- the encryption output buffer

  /** The buffer data_encrypt.cpp declares for the ciphertext: twice the length of
      the plaintext string. */
  function AsWrittenCapacity(length: nat): nat
  {
    2 * length
  }

  /** A buffer that holds any padded output: the input length plus one block. */
  function CiphertextCapacity(length: nat): nat
  {
    length + BlockSize
  }

  /** The as-written buffer, sized by the plaintext's length, is too small for
      the padded encryption of its strlen prefix exactly when the plaintext is
      shorter than 8 bytes (the empty plaintext among them). */
  lemma AsWrittenCapacityOverflows(plaintext: Bytes)
    ensures PaddedLength(CStrLen(plaintext)) > AsWrittenCapacity(|plaintext|) <==> |plaintext| < 8
  {
    PaddedLengthBounds(CStrLen(plaintext));
  }

  /** A 3-byte plaintext is enough to overflow it: 16 bytes into 6. */
  lemma AsWrittenCapacityCounterexample()
    ensures PaddedLength(CStrLen([1, 2, 3])) == 16 && AsWrittenCapacity(3) == 6
  {
  }

  /** Input length plus a block always suffices, also when strlen stops early. */
  lemma CiphertextCapacitySuffices(n: nat, length: nat)
    requires n <= length
    ensures PaddedLength(n) <= CiphertextCapacity(length)
  {
    PaddedLengthBounds(n);
  }
}
