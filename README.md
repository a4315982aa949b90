# tpm-demo: the sealed-key lifecycle and the AES-256-CBC pipelines, in Dafny

tpm-demo encrypts files with a symmetric key that never leaves the TPM in plaintext. Encrypting a file under a key reference generates a fresh 16-byte key and a 16-byte IV, seals both into the TPM through the TPM2 Feature API (FAPI), unseals them again, and runs OpenSSL's EVP AES-256-CBC over the file's contents. Decrypting unseals the same pair and runs the cipher backwards. Before every seal or unseal the code connects to the TPM and registers an authentication callback. It provisions the TPM only if the marker file `fapi_provisioned` is absent, and writes that file once provisioning succeeds. A reset deletes the whole keystore and the marker.

This project models that logic and proves properties of it. Both foreign libraries are replaced by stand-ins:

- `Fapi` (fapi.dfy) is the FAPI keystore as a map from object path to sealed object (object type, policy path, authorisation value, bytes). It has value-level `CreateSeal`, `Unseal` and `Delete`. Each call's success is an input. Whether `CreateSeal` replaces an existing object is a model parameter (`Common.Tpm.overwriteOnSeal`), because the application cannot see it.
- `Evp` (evp.dfy) is OpenSSL's EVP interface as a datatype of six total functions (init, update and final, for each direction). Two facts about real AES-CBC with PKCS #7 padding are stated as predicates and required where used:
  - `Pkcs7Lengths`: the output lengths of one update and one final. This is RFC 5652, section 6.3, over NIST SP 800-38A, section 6.2.
  - `Inverts`: decrypting with the same key and IV returns the plaintext.

The code's own logic has two layers:

- **Spec functions.** `Lifecycle` (src/common.cpp) and `Pipeline` (src/data_encrypt.cpp and src/data_decrypt.cpp) are pure functions over `TpmState`, which holds the keystore, the marker (a boolean) and the number of `Fapi_Provision` calls.
- **Imperative code.** `Common.Tpm` is a class whose fields are that state. `DataEncrypt` and `DataDecrypt` are methods that fill arrays at the offsets the source uses. Each method does the source's steps in order, with the same early returns and throws. It is proved to return what its `Lifecycle` or `Pipeline` function returns and to leave the state that function gives.

The properties are lemmas over the spec functions.

A C++ `runtime_error` becomes `Wrappers.Outcome.Threw`. Out-parameters are passed in with their previous contents and returned, so "left unchanged" can be stated. Each foreign call's result is modelled as an input:

- `Lifecycle.Session` holds the results of one lifecycle call: initialise, set-auth, provision, marker write, and the key and IV seal or unseal.
- `Lifecycle.ResetFaults` holds the results of one reset.
- `contextOk` says whether `EVP_CIPHER_CTX_new` succeeded.
- The file read is an `Option<Bytes>`, and whether the write succeeds is a boolean.
- The bytes that `/dev/random` delivered are an input too.
- `pastKey` is the memory that follows the 16-byte key vector. `EVP_aes_256_cbc()` reads it as bytes 16 to 31 of its key (`Evp.BytesRead`).

The model keeps these behaviours of the code as they are, even where the names or comments suggest otherwise:

- `AuthCallback` rejects only a null object path, not an empty one.
- `GenerateSealedKey` returns true even when both seals fail.
- Encryption stops at the first NUL. So the round trip returns the plaintext up to its first NUL, not the whole plaintext (`Pipeline.RoundTrip`, `Pipeline.RoundTripExactIffNoNul`).
- Nothing checks the key length. A 16-byte key is handed to a cipher that reads 32 bytes, so half of the AES key is whatever memory follows the vector (`Pipeline.UnsealedKeyShorterThanCipherKey`, `Pipeline.CipherKeyDependsOnPastKey`).
- `DecryptData` and `DecryptFile` do not catch the lifecycle's `runtime_error`. `EncryptData` does.
- When unsealing fails, `EncryptPlaintext` returns `-1` from a `bool` function. That converts to `true`, so `EncryptData` reports success and the output file stays empty (`Pipeline.UnsealFailureReportsSuccess`, `Pipeline.RefusedSealsStillSucceed`).

## Model

| member | source | states |
|---|---|---|
| `Bytes.CStrLen` | src/data_encrypt.cpp:156 | the length `strlen` returns: no NUL before it, a NUL at it unless it is the whole string |
| `Bytes.UpToNul` | src/data_encrypt.cpp:124-156 | the bytes fed to the cipher are a NUL-free prefix of the plaintext, the whole plaintext exactly when it has no NUL |
| `Lifecycle.KeyPath` | src/common.cpp:27 | the key path is the root `"/HS/SRK/"` followed by the reference |
| `Lifecycle.IvPath` | src/common.cpp:98 | the IV path is the key path followed by `"_iv"` |
| `Lifecycle.KeyPathInjective` | src/common.cpp:27 | the key path `"/HS/SRK/" + ref` determines the reference |
| `Lifecycle.IvPathIsSuffixedKeyPath` | src/common.cpp:98 | the IV path is the key path with `"_iv"` appended, i.e. the key path of `ref + "_iv"` |
| `Lifecycle.KeyPathMeetsIvPath` | src/common.cpp:197 | a key path and an IV path coincide exactly when the references differ by `"_iv"`; a reference's own two paths never coincide |
| `Lifecycle.PathsUnderRoot` | src/common.cpp:129 | both paths lie under the keystore root `"/"` |
| `Lifecycle.AuthCallback` | src/common.cpp:213-225 | a null object path gives `TSS2_FAPI_RC_BAD_VALUE` and leaves `*auth` alone; any other path gives success and the fixed secret `"default_auth_key"` |
| `Lifecycle.AuthCallbackIgnoresDescription` | src/common.cpp:213-225 | the callback's answer does not depend on the description |
| `Lifecycle.PresentedAuth` | src/common.cpp:43 | the callback registered with `Fapi_SetAuthCB` hands FAPI the fixed secret for every object path |
| `Lifecycle.RandomData` | src/common.cpp:338-355 | the filled vector has the requested length, holding the bytes read and zeros after a short read |
| `Lifecycle.Initialise` | src/common.cpp:34-78 | the gate shared by unseal and generate: it throws iff init or set-auth fails, or the marker is absent and provisioning or the marker write fails; it provisions exactly when init and set-auth succeeded and the marker was absent; success leaves the marker present; it never touches the keystore |
| `Lifecycle.GenerateSealedKey` | src/common.cpp:123-208 | it returns (true) iff the gate does; when it throws, nothing is sealed; no path other than the two derived ones changes |
| `Lifecycle.UnsealKey` | src/common.cpp:21-116 | the keystore is not changed; the result is true iff both unseals are accepted, both objects exist and carry the callback's secret; on success the outputs are exactly the stored bytes, otherwise both keep their old contents |
| `Lifecycle.ResetTpm` | src/common.cpp:239-286 | if init or set-auth fails, nothing changes; otherwise a successful delete leaves nothing under `"/"`, and the marker survives only if it existed and its removal failed (the error is not propagated) |
| `Lifecycle.ProvisionAtMostOnce` | src/common.cpp:51-78 | after a call that got past the gate, the next call does not provision; one call provisions at most once |
| `Lifecycle.GenerateThenUnsealProvisionsAtMostOnce` | src/common.cpp:153-180 | generate followed by unseal provisions at most once in total, if generate did not throw |
| `Lifecycle.LostMarkerProvisionsAgain` | src/common.cpp:65-77 | if provisioning succeeds but the marker cannot be written, the call throws and the next call provisions a second time |
| `Lifecycle.GenerateSealsBothPaths` | src/common.cpp:185-202 | with both seals accepted, exactly 16 key bytes sit at the key path and 16 IV bytes at the IV path, both sealed as `"noDa"` objects (no dictionary-attack protection) with an empty policy path and the fixed secret |
| `Lifecycle.PartialSealStillReturnsTrue` | src/common.cpp:189-207 | a refused key seal is not rolled back and does not stop the IV seal, and the call still returns true |
| `Lifecycle.GenerateThenUnseal` | src/common.cpp:86-110 | right after both seals are accepted, an unseal that gets past the gate succeeds and returns exactly the generated key and IV |
| `Lifecycle.UnsealTwiceAgrees` | src/common.cpp:86-115 | two successful unseals in a row return the same key and IV |
| `Lifecycle.ResetThenUnsealFails` | src/common.cpp:266 | after a reset whose delete succeeded, unsealing any reference throws or returns false with its outputs untouched |
| `Common.Tpm.Initialise` | src/common.cpp:34-78 | performs the gate on the object's fields and ends in the state and result of `Lifecycle.Initialise` |
| `Common.Tpm.UnsealKey` | src/common.cpp:21-116 | ends in the state, result and out-parameters that `Lifecycle.UnsealKey` gives |
| `Common.Tpm.GenerateSealedKey` | src/common.cpp:123-208 | ends in the state and result that `Lifecycle.GenerateSealedKey` gives |
| `Common.Tpm.ResetTpm` | src/common.cpp:239-286 | ends in the state that `Lifecycle.ResetTpm` gives |
| `Evp.PaddedLengthBounds` | src/data_encrypt.cpp:167-173 | PKCS #7 output is a non-zero multiple of 16, one to sixteen bytes longer than the input |
| `Evp.BytesRead` | src/data_encrypt.cpp:141 | a read of `n` bytes through a buffer's data pointer takes the buffer's first `n` bytes, and when the buffer is shorter continues into the memory after it |
| `Evp.Encrypt` | src/data_encrypt.cpp:141-173 | encryption succeeds exactly when init, update and final all succeed; the ciphertext is the update output followed by the final output, of exactly the padded length of the input |
| `Evp.Decrypt` | src/data_decrypt.cpp:118-147 | decryption succeeds exactly when init, update and the padding-checked final all succeed; the plaintext is the update output followed by the final output |
| `Evp.DecryptWritten` | src/data_decrypt.cpp:118-147 | the buffer holds the plaintext on success, the update output alone when only final fails, and nothing when init or update fails |
| `Evp.DecryptLength` | src/data_decrypt.cpp:129-147 | the bytes written never exceed the ciphertext length; success needs a non-empty block-aligned ciphertext and gives back less than it, by at most a block |
| `Evp.AsWrittenCapacityOverflows` | src/data_encrypt.cpp:148-173 | the `2 * plaintext.length()` buffer is smaller than the padded encryption of the plaintext's strlen prefix exactly when the plaintext is shorter than 8 bytes |
| `Evp.AsWrittenCapacityCounterexample` | src/data_encrypt.cpp:148-173 | a 3-byte plaintext without NUL needs 16 bytes, but the buffer has 6 |
| `Evp.CiphertextCapacitySuffices` | src/data_encrypt.cpp:148 | a buffer of length plus one block holds the padded output of any prefix the cipher is fed |
| `Pipeline.EncryptWithKey` | src/data_encrypt.cpp:124-173 | with `k` the 32 key bytes EVP reads and `m` the plaintext's strlen prefix: it succeeds exactly when the context is created and init, update over `m` and final all succeed under `k`; the ciphertext is the update output followed by the final output, of the padded length of the strlen prefix |
| `Pipeline.EncryptPlaintext` | src/data_encrypt.cpp:109-181 | it throws iff the unseal's gate throws, it leaves the store as only the gate changed it, and the ciphertext output is assigned only on a true result; after a successful unseal the result is true exactly when the cipher steps succeed, and then the output is their ciphertext |
| `Pipeline.EncryptData` | src/data_encrypt.cpp:76-101 | a failure leaves the output unchanged; if generation throws, the exception is caught and nothing is encrypted; otherwise the result is EncryptPlaintext's run on the state generation left |
| `Pipeline.DecryptWithKey` | src/data_decrypt.cpp:105-147 | with `k` the 32 key bytes EVP reads: it succeeds exactly when the context is created and init, update over the whole ciphertext and the padding-checked final all succeed under `k`; the plaintext is the update output followed by the final output |
| `Pipeline.DecryptWrittenWithKey` | src/data_decrypt.cpp:105-147 | nothing is written without a context; on a successful decryption the buffer holds exactly the plaintext |
| `Pipeline.DecryptCiphertext` | src/data_decrypt.cpp:87-155 | it throws iff the gate throws; an unseal failure gives -1 without touching the cipher; after a successful unseal the result is -1 exactly when a cipher step fails, otherwise the plaintext length, and the bytes written are the cipher's; a non-negative result is the number of bytes written |
| `Pipeline.DecryptData` | src/data_decrypt.cpp:61-79 | it returns false exactly when DecryptCiphertext returns -1, and the output stays unchanged unless the result is true; on success the output is the first `plaintext_length` bytes written; exceptions pass through |
| `Pipeline.CiphertextLength` | src/data_encrypt.cpp:156-179 | the cipher encrypts the plaintext cut at `strlen`, and the ciphertext has that prefix's padded length, a non-zero multiple of 16 |
| `Pipeline.EncryptDataLength` | src/data_encrypt.cpp:76-181 | when EncryptData succeeds, its output is either the padded-length ciphertext of the strlen prefix or, when the fresh key could not be unsealed, unchanged |
| `Pipeline.UnsealFailureReportsSuccess` | src/data_encrypt.cpp:115-119 | when unsealing returns false, EncryptPlaintext returns true and leaves its output unchanged |
| `Pipeline.RefusedSealsStillSucceed` | src/data_encrypt.cpp:81-92 | if both seals of a new reference are refused, EncryptData still succeeds without producing ciphertext |
| `Pipeline.UnsealedKeyShorterThanCipherKey` | src/data_encrypt.cpp:141 | the unsealed key is 16 bytes, shorter than the 32 bytes AES-256 reads, so the cipher key is those bytes followed by 16 bytes of the memory after them; the IV is 16 bytes |
| `Pipeline.CipherKeyDependsOnPastKey` | src/data_encrypt.cpp:141 | for a 16-byte key, two runs use the same AES key exactly when the 16 bytes past the key's vector agree |
| `Pipeline.PlaintextFitsBuffer` | src/data_decrypt.cpp:64-67 | what decryption writes fits the buffer of the ciphertext's size, and a returned length is at most the ciphertext length |
| `Pipeline.RoundTrip` | src/data_decrypt.cpp:61-78 | after successful generate, seal, unseal and encrypt, decrypting the ciphertext under the same reference gives back the plaintext up to its first NUL, provided the memory past the key's vector is the same in both runs |
| `Pipeline.RoundTripExactIffNoNul` | src/data_encrypt.cpp:156 | the round trip gives back the whole plaintext iff it contains no NUL byte |
| `DataEncrypt.EncryptWithKey` | src/data_encrypt.cpp:121-180 | it fills the buffer with update then final output, succeeds exactly when the cipher steps do, and the output is their concatenation, of padded length; on failure the output is unchanged |
| `DataEncrypt.EncryptPlaintext` | src/data_encrypt.cpp:109-181 | ends in the result, output and state that `Pipeline.EncryptPlaintext` gives |
| `DataEncrypt.EncryptData` | src/data_encrypt.cpp:76-101 | ends in the result, output and state that `Pipeline.EncryptData` gives |
| `DataEncrypt.EncryptFile` | src/data_encrypt.cpp:41-68 | a failed read returns false and touches nothing; the output is handed to the writer only after EncryptData succeeds; the result is true only if the write succeeds too |
| `DataDecrypt.DecryptWithKey` | src/data_decrypt.cpp:99-154 | update output goes at offset 0 and final output at offset `len`, with the rest of the buffer untouched; the result is their total length, or -1 if any step fails |
| `DataDecrypt.DecryptCiphertext` | src/data_decrypt.cpp:87-155 | ends in the result, buffer contents and state that `Pipeline.DecryptCiphertext` gives |
| `DataDecrypt.DecryptData` | src/data_decrypt.cpp:61-79 | ends in the result, output and state that `Pipeline.DecryptData` gives |
| `DataDecrypt.DecryptFile` | src/data_decrypt.cpp:16-52 | an unopenable input returns false and touches nothing; the output is handed to the writer only after DecryptData succeeds; exceptions pass through |

## Findings

| source | as written | input that shows it | evidently intended | confidence | as-written member | corrected member |
|---|---|---|---|---|---|---|
| src/data_encrypt.cpp:148 | the ciphertext buffer is a stack array of `2 * plaintext.length()` bytes, but lines 156-173 write the PKCS #7 output of the strlen prefix, `16 * (n / 16 + 1)` bytes for a prefix of `n` bytes | any plaintext shorter than 8 bytes; e.g. 3 bytes give 16 bytes of output into a 6-byte buffer, and an empty file 16 bytes into a zero-length array | a buffer of at least the input length plus one block | high, not executed | `Evp.AsWrittenCapacityOverflows` | `Evp.CiphertextCapacitySuffices` |

`DataEncrypt.EncryptWithKey` allocates the corrected `Evp.CiphertextCapacity`. Writes past the end of an array cannot be expressed in Dafny.

## Left out

- The internals of OpenSSL EVP (AES rounds, CBC chaining, padding) are a foreign library. They are abstract functions, constrained only by `Evp.Pkcs7Lengths` and `Evp.Inverts`. A failing update is assumed to write nothing.
- The internals of TPM FAPI (`Fapi_Initialize`, `Fapi_SetAuthCB`, `Fapi_Provision`, `Fapi_CreateSeal`, `Fapi_Unseal`, `Fapi_Delete`) are a foreign library. Their results are inputs, apart from the keystore effects described in fapi.dfy. Provisioning is counted but does not itself create objects. The model does not tie seal success to earlier provisioning.
- EVP's 32-byte read from the 16-byte key vector is undefined behaviour in C++. The model gives the bytes past the vector as an input (`pastKey`) and does not say what they hold.
- Pipeline.RoundTrip: holds only if the 16 bytes past the key vector are the same in the encrypting and the decrypting run (`e.pastKey == d.pastKey`). Nothing in the source ensures this, and the two runs are usually separate processes. `Pipeline.CipherKeyDependsOnPastKey` shows that the AES key changes whenever those bytes differ.
- Pipeline.RoundTripExactIffNoNul: carries the same requirement on the bytes past the key vector as `Pipeline.RoundTrip`.
- The IV vector is passed whole to the cipher. The model does not track EVP reading exactly 16 IV bytes, which matters only for stored IVs of another length; the ones `GenerateSealedKey` seals are 16 bytes.
- `GetRandomData`'s `exit(1)` when `/dev/random` cannot be opened or read is not modelled. It ends the process, and the model treats the bytes delivered as an input.
- `FileToString`, `StringToFile` and the stream handling in `DecryptFile` are plain file I/O. Only their results (the bytes read, and whether the write succeeded) are modelled.
- src/main.cpp (the interactive menu) and the headers under include/tpm_encrypt/ are not part of this model. The menu is an I/O loop and the headers only declare.
- Resource lifetimes are not modelled: `Fapi_Finalize`, `Fapi_Free`, `EVP_CIPHER_CTX_free`, the contexts leaked on error paths, and the `unique_ptr` that never owns the initialised context.
- All logging to `std::cout` and `std::cerr` is left out.
- The `int` lengths `len`, `ciphertext_len` and `plaintext_len` are unbounded integers, so inputs of 2 GiB or more (C `int` overflow) are not modelled.
- `AuthCallback`'s `userData` pointer is not modelled, because the callback never reads it.
- Concurrent processes racing on the marker file or the keystore are not modelled. Each call runs alone.
