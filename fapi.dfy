/** Stand-in for the TPM2 Feature API (tss2_fapi) on values: its keystore is a map
    from object path to sealed object, and each call's success is an input. */
module Fapi {
  import opened Wrappers
  import opened Bytes

  /** TSS2_RC_SUCCESS. */
  const RcSuccess: nat := 0

  /** TSS2_FAPI_RC_BAD_VALUE: the FAPI layer code (6 << 16) with the base code
      TSS2_BASE_RC_BAD_VALUE (11). */
  const FapiRcBadValue: nat := 0x6_000B

  /** A sealed data object: the object type it was created with (a list of
      attributes such as "noDa"), its policy path, the authorisation value it was
      created with, and the bytes sealed in it. */
  datatype SealedObject = SealedObject(objectType: string, policyPath: string, authValue: string, data: Bytes)

  type Keystore = map<string, SealedObject>

  datatype SealResult = SealResult(ok: bool, objects: Keystore)

  /** Fapi_CreateSeal: `callOk` is the call's own success (rc == TSS2_RC_SUCCESS);
      whether an object that already exists at `path` is replaced or makes the call
      fail is not visible from the application, so `overwrite` chooses. */
  function CreateSeal(ks: Keystore, path: string, objectType: string, policyPath: string, authValue: string,
                      data: Bytes, callOk: bool, overwrite: bool): SealResult
  {
    if callOk && (overwrite || path !in ks) then
      SealResult(true, ks[path := SealedObject(objectType, policyPath, authValue, data)])
    else
      SealResult(false, ks)
  }

  /** Fapi_Unseal: succeeds when the call itself succeeds, an object exists at `path`
      and the secret the registered auth callback presented (`presented`) is the
      object's authorisation value. */
  function Unseal(ks: Keystore, path: string, presented: Option<string>, callOk: bool): Option<Bytes>
  {
    if callOk && path in ks && presented == Some(ks[path].authValue) then Some(ks[path].data) else None
  }

  /** Fapi_Delete: removes every object whose path begins with `path`. */
  function Delete(ks: Keystore, path: string, callOk: bool): Keystore
  {
    if callOk then map p | p in ks && !(path <= p) :: ks[p] else ks
  }
}
