/** src/common.cpp as it runs: class Common's static operations act on the TPM
    keystore and on the `fapi_provisioned` marker file, which this class holds as
    fields. Each method performs the source's steps in order, with its early
    returns and throws, and is proved to leave exactly the state, and return
    exactly the result, that the matching Lifecycle function describes. */
module Common {
  import opened Wrappers
  import opened Bytes
  import Fapi
  import Lifecycle

  class Tpm {
    /** The TPM's keystore, path by path. */
    var objects: Fapi.Keystore
    /** Whether the file `fapi_provisioned` exists in the working directory. */
    var markerExists: bool
    /** How many times Fapi_Provision has been called. */
    var provisionCalls: nat
    /** Whether Fapi_CreateSeal replaces an object already at its path. */
    const overwriteOnSeal: bool

    function State(): Lifecycle.TpmState
      reads this
    {
      Lifecycle.TpmState(objects, markerExists, provisionCalls)
    }

    /** A TPM found with the given keystore and marker, before any provisioning call. */
    constructor (objects: Fapi.Keystore, markerExists: bool, overwriteOnSeal: bool)
      ensures State() == Lifecycle.TpmState(objects, markerExists, 0)
      ensures this.overwriteOnSeal == overwriteOnSeal
    {
      this.objects := objects;
      this.markerExists := markerExists;
      this.provisionCalls := 0;
      this.overwriteOnSeal := overwriteOnSeal;
    }

    /** The initialisation that UnsealKey and GenerateSealedKey both open with. */
    method Initialise(env: Lifecycle.Session) returns (r: Outcome<()>)
      modifies this
      ensures r == Lifecycle.Initialise(old(State()), env).outcome
      ensures State() == Lifecycle.Initialise(old(State()), env).after
    {
      if !env.initOk {
        return Threw(Lifecycle.InitFailed);
      }
      if !env.setAuthOk {
        return Threw(Lifecycle.InitFailed);
      }
      if !markerExists {
        provisionCalls := provisionCalls + 1;
        if !env.provisionOk {
          return Threw(Lifecycle.InitFailed);
        }
        if !env.markerWriteOk {
          // provisioned, but the marker could not be saved
          return Threw(Lifecycle.InitFailed);
        }
        markerExists := true;
      }
      return Returned(());
    }

    /** Common::UnsealKey; `keyOut` and `ivOut` are what the two out-parameters held
        on entry, and `key` and `iv` what they hold on exit. */
    method UnsealKey(ref: string, env: Lifecycle.Session, keyOut: Bytes, ivOut: Bytes)
      returns (r: Outcome<bool>, key: Bytes, iv: Bytes)
      modifies this
      ensures var u := Lifecycle.UnsealKey(old(State()), env, ref, keyOut, ivOut);
              && State() == u.after
              && (u.outcome.Threw? ==> r == Threw(u.outcome.error) && key == keyOut && iv == ivOut)
              && (u.outcome.Returned? ==> r == Returned(u.outcome.value.ok) && key == u.outcome.value.key && iv == u.outcome.value.iv)
    {
      key, iv := keyOut, ivOut;
      var sealedDataPath := Lifecycle.KeyPath(ref);
      var initialised := Initialise(env);
      if initialised.Threw? {
        return Threw(initialised.error), key, iv;
      }
      var rawKey := Fapi.Unseal(objects, sealedDataPath, Lifecycle.PresentedAuth(sealedDataPath), env.keyCallOk);
      if rawKey.None? {
        return Returned(false), key, iv;
      }
      var sealedIvPath := sealedDataPath + Lifecycle.IvSuffix;
      var rawIv := Fapi.Unseal(objects, sealedIvPath, Lifecycle.PresentedAuth(sealedIvPath), env.ivCallOk);
      if rawIv.None? {
        return Returned(false), key, iv;
      }
      key, iv := rawKey.value, rawIv.value;
      return Returned(true), key, iv;
    }

    /** Common::GenerateSealedKey; `keyRead` and `ivRead` are what the two reads of
        /dev/random delivered. */
    method GenerateSealedKey(ref: string, env: Lifecycle.Session, keyRead: Bytes, ivRead: Bytes) returns (r: Outcome<bool>)
      modifies this
      ensures var g := Lifecycle.GenerateSealedKey(old(State()), env, ref, keyRead, ivRead, overwriteOnSeal);
              r == g.outcome && State() == g.after
    {
      var sealedDataPath := Lifecycle.KeyPath(ref);
      var initialised := Initialise(env);
      if initialised.Threw? {
        return Threw(initialised.error);
      }
      var symmetricKey := Lifecycle.RandomData(Lifecycle.SealedKeyLength, keyRead);
      var sealed := Fapi.CreateSeal(objects, sealedDataPath, Lifecycle.SealType, Lifecycle.SealPolicyPath,
                                    Lifecycle.AuthenticationString, symmetricKey, env.keyCallOk, overwriteOnSeal);
      objects := sealed.objects;
      var iv := Lifecycle.RandomData(Lifecycle.SealedIvLength, ivRead);
      var sealedIvPath := sealedDataPath + Lifecycle.IvSuffix;
      // the first call's result is overwritten here and this one's is never read
      sealed := Fapi.CreateSeal(objects, sealedIvPath, Lifecycle.SealType, Lifecycle.SealPolicyPath,
                                Lifecycle.AuthenticationString, iv, env.ivCallOk, overwriteOnSeal);
      objects := sealed.objects;
      return Returned(true);
    }

    /** Common::ResetTpm. */
    method ResetTpm(f: Lifecycle.ResetFaults)
      modifies this
      ensures State() == Lifecycle.ResetTpm(old(State()), f)
    {
      if !f.initOk {
        return;
      }
      if !f.setAuthOk {
        return;
      }
      objects := Fapi.Delete(objects, "/", f.deleteOk);
      if markerExists {
        if f.markerRemoveOk {
          markerExists := false;
        }
        // otherwise the filesystem error is caught and logged
      }
    }
  }
}
