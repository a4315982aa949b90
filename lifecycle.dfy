/** The sealed-key lifecycle of src/common.cpp as functions over the state it
    touches: the TPM keystore, the `fapi_provisioned` marker file (a boolean) and
    the number of Fapi_Provision calls made so far. Common.Tpm runs the same steps
    imperatively and is proved equal to these functions. */
module Lifecycle {
  import opened Wrappers
  import opened Bytes
  import Fapi

  /** kAuthenticationString. */
  const AuthenticationString: string := "default_auth_key"
  /** Every key reference lives under this path of the keystore. */
  const SealRoot: string := "/HS/SRK/"
  /** Appended to a key's path to give the path of its IV. */
  const IvSuffix: string := "_iv"
  /** The object type both Fapi_CreateSeal calls pass: no dictionary-attack
      protection. */
  const SealType: string := "noDa"
  /** The policy path both Fapi_CreateSeal calls pass: none. */
  const SealPolicyPath: string := ""
  /** GenerateSealedKey draws a 128-bit key and a 128-bit IV. */
  const SealedKeyLength: nat := 16
  const SealedIvLength: nat := 16
  /** The message of every runtime_error the lifecycle throws. */
  const InitFailed: string := "TPM init failed"

  datatype TpmState = TpmState(objects: Fapi.Keystore, markerExists: bool, provisionCalls: nat)

  /** What the foreign calls of one UnsealKey or GenerateSealedKey call return:
      Fapi_Initialize, Fapi_SetAuthCB, Fapi_Provision, opening the marker file for
      writing, and the two Fapi_Unseal or Fapi_CreateSeal calls (key, then IV). */
  datatype Session = Session(initOk: bool, setAuthOk: bool, provisionOk: bool, markerWriteOk: bool,
                             keyCallOk: bool, ivCallOk: bool)

  /** What the foreign calls of one ResetTpm call do: Fapi_Initialize,
      Fapi_SetAuthCB, Fapi_Delete and the removal of the marker file. */
  datatype ResetFaults = ResetFaults(initOk: bool, setAuthOk: bool, deleteOk: bool, markerRemoveOk: bool)

  /** What a lifecycle call produced and the state it left behind. */
  datatype Step<T> = Step(outcome: Outcome<T>, after: TpmState)

  /** UnsealKey's boolean result with the final contents of its two out-parameters. */
  datatype Unsealed = Unsealed(ok: bool, key: Bytes, iv: Bytes)

  // ---------------------------------------------------------------- paths

  /** Where the key of reference `ref` is sealed: the reference under the root. */
  function KeyPath(ref: string): (p: string)
    ensures SealRoot <= p && p[|SealRoot|..] == ref
  {
    SealRoot + ref
  }

  /** Where the IV of reference `ref` is sealed: its key path with "_iv" appended. */
  function IvPath(ref: string): (p: string)
    ensures KeyPath(ref) <= p && p[|KeyPath(ref)|..] == IvSuffix
  {
    KeyPath(ref) + IvSuffix
  }

  /** Distinct references never share a key path. */
  lemma KeyPathInjective(a: string, b: string)
    ensures KeyPath(a) == KeyPath(b) <==> a == b
  {
    if KeyPath(a) == KeyPath(b) {
      assert a == KeyPath(a)[|SealRoot|..];
      assert b == KeyPath(b)[|SealRoot|..];
    }
  }

  /** The IV path of `ref` is the key path of the reference `ref + "_iv"`. */
  lemma IvPathIsSuffixedKeyPath(ref: string)
    ensures IvPath(ref) == KeyPath(ref + IvSuffix)
  {
    assert SealRoot + ref + IvSuffix == SealRoot + (ref + IvSuffix);
  }

  /** A key path and an IV path coincide exactly when the first reference is the
      second with "_iv" appended; in particular a reference's own two paths differ. */
  lemma KeyPathMeetsIvPath(a: string, b: string)
    ensures KeyPath(a) == IvPath(b) <==> a == b + IvSuffix
    ensures KeyPath(b) != IvPath(b)
  {
    IvPathIsSuffixedKeyPath(b);
    KeyPathInjective(a, b + IvSuffix);
    assert |KeyPath(b)| < |IvPath(b)|;
  }

  /** Both paths lie under the keystore root "/". */
  lemma PathsUnderRoot(ref: string)
    ensures "/" <= KeyPath(ref) && "/" <= IvPath(ref)
  {
    assert KeyPath(ref)[..1] == "/";
    assert IvPath(ref)[..1] == "/";
  }

  // ------------------------------------------------------ foreign inputs

  datatype AuthReply = AuthReply(rc: nat, auth: Option<string>)

  /** Common::AuthCallback. `objectPath` and `description` are None for a null
      pointer; `auth` is what `*auth` held before the call. */
  function AuthCallback(objectPath: Option<string>, description: Option<string>, auth: Option<string>): (r: AuthReply)
    ensures r.rc == Fapi.RcSuccess <==> objectPath.Some?
    ensures objectPath.None? ==> r.rc == Fapi.FapiRcBadValue && r.auth == auth
    ensures objectPath.Some? ==> r.auth == Some(AuthenticationString)
  {
    if objectPath.None? then AuthReply(Fapi.FapiRcBadValue, auth)
    else AuthReply(Fapi.RcSuccess, Some(AuthenticationString))
  }

  /** The callback ignores the description it is handed. */
  lemma AuthCallbackIgnoresDescription(objectPath: Option<string>, d1: Option<string>, d2: Option<string>, auth: Option<string>)
    ensures AuthCallback(objectPath, d1, auth) == AuthCallback(objectPath, d2, auth)
  {
  }

  /** The secret FAPI obtains from the registered callback for the object at `path`. */
  function PresentedAuth(path: string): (auth: Option<string>)
    ensures auth == Some(AuthenticationString)
  {
    AuthCallback(Some(path), None, None).auth
  }

  /** Common::GetRandomData into a zero-initialised vector of `length` bytes, when
      read() on /dev/random delivered `got` (it may deliver fewer bytes than asked). */
  function RandomData(length: nat, got: Bytes): (r: Bytes)
    ensures |r| == length
    ensures forall i :: 0 <= i < length ==> r[i] == if i < |got| then got[i] else 0
  {
    if |got| >= length then got[..length]
    else
      var zeros: Bytes := seq(length - |got|, _ => 0);
      got + zeros
  }

  // ------------------------------------------------------ the operations

  /** The initialisation both UnsealKey and GenerateSealedKey begin with: connect,
      register AuthCallback, and provision the TPM only if the marker is absent,
      creating the marker when provisioning succeeds. Never touches the keystore. */
  function Initialise(s: TpmState, env: Session): (r: Step<()>)
    ensures r.after.objects == s.objects
    ensures r.outcome.Returned? <==> env.initOk && env.setAuthOk && (s.markerExists || (env.provisionOk && env.markerWriteOk))
    ensures r.outcome.Threw? ==> r.outcome.error == InitFailed
    ensures r.after.provisionCalls == s.provisionCalls + (if env.initOk && env.setAuthOk && !s.markerExists then 1 else 0)
    ensures r.after.markerExists <==> s.markerExists || r.outcome.Returned?
  {
    if !env.initOk || !env.setAuthOk then Step(Threw(InitFailed), s)
    else if s.markerExists then Step(Returned(()), s)
    else
      var provisioned := s.(provisionCalls := s.provisionCalls + 1);
      if !env.provisionOk || !env.markerWriteOk then Step(Threw(InitFailed), provisioned)
      else Step(Returned(()), provisioned.(markerExists := true))
  }

  /** Common::GenerateSealedKey: after initialisation, seal 16 random key bytes at
      the key path and 16 random IV bytes at the IV path. The results of both
      Fapi_CreateSeal calls are dropped, so it returns true whenever it returns. */
  function GenerateSealedKey(s: TpmState, env: Session, ref: string, keyRead: Bytes, ivRead: Bytes, overwrite: bool): (r: Step<bool>)
    ensures r.outcome.Returned? <==> Initialise(s, env).outcome.Returned?
    ensures r.outcome.Returned? ==> r.outcome.value
    ensures r.outcome.Threw? ==> r.after == Initialise(s, env).after
    ensures r.after.markerExists == Initialise(s, env).after.markerExists
    ensures r.after.provisionCalls == Initialise(s, env).after.provisionCalls
    ensures forall p :: p != KeyPath(ref) && p != IvPath(ref) ==>
              (p in r.after.objects <==> p in s.objects) && (p in s.objects ==> r.after.objects[p] == s.objects[p])
  {
    var g := Initialise(s, env);
    if g.outcome.Threw? then Step(Threw(g.outcome.error), g.after)
    else
      var key := Fapi.CreateSeal(g.after.objects, KeyPath(ref), SealType, SealPolicyPath, AuthenticationString,
                                 RandomData(SealedKeyLength, keyRead), env.keyCallOk, overwrite);
      var iv := Fapi.CreateSeal(key.objects, IvPath(ref), SealType, SealPolicyPath, AuthenticationString,
                                RandomData(SealedIvLength, ivRead), env.ivCallOk, overwrite);
      Step(Returned(true), g.after.(objects := iv.objects))
  }

  /** Common::UnsealKey with out-parameters holding `keyOut` and `ivOut` beforehand:
      after initialisation, unseal the key path and then the IV path; the outputs
      are assigned only when both succeed. */
  function UnsealKey(s: TpmState, env: Session, ref: string, keyOut: Bytes, ivOut: Bytes): (r: Step<Unsealed>)
    ensures r.after == Initialise(s, env).after
    ensures r.outcome.Returned? <==> Initialise(s, env).outcome.Returned?
    ensures r.outcome.Returned? ==>
              (r.outcome.value.ok <==>
                 env.keyCallOk && env.ivCallOk && KeyPath(ref) in s.objects && IvPath(ref) in s.objects &&
                 s.objects[KeyPath(ref)].authValue == AuthenticationString &&
                 s.objects[IvPath(ref)].authValue == AuthenticationString)
    ensures r.outcome.Returned? && !r.outcome.value.ok ==> r.outcome.value.key == keyOut && r.outcome.value.iv == ivOut
    ensures r.outcome.Returned? && r.outcome.value.ok ==>
              r.outcome.value.key == s.objects[KeyPath(ref)].data && r.outcome.value.iv == s.objects[IvPath(ref)].data
  {
    var g := Initialise(s, env);
    if g.outcome.Threw? then Step(Threw(g.outcome.error), g.after)
    else
      var key := Fapi.Unseal(g.after.objects, KeyPath(ref), PresentedAuth(KeyPath(ref)), env.keyCallOk);
      if key.None? then Step(Returned(Unsealed(false, keyOut, ivOut)), g.after)
      else
        var iv := Fapi.Unseal(g.after.objects, IvPath(ref), PresentedAuth(IvPath(ref)), env.ivCallOk);
        if iv.None? then Step(Returned(Unsealed(false, keyOut, ivOut)), g.after)
        else Step(Returned(Unsealed(true, key.value, iv.value)), g.after)
  }

  /** Common::ResetTpm: unless connecting or registering the callback fails, delete
      everything under "/" and then remove the marker if it exists; a failure to
      remove the marker is caught. */
  function ResetTpm(s: TpmState, f: ResetFaults): (r: TpmState)
    ensures r.provisionCalls == s.provisionCalls
    ensures !(f.initOk && f.setAuthOk) ==> r == s
    ensures f.initOk && f.setAuthOk && f.deleteOk ==> forall p :: p in r.objects ==> !("/" <= p)
    ensures f.initOk && f.setAuthOk && !f.deleteOk ==> r.objects == s.objects
    ensures f.initOk && f.setAuthOk ==> (r.markerExists <==> s.markerExists && !f.markerRemoveOk)
  {
    if !f.initOk || !f.setAuthOk then s
    else
      var wiped := s.(objects := Fapi.Delete(s.objects, "/", f.deleteOk));
      if wiped.markerExists && f.markerRemoveOk then wiped.(markerExists := false) else wiped
  }

  // ------------------------------------------------------------ properties

  /** Once a lifecycle call has got past initialisation, the marker exists and the
      next call does not provision again. */
  lemma ProvisionAtMostOnce(s: TpmState, e1: Session, e2: Session)
    requires Initialise(s, e1).outcome.Returned?
    ensures Initialise(Initialise(s, e1).after, e2).after.provisionCalls == Initialise(s, e1).after.provisionCalls
    ensures Initialise(s, e1).after.provisionCalls <= s.provisionCalls + 1
  {
  }

  /** The same, across the two operations that share the gate: generating and then
      unsealing provisions at most once, if generating did not throw. */
  lemma GenerateThenUnsealProvisionsAtMostOnce(s: TpmState, gen: Session, un: Session, ref: string,
                                               keyRead: Bytes, ivRead: Bytes, overwrite: bool, keyOut: Bytes, ivOut: Bytes)
    requires GenerateSealedKey(s, gen, ref, keyRead, ivRead, overwrite).outcome.Returned?
    ensures UnsealKey(GenerateSealedKey(s, gen, ref, keyRead, ivRead, overwrite).after, un, ref, keyOut, ivOut).after.provisionCalls
            <= s.provisionCalls + 1
  {
    ProvisionAtMostOnce(s, gen, un);
  }

  /** If provisioning succeeds but the marker cannot be written, the call throws and
      the next call provisions a second time. */
  lemma LostMarkerProvisionsAgain(s: TpmState, e1: Session, e2: Session)
    requires !s.markerExists && e1.initOk && e1.setAuthOk && e1.provisionOk && !e1.markerWriteOk
    requires e2.initOk && e2.setAuthOk
    ensures Initialise(s, e1).outcome.Threw?
    ensures Initialise(Initialise(s, e1).after, e2).after.provisionCalls == s.provisionCalls + 2
  {
  }

  /** With both seals accepted, GenerateSealedKey leaves exactly the 16 key bytes and
      the 16 IV bytes at the two paths, sealed as "noDa" objects with no policy path
      and the fixed secret. */
  lemma GenerateSealsBothPaths(s: TpmState, env: Session, ref: string, keyRead: Bytes, ivRead: Bytes, overwrite: bool)
    requires Initialise(s, env).outcome.Returned? && env.keyCallOk && env.ivCallOk
    requires overwrite || (KeyPath(ref) !in s.objects && IvPath(ref) !in s.objects)
    ensures var o := GenerateSealedKey(s, env, ref, keyRead, ivRead, overwrite).after.objects;
            && KeyPath(ref) in o && IvPath(ref) in o
            && o[KeyPath(ref)] == Fapi.SealedObject(SealType, SealPolicyPath, AuthenticationString, RandomData(SealedKeyLength, keyRead))
            && o[IvPath(ref)] == Fapi.SealedObject(SealType, SealPolicyPath, AuthenticationString, RandomData(SealedIvLength, ivRead))
            && |o[KeyPath(ref)].data| == 16 && |o[IvPath(ref)].data| == 16
  {
    KeyPathMeetsIvPath(ref, ref);
  }

  /** A failed key seal is not rolled back and does not stop the IV seal: the call
      still returns true with only the IV sealed. */
  lemma PartialSealStillReturnsTrue(s: TpmState, env: Session, ref: string, keyRead: Bytes, ivRead: Bytes, overwrite: bool)
    requires Initialise(s, env).outcome.Returned? && !env.keyCallOk && env.ivCallOk
    requires KeyPath(ref) !in s.objects && (overwrite || IvPath(ref) !in s.objects)
    ensures var g := GenerateSealedKey(s, env, ref, keyRead, ivRead, overwrite);
            && g.outcome == Returned(true)
            && KeyPath(ref) !in g.after.objects && IvPath(ref) in g.after.objects
  {
    KeyPathMeetsIvPath(ref, ref);
  }

  /** Sealing and unsealing meet on the same two paths with the same secret: right
      after a GenerateSealedKey whose seals were both accepted, an UnsealKey that gets
      past initialisation returns exactly the generated key and IV. */
  lemma GenerateThenUnseal(s: TpmState, gen: Session, un: Session, ref: string, keyRead: Bytes, ivRead: Bytes,
                           overwrite: bool, keyOut: Bytes, ivOut: Bytes)
    requires Initialise(s, gen).outcome.Returned? && gen.keyCallOk && gen.ivCallOk
    requires overwrite || (KeyPath(ref) !in s.objects && IvPath(ref) !in s.objects)
    requires un.initOk && un.setAuthOk && un.keyCallOk && un.ivCallOk
    ensures var g := GenerateSealedKey(s, gen, ref, keyRead, ivRead, overwrite);
            && UnsealKey(g.after, un, ref, keyOut, ivOut).outcome ==
               Returned(Unsealed(true, RandomData(SealedKeyLength, keyRead), RandomData(SealedIvLength, ivRead)))
            && UnsealKey(g.after, un, ref, keyOut, ivOut).after == g.after
  {
    GenerateSealsBothPaths(s, gen, ref, keyRead, ivRead, overwrite);
  }

  /** Two UnsealKey calls in a row that both succeed return the same key and IV. */
  lemma UnsealTwiceAgrees(s: TpmState, e1: Session, e2: Session, ref: string, k1: Bytes, v1: Bytes, k2: Bytes, v2: Bytes)
    ensures var a := UnsealKey(s, e1, ref, k1, v1);
            var b := UnsealKey(a.after, e2, ref, k2, v2);
            a.outcome.Returned? && a.outcome.value.ok && b.outcome.Returned? && b.outcome.value.ok ==>
              a.outcome.value.key == b.outcome.value.key && a.outcome.value.iv == b.outcome.value.iv
  {
  }

  /** After a ResetTpm whose delete succeeded, no reference can be unsealed: UnsealKey
      either throws or returns false with its outputs untouched. */
  lemma ResetThenUnsealFails(s: TpmState, f: ResetFaults, un: Session, ref: string, keyOut: Bytes, ivOut: Bytes)
    requires f.initOk && f.setAuthOk && f.deleteOk
    ensures var u := UnsealKey(ResetTpm(s, f), un, ref, keyOut, ivOut);
            u.outcome.Returned? ==> u.outcome.value == Unsealed(false, keyOut, ivOut)
  {
    PathsUnderRoot(ref);
  }
}
