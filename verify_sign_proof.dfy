/** The signer's check of a blind signature request (`bbs_verify_blind_commitment_context_*`):
    the commitment, the challenge hash and the proof of the hidden messages received from the
    holder, the indices the holder keeps hidden, the public key and the nonce. */
module VerifySignProof {
  import opened Prelude
  import opened Ffi
  import opened Crypto
  import opened Handles
  import Macros

  /** `VerifyBlindSignProofContext`: the hidden indices form a set. */
  datatype VerifyBlindSignProofContext = VerifyBlindSignProofContext(
    blinded: set<nat>,
    challengeHash: Option<ProofChallenge>,
    commitment: Option<Commitment>,
    nonce: Option<ProofNonce>,
    proof: Option<ProofG1>,
    publicKey: Option<PublicKey>)

  /** `bbs_verify_blind_commitment_context_init`. */
  method Init(table: HandleMap<VerifyBlindSignProofContext>) returns (h: Handle, err: ExternError)
    requires table.Valid()
    modifies table
    ensures table.Valid() && err == ExternSuccess()
    ensures h !in old(table.entries) && table.next == old(table.next) + 1
    ensures table.entries == old(table.entries)[h := VerifyBlindSignProofContext({}, None, None, None, None, None)]
  {
    h := table.InsertWithOutput(VerifyBlindSignProofContext({}, None, None, None, None, None));
    err := ExternSuccess();
  }

  /** `ctx.blinded.insert(index as usize)`. */
  function InsertBlinded(c: VerifyBlindSignProofContext, index: nat): (d: VerifyBlindSignProofContext)
    ensures d.blinded == c.blinded + {index}
    ensures d.(blinded := c.blinded) == c
  {
    c.(blinded := c.blinded + {index})
  }

  /** Adding hidden indices in any order, and any number of times, gives the same context. */
  lemma InsertBlindedCommutes(c: VerifyBlindSignProofContext, i: nat, j: nat)
    ensures InsertBlinded(InsertBlinded(c, i), j) == InsertBlinded(InsertBlinded(c, j), i)
    ensures InsertBlinded(InsertBlinded(c, i), i) == InsertBlinded(c, i)
  {
  }

  /** `bbs_verify_blind_commitment_context_add_blinded`: any index is accepted; there is no
      input to reject. */
  method AddBlinded(table: HandleMap<VerifyBlindSignProofContext>, h: Handle, index: U32)
    returns (err: ExternError)
    requires table.Valid()
    modifies table
    ensures table.Valid() && table.next == old(table.next)
    ensures err.code == SUCCESS_CODE <==> h in old(table.entries)
    ensures err.code == SUCCESS_CODE ==> table.entries == old(table.entries)[h := InsertBlinded(old(table.entries)[h], index)]
    ensures err.code != SUCCESS_CODE ==> err == InvalidHandle() && table.entries == old(table.entries)
  {
    err := table.CallWithOutputMut(h, c => InsertBlinded(c, index));
  }

  /** `bbs_verify_blind_commitment_context_set_commitment`. */
  method SetCommitment(table: HandleMap<VerifyBlindSignProofContext>, h: Handle, value: seq<Byte>, lib: Library)
    returns (err: ExternError)
    requires table.Valid()
    modifies table
    ensures table.Valid() && table.next == old(table.next)
    ensures value == [] ==> err == Macros.EmptyError("Commitment")
    ensures err.code == SUCCESS_CODE <==> value != [] && h in old(table.entries) && lib.decodeCommitment(value).Done?
    ensures err.code == SUCCESS_CODE ==>
              table.entries == old(table.entries)[h := old(table.entries)[h].(commitment := Some(lib.decodeCommitment(value).value))]
    ensures err.code != SUCCESS_CODE ==> table.entries == old(table.entries)
  {
    err := Macros.SetDecoded(table, h, value, "Commitment", v => FromLib(lib.decodeCommitment(v)),
                             (c: VerifyBlindSignProofContext, x) => c.(commitment := Some(x)));
  }

  /** `bbs_verify_blind_commitment_context_set_challenge_hash`. */
  method SetChallengeHash(table: HandleMap<VerifyBlindSignProofContext>, h: Handle, value: seq<Byte>, lib: Library)
    returns (err: ExternError)
    requires table.Valid()
    modifies table
    ensures table.Valid() && table.next == old(table.next)
    ensures value == [] ==> err == Macros.EmptyError("ProofChallenge")
    ensures err.code == SUCCESS_CODE <==> value != [] && h in old(table.entries) && lib.decodeChallenge(value).Done?
    ensures err.code == SUCCESS_CODE ==>
              table.entries == old(table.entries)[h := old(table.entries)[h].(challengeHash := Some(lib.decodeChallenge(value).value))]
    ensures err.code != SUCCESS_CODE ==> table.entries == old(table.entries)
  {
    err := Macros.SetDecoded(table, h, value, "ProofChallenge", v => FromLib(lib.decodeChallenge(v)),
                             (c: VerifyBlindSignProofContext, x) => c.(challengeHash := Some(x)));
  }

  /** `bbs_verify_blind_commitment_context_set_public_key`. */
  method SetPublicKey(table: HandleMap<VerifyBlindSignProofContext>, h: Handle, value: seq<Byte>, lib: Library)
    returns (err: ExternError)
    requires table.Valid()
    modifies table
    ensures table.Valid() && table.next == old(table.next)
    ensures value == [] ==> err == Macros.EmptyError("PublicKey")
    ensures err.code == SUCCESS_CODE <==> value != [] && h in old(table.entries) && lib.decodePublicKey(value).Done?
    ensures err.code == SUCCESS_CODE ==>
              table.entries == old(table.entries)[h := old(table.entries)[h].(publicKey := Some(lib.decodePublicKey(value).value))]
    ensures err.code != SUCCESS_CODE ==> table.entries == old(table.entries)
  {
    err := Macros.SetDecoded(table, h, value, "PublicKey", v => FromLib(lib.decodePublicKey(v)),
                             (c: VerifyBlindSignProofContext, x) => c.(publicKey := Some(x)));
  }

  /** `bbs_verify_blind_commitment_context_set_nonce_string`. */
  method SetNonceString(table: HandleMap<VerifyBlindSignProofContext>, h: Handle, value: seq<Byte>, lib: Library)
    returns (err: ExternError)
    requires table.Valid()
    modifies table
    ensures table.Valid() && table.next == old(table.next)
    ensures value == [] ==> err == Macros.EmptyError("Message")
    ensures err.code == SUCCESS_CODE <==> value != [] && h in old(table.entries)
    ensures err.code == SUCCESS_CODE ==>
              table.entries == old(table.entries)[h := old(table.entries)[h].(nonce := Some(lib.hashNonce(value)))]
    ensures err.code != SUCCESS_CODE ==> table.entries == old(table.entries)
  {
    err := Macros.SetHashed(table, h, value, Macros.EmptyError("Message"), lib.hashNonce,
                            (c: VerifyBlindSignProofContext, n) => c.(nonce := Some(n)));
  }

  /** `bbs_verify_blind_commitment_context_set_nonce_bytes`. */
  method SetNonceBytes(table: HandleMap<VerifyBlindSignProofContext>, h: Handle, value: seq<Byte>, lib: Library)
    returns (err: ExternError)
    requires table.Valid()
    modifies table
    ensures table.Valid() && table.next == old(table.next)
    ensures value == [] ==> err == Macros.EmptyError("ProofNonce")
    ensures err.code == SUCCESS_CODE <==> value != [] && h in old(table.entries)
    ensures err.code == SUCCESS_CODE ==>
              table.entries == old(table.entries)[h := old(table.entries)[h].(nonce := Some(lib.hashNonce(value)))]
    ensures err.code != SUCCESS_CODE ==> table.entries == old(table.entries)
  {
    err := Macros.SetHashed(table, h, value, Macros.EmptyError("ProofNonce"), lib.hashNonce,
                            (c: VerifyBlindSignProofContext, n) => c.(nonce := Some(n)));
  }

  /** `bbs_verify_blind_commitment_context_set_nonce_prehashed`. */
  method SetNoncePrehashed(table: HandleMap<VerifyBlindSignProofContext>, h: Handle, value: seq<Byte>, lib: Library)
    returns (err: ExternError)
    requires table.Valid()
    modifies table
    ensures table.Valid() && table.next == old(table.next)
    ensures value == [] ==> err == Macros.EmptyError("ProofNonce")
    ensures err.code == SUCCESS_CODE <==> value != [] && h in old(table.entries) && lib.decodeNonce(value).Done?
    ensures err.code == SUCCESS_CODE ==>
              table.entries == old(table.entries)[h := old(table.entries)[h].(nonce := Some(lib.decodeNonce(value).value))]
    ensures err.code != SUCCESS_CODE ==> table.entries == old(table.entries)
  {
    err := Macros.SetDecoded(table, h, value, "ProofNonce", v => FromLib(lib.decodeNonce(v)),
                             (c: VerifyBlindSignProofContext, n) => c.(nonce := Some(n)));
  }

  /** `bbs_verify_blind_commitment_context_set_proof`. */
  method SetProof(table: HandleMap<VerifyBlindSignProofContext>, h: Handle, value: seq<Byte>, lib: Library)
    returns (err: ExternError)
    requires table.Valid()
    modifies table
    ensures table.Valid() && table.next == old(table.next)
    ensures value == [] ==> err == Macros.EmptyError("ProofG1")
    ensures err.code == SUCCESS_CODE <==> value != [] && h in old(table.entries) && lib.decodeProofG1(value).Done?
    ensures err.code == SUCCESS_CODE ==>
              table.entries == old(table.entries)[h := old(table.entries)[h].(proof := Some(lib.decodeProofG1(value).value))]
    ensures err.code != SUCCESS_CODE ==> table.entries == old(table.entries)
  {
    err := Macros.SetDecoded(table, h, value, "ProofG1", v => FromLib(lib.decodeProofG1(v)),
                             (c: VerifyBlindSignProofContext, p) => c.(proof := Some(p)));
  }

  /** Every input the finish step needs is present. */
  predicate Complete(c: VerifyBlindSignProofContext) {
    c.blinded != {} && c.commitment.Some? && c.challengeHash.Some? && c.nonce.Some? &&
    c.proof.Some? && c.publicKey.Some?
  }

  /** The library's check of the reassembled `BlindSignatureContext`. */
  function Check(c: VerifyBlindSignProofContext, lib: Library): LibResult<bool>
    requires Complete(c)
  {
    lib.verifyBlindContext(c.commitment.value, c.challengeHash.value, c.proof.value, c.blinded,
                           c.publicKey.value, c.nonce.value)
  }

  /** The closure of `bbs_verify_blind_commitment_context_finish`: six checks in a fixed
      order, then 200 (`Success`) for a valid proof and 401 (`BadHiddenMessage`) otherwise. */
  function FinishBody(c: VerifyBlindSignProofContext, lib: Library): (r: Outcome<int>)
    ensures c.blinded == {} ==> r == Fail(Error("Blinded indices cannot be empty"))
    ensures c.blinded != {} && c.commitment.None? ==> r == Fail(Error("Commitment must be set."))
    ensures c.blinded != {} && c.commitment.Some? && c.challengeHash.None? ==>
              r == Fail(Error("Challenge Hash must be set."))
    ensures c.blinded != {} && c.commitment.Some? && c.challengeHash.Some? && c.nonce.None? ==>
              r == Fail(Error("Nonce must be set."))
    ensures c.blinded != {} && c.commitment.Some? && c.challengeHash.Some? && c.nonce.Some? && c.proof.None? ==>
              r == Fail(Error("Proof must be set."))
    ensures c.blinded != {} && c.commitment.Some? && c.challengeHash.Some? && c.nonce.Some? && c.proof.Some? &&
            c.publicKey.None? ==>
              r == Fail(Error("Public Key must be set"))
    ensures r == Ok(SignatureProofStatus.Success.Code()) <==> Complete(c) && Check(c, lib) == Done(true)
    ensures r == Ok(SignatureProofStatus.BadHiddenMessage.Code()) <==> Complete(c) && Check(c, lib) == Done(false)
    ensures r.Ok? ==> r.value == 200 || r.value == 401
  {
    if c.blinded == {} then Fail(Error("Blinded indices cannot be empty"))
    else if c.commitment.None? then Fail(Error("Commitment must be set."))
    else if c.challengeHash.None? then Fail(Error("Challenge Hash must be set."))
    else if c.nonce.None? then Fail(Error("Nonce must be set."))
    else if c.proof.None? then Fail(Error("Proof must be set."))
    else if c.publicKey.None? then Fail(Error("Public Key must be set"))
    else
      match Check(c, lib)
      case LibError(d) => Fail(Error(d))
      case Done(ok) =>
        Ok(if ok then SignatureProofStatus.Success.Code() else SignatureProofStatus.BadHiddenMessage.Code())
  }

  /** `bbs_verify_blind_commitment_context_finish`: with a verdict the handle is retired and
      the status returned; otherwise the error code is returned and the context stays. */
  method Finish(table: HandleMap<VerifyBlindSignProofContext>, h: Handle, lib: Library)
    returns (status: int, err: ExternError)
    requires table.Valid()
    modifies table
    ensures table.Valid() && table.next == old(table.next)
    ensures h !in old(table.entries) ==>
              err == InvalidHandle() && status == err.code && table.entries == old(table.entries)
    ensures h in old(table.entries) && FinishBody(old(table.entries)[h], lib).Fail? ==>
              err == FinishBody(old(table.entries)[h], lib).error && status == err.code &&
              table.entries == old(table.entries)
    ensures h in old(table.entries) && FinishBody(old(table.entries)[h], lib).Ok? ==>
              err == ExternSuccess() && status == FinishBody(old(table.entries)[h], lib).value &&
              table.entries == old(table.entries) - {h}
  {
    var res := table.CallWithResult(h, c => FinishBody(c, lib));
    if res.Fail? {
      err := res.error;
      status := err.code;
      return;
    }
    err := table.RemoveU64(h);
    status := res.value;
  }

  /** A caller can tell every outcome apart by the returned number alone: the two verdicts
      are distinct from each other and from every error code of the finish step. */
  lemma StatusDistinguishesOutcomes(c: VerifyBlindSignProofContext, lib: Library)
    ensures FinishBody(c, lib).Ok? ==> FinishBody(c, lib).value != 1 && FinishBody(c, lib).value != INVALID_HANDLE_CODE &&
                                       FinishBody(c, lib).value != PANIC_CODE && FinishBody(c, lib).value != SUCCESS_CODE
    ensures FinishBody(c, lib).Fail? ==> FinishBody(c, lib).error.code == 1
  {
  }
}
