/** The holder's side of a blind signature request (`bbs_blind_commitment_context_*`): commit
    to the messages the signer must not see, keyed by their index, and hand out the
    commitment, the full signature context and the blinding factor that later unblinds the
    signature. */
module BlindCommitment {
  import opened Prelude
  import opened Ffi
  import opened Crypto
  import opened Handles
  import Macros

  /** `bbs_blind_signature_size`: a blind signature has the size of a signature. */
  function BlindSignatureSize(): (n: int)
    ensures n == SIGNATURE_COMPRESSED_SIZE == 112
  {
    AsI32(SIGNATURE_COMPRESSED_SIZE)
  }

  /** `BlindCommitmentContext`. */
  datatype BlindCommitmentContext = BlindCommitmentContext(
    messages: map<nat, SignatureMessage>,
    publicKey: Option<PublicKey>,
    nonce: Option<ProofNonce>)

  /** `bbs_blind_commitment_context_init`. */
  method Init(table: HandleMap<BlindCommitmentContext>) returns (h: Handle, err: ExternError)
    requires table.Valid()
    modifies table
    ensures table.Valid() && err == ExternSuccess()
    ensures h !in old(table.entries) && table.next == old(table.next) + 1
    ensures table.entries == old(table.entries)[h := BlindCommitmentContext(map[], None, None)]
  {
    h := table.InsertWithOutput(BlindCommitmentContext(map[], None, None));
    err := ExternSuccess();
  }

  /** `ctx.messages.insert(index as usize, ..)`. */
  function InsertMessage(c: BlindCommitmentContext, index: nat, m: SignatureMessage): (d: BlindCommitmentContext)
    ensures d.messages.Keys == c.messages.Keys + {index} && d.messages[index] == m
    ensures forall i | i in c.messages && i != index :: d.messages[i] == c.messages[i]
    ensures d.(messages := c.messages) == c
  {
    c.(messages := c.messages[index := m])
  }

  /** `bbs_blind_commitment_context_add_message_string` and `.._bytes`. */
  method AddMessage(table: HandleMap<BlindCommitmentContext>, h: Handle, index: U32, message: seq<Byte>, lib: Library)
    returns (err: ExternError)
    requires table.Valid()
    modifies table
    ensures table.Valid() && table.next == old(table.next)
    ensures message == [] ==> err == Macros.EmptyError("Message")
    ensures err.code == SUCCESS_CODE <==> message != [] && h in old(table.entries)
    ensures err.code == SUCCESS_CODE ==>
              table.entries == old(table.entries)[h := InsertMessage(old(table.entries)[h], index, lib.hashMessage(message))]
    ensures err.code != SUCCESS_CODE ==> table.entries == old(table.entries)
  {
    err := Macros.AddHashedMessage(table, h, message, (c, m) => InsertMessage(c, index, m), lib);
  }

  /** `bbs_blind_commitment_context_add_message_prehashed`. */
  method AddMessagePrehashed(table: HandleMap<BlindCommitmentContext>, h: Handle, index: U32, message: seq<Byte>, lib: Library)
    returns (err: ExternError)
    requires table.Valid()
    modifies table
    ensures table.Valid() && table.next == old(table.next)
    ensures message == [] ==> err == Macros.EmptyError("Message")
    ensures err.code == SUCCESS_CODE <==> message != [] && h in old(table.entries) && lib.decodeMessage(message).Done?
    ensures err.code == SUCCESS_CODE ==>
              table.entries == old(table.entries)[h := InsertMessage(old(table.entries)[h], index, lib.decodeMessage(message).value)]
    ensures err.code != SUCCESS_CODE ==> table.entries == old(table.entries)
  {
    err := Macros.AddPrehashedMessage(table, h, message, (c, m) => InsertMessage(c, index, m), lib);
  }

  /** `bbs_blind_commitment_context_set_public_key`. */
  method SetPublicKey(table: HandleMap<BlindCommitmentContext>, h: Handle, value: seq<Byte>, lib: Library)
    returns (err: ExternError)
    requires table.Valid()
    modifies table
    ensures table.Valid() && table.next == old(table.next)
    ensures value == [] ==> err == Macros.EmptyError("PublicKey")
    ensures err.code == SUCCESS_CODE <==> value != [] && h in old(table.entries) && lib.decodePublicKey(value).Done?
    ensures err.code == SUCCESS_CODE ==>
              table.entries == old(table.entries)[h := old(table.entries)[h].(publicKey := Some(lib.decodePublicKey(value).value))]
    ensures err.code != SUCCESS_CODE ==> table.entries == old(table.entries)
  {
    err := Macros.SetDecoded(table, h, value, "PublicKey", v => FromLib(lib.decodePublicKey(v)),
                             (c: BlindCommitmentContext, k) => c.(publicKey := Some(k)));
  }

  /** `bbs_blind_commitment_context_set_nonce_string`. */
  method SetNonceString(table: HandleMap<BlindCommitmentContext>, h: Handle, value: seq<Byte>, lib: Library)
    returns (err: ExternError)
    requires table.Valid()
    modifies table
    ensures table.Valid() && table.next == old(table.next)
    ensures value == [] ==> err == Macros.EmptyError("Message")
    ensures err.code == SUCCESS_CODE <==> value != [] && h in old(table.entries)
    ensures err.code == SUCCESS_CODE ==>
              table.entries == old(table.entries)[h := old(table.entries)[h].(nonce := Some(lib.hashNonce(value)))]
    ensures err.code != SUCCESS_CODE ==> table.entries == old(table.entries)
  {
    err := Macros.SetHashed(table, h, value, Macros.EmptyError("Message"), lib.hashNonce,
                            (c: BlindCommitmentContext, n) => c.(nonce := Some(n)));
  }

  /** `bbs_blind_commitment_context_set_nonce_bytes`. */
  method SetNonceBytes(table: HandleMap<BlindCommitmentContext>, h: Handle, value: seq<Byte>, lib: Library)
    returns (err: ExternError)
    requires table.Valid()
    modifies table
    ensures table.Valid() && table.next == old(table.next)
    ensures value == [] ==> err == Macros.EmptyError("ProofNonce")
    ensures err.code == SUCCESS_CODE <==> value != [] && h in old(table.entries)
    ensures err.code == SUCCESS_CODE ==>
              table.entries == old(table.entries)[h := old(table.entries)[h].(nonce := Some(lib.hashNonce(value)))]
    ensures err.code != SUCCESS_CODE ==> table.entries == old(table.entries)
  {
    err := Macros.SetHashed(table, h, value, Macros.EmptyError("ProofNonce"), lib.hashNonce,
                            (c: BlindCommitmentContext, n) => c.(nonce := Some(n)));
  }

  /** `bbs_blind_commitment_context_set_nonce_prehashed`. */
  method SetNoncePrehashed(table: HandleMap<BlindCommitmentContext>, h: Handle, value: seq<Byte>, lib: Library)
    returns (err: ExternError)
    requires table.Valid()
    modifies table
    ensures table.Valid() && table.next == old(table.next)
    ensures value == [] ==> err == Macros.EmptyError("ProofNonce")
    ensures err.code == SUCCESS_CODE <==> value != [] && h in old(table.entries) && lib.decodeNonce(value).Done?
    ensures err.code == SUCCESS_CODE ==>
              table.entries == old(table.entries)[h := old(table.entries)[h].(nonce := Some(lib.decodeNonce(value).value))]
    ensures err.code != SUCCESS_CODE ==> table.entries == old(table.entries)
  {
    err := Macros.SetDecoded(table, h, value, "ProofNonce", v => FromLib(lib.decodeNonce(v)),
                             (c: BlindCommitmentContext, n) => c.(nonce := Some(n)));
  }

  /** The closure of `bbs_blind_commitment_context_finish`: nonce, public key and messages
      are required, checked in that order; the output is the blinding factor followed by the
      signature context. */
  function FinishBody(c: BlindCommitmentContext, lib: Library): (r: Outcome<seq<Byte>>)
    ensures c.nonce.None? ==> r == Fail(Error("Nonce must be set"))
    ensures c.nonce.Some? && c.publicKey.None? ==> r == Fail(Error("Public Key must be set"))
    ensures c.nonce.Some? && c.publicKey.Some? && c.messages == map[] ==> r == Fail(Error("Messages cannot be empty"))
    ensures r.Ok? <==> c.nonce.Some? && c.publicKey.Some? && c.messages != map[] &&
                       lib.newBlindSignatureContext(c.publicKey.value, c.messages, c.nonce.value).Done?
    ensures r.Ok? ==>
              var (context, blinding) := lib.newBlindSignatureContext(c.publicKey.value, c.messages, c.nonce.value).value;
              r.value == lib.blindingBytes(blinding) + lib.contextBytes(context)
    ensures r.Ok? ==> |r.value| >= FR_COMPRESSED_SIZE + G1_COMPRESSED_SIZE
    ensures r.Fail? ==> r.error.code == 1
  {
    if c.nonce.None? then Fail(Error("Nonce must be set"))
    else if c.publicKey.None? then Fail(Error("Public Key must be set"))
    else if c.messages == map[] then Fail(Error("Messages cannot be empty"))
    else
      match lib.newBlindSignatureContext(c.publicKey.value, c.messages, c.nonce.value)
      case LibError(d) => Fail(Error(d))
      case Done((context, blinding)) => Ok(lib.blindingBytes(blinding) + lib.contextBytes(context))
  }

  /** How the finish step cuts its output: the first scalar is the blinding factor, the G1
      point after it is the commitment, and everything after the scalar is the context. */
  function SplitOutput(v: seq<Byte>): (r: (seq<Byte>, seq<Byte>, seq<Byte>))
    requires |v| >= FR_COMPRESSED_SIZE + G1_COMPRESSED_SIZE
    ensures var (blindingFactor, commitment, context) := r;
            |blindingFactor| == FR_COMPRESSED_SIZE && |commitment| == G1_COMPRESSED_SIZE &&
            blindingFactor + context == v && commitment == context[..G1_COMPRESSED_SIZE]
  {
    (v[..FR_COMPRESSED_SIZE], v[FR_COMPRESSED_SIZE..G1_COMPRESSED_SIZE + FR_COMPRESSED_SIZE], v[FR_COMPRESSED_SIZE..])
  }

  /** Cutting the output recovers exactly the two values it was made of; the commitment is
      the head of the context. */
  lemma SplitRecoversParts(bf: FrBytes, context: ContextBytes)
    ensures SplitOutput(bf + context) == (bf, context[..G1_COMPRESSED_SIZE], context)
  {
    var v := bf + context;
    assert v[..FR_COMPRESSED_SIZE] == bf;
    assert v[FR_COMPRESSED_SIZE..] == context;
  }

  /** `bbs_blind_commitment_context_finish`: on success the three out-buffers receive the
      parts of the output and the handle is retired; on failure nothing changes. The buffers
      are distinct `&mut` references. */
  method Finish(table: HandleMap<BlindCommitmentContext>, h: Handle,
                commitment: ByteBuffer, outContext: ByteBuffer, blindingFactor: ByteBuffer, lib: Library)
    returns (err: ExternError)
    requires table.Valid()
    requires commitment != outContext && commitment != blindingFactor && outContext != blindingFactor
    modifies table, commitment, outContext, blindingFactor
    ensures table.Valid() && table.next == old(table.next)
    ensures h !in old(table.entries) ==>
              err == InvalidHandle() && table.entries == old(table.entries) &&
              commitment.data == old(commitment.data) && outContext.data == old(outContext.data) &&
              blindingFactor.data == old(blindingFactor.data)
    ensures h in old(table.entries) && FinishBody(old(table.entries)[h], lib).Fail? ==>
              err == FinishBody(old(table.entries)[h], lib).error && table.entries == old(table.entries) &&
              commitment.data == old(commitment.data) && outContext.data == old(outContext.data) &&
              blindingFactor.data == old(blindingFactor.data)
    ensures h in old(table.entries) && FinishBody(old(table.entries)[h], lib).Ok? ==>
              var c := old(table.entries)[h];
              var (context, blinding) := lib.newBlindSignatureContext(c.publicKey.value, c.messages, c.nonce.value).value;
              err == ExternSuccess() && table.entries == old(table.entries) - {h} &&
              blindingFactor.data == lib.blindingBytes(blinding) &&
              outContext.data == lib.contextBytes(context) &&
              commitment.data == lib.contextBytes(context)[..G1_COMPRESSED_SIZE]
  {
    var res := table.CallWithResult(h, c => FinishBody(c, lib));
    if res.Fail? {
      err := res.error;
      return;
    }
    ghost var c := old(table.entries)[h];
    ghost var parts := lib.newBlindSignatureContext(c.publicKey.value, c.messages, c.nonce.value).value;
    SplitRecoversParts(lib.blindingBytes(parts.1), lib.contextBytes(parts.0));
    var v := res.value;
    var (bf, cm, ctx) := SplitOutput(v);
    blindingFactor.data := bf;
    commitment.data := cm;
    outContext.data := ctx;
    err := table.RemoveU64(h);
  }
}
