/** The signer's side of a blind signature (`bbs_blind_sign_context_*`) and the holder's
    unblinding step (`bbs_unblind_signature`). The signer sees only the holder's commitment
    and the messages it is told, keyed by index. */
module BlindSign {
  import opened Prelude
  import opened Ffi
  import opened Crypto
  import opened Handles
  import Macros

  /** `bbs_blinding_factor_size`: a blinding factor is one scalar. */
  function BlindingFactorSize(): (n: int)
    ensures n == FR_COMPRESSED_SIZE == 32
  {
    AsI32(FR_COMPRESSED_SIZE)
  }

  /** `BlindSignContext`. */
  datatype BlindSignContext = BlindSignContext(
    commitment: Option<Commitment>,
    messages: map<nat, SignatureMessage>,
    publicKey: Option<PublicKey>,
    secretKey: Option<SecretKey>)

  /** `bbs_blind_sign_context_init`. */
  method Init(table: HandleMap<BlindSignContext>) returns (h: Handle, err: ExternError)
    requires table.Valid()
    modifies table
    ensures table.Valid() && err == ExternSuccess()
    ensures h !in old(table.entries) && table.next == old(table.next) + 1
    ensures table.entries == old(table.entries)[h := BlindSignContext(None, map[], None, None)]
  {
    h := table.InsertWithOutput(BlindSignContext(None, map[], None, None));
    err := ExternSuccess();
  }

  /** `ctx.messages.insert(index as usize, ..)`. */
  function InsertMessage(c: BlindSignContext, index: nat, m: SignatureMessage): (d: BlindSignContext)
    ensures d.messages.Keys == c.messages.Keys + {index} && d.messages[index] == m
    ensures forall i | i in c.messages && i != index :: d.messages[i] == c.messages[i]
    ensures d.(messages := c.messages) == c
  {
    c.(messages := c.messages[index := m])
  }

  /** `bbs_blind_sign_context_add_message_string` and `.._bytes`. */
  method AddMessage(table: HandleMap<BlindSignContext>, h: Handle, index: U32, message: seq<Byte>, lib: Library)
    returns (err: ExternError)
    requires table.Valid()
    modifies table
    ensures table.Valid() && table.next == old(table.next)
    ensures message == [] ==> err == Macros.EmptyError("Message")
    ensures err.code == SUCCESS_CODE <==> message != [] && h in old(table.entries)
    ensures err.code == SUCCESS_CODE ==>
              table.entries == old(table.entries)[h := InsertMessage(old(table.entries)[h], index, lib.hashMessage(message))]
    ensures err.code != SUCCESS_CODE ==> table.entries == old(table.entries)
  {
    err := Macros.AddHashedMessage(table, h, message, (c, m) => InsertMessage(c, index, m), lib);
  }

  /** `bbs_blind_sign_context_add_message_prehashed`. */
  method AddMessagePrehashed(table: HandleMap<BlindSignContext>, h: Handle, index: U32, message: seq<Byte>, lib: Library)
    returns (err: ExternError)
    requires table.Valid()
    modifies table
    ensures table.Valid() && table.next == old(table.next)
    ensures message == [] ==> err == Macros.EmptyError("Message")
    ensures err.code == SUCCESS_CODE <==> message != [] && h in old(table.entries) && lib.decodeMessage(message).Done?
    ensures err.code == SUCCESS_CODE ==>
              table.entries == old(table.entries)[h := InsertMessage(old(table.entries)[h], index, lib.decodeMessage(message).value)]
    ensures err.code != SUCCESS_CODE ==> table.entries == old(table.entries)
  {
    err := Macros.AddPrehashedMessage(table, h, message, (c, m) => InsertMessage(c, index, m), lib);
  }

  /** `bbs_blind_sign_context_set_public_key`. */
  method SetPublicKey(table: HandleMap<BlindSignContext>, h: Handle, value: seq<Byte>, lib: Library)
    returns (err: ExternError)
    requires table.Valid()
    modifies table
    ensures table.Valid() && table.next == old(table.next)
    ensures value == [] ==> err == Macros.EmptyError("PublicKey")
    ensures err.code == SUCCESS_CODE <==> value != [] && h in old(table.entries) && lib.decodePublicKey(value).Done?
    ensures err.code == SUCCESS_CODE ==>
              table.entries == old(table.entries)[h := old(table.entries)[h].(publicKey := Some(lib.decodePublicKey(value).value))]
    ensures err.code != SUCCESS_CODE ==> table.entries == old(table.entries)
  {
    err := Macros.SetDecoded(table, h, value, "PublicKey", v => FromLib(lib.decodePublicKey(v)),
                             (c: BlindSignContext, k) => c.(publicKey := Some(k)));
  }

  /** `bbs_blind_sign_context_set_secret_key`. */
  method SetSecretKey(table: HandleMap<BlindSignContext>, h: Handle, value: seq<Byte>, lib: Library)
    returns (err: ExternError)
    requires table.Valid()
    modifies table
    ensures table.Valid() && table.next == old(table.next)
    ensures value == [] ==> err == Macros.EmptyError("SecretKey")
    ensures err.code == SUCCESS_CODE <==> value != [] && h in old(table.entries) && lib.decodeSecretKey(value).Done?
    ensures err.code == SUCCESS_CODE ==>
              table.entries == old(table.entries)[h := old(table.entries)[h].(secretKey := Some(lib.decodeSecretKey(value).value))]
    ensures err.code != SUCCESS_CODE ==> table.entries == old(table.entries)
  {
    err := Macros.SetDecoded(table, h, value, "SecretKey", v => FromLib(lib.decodeSecretKey(v)),
                             (c: BlindSignContext, k) => c.(secretKey := Some(k)));
  }

  /** `bbs_blind_sign_context_set_commitment`. */
  method SetCommitment(table: HandleMap<BlindSignContext>, h: Handle, value: seq<Byte>, lib: Library)
    returns (err: ExternError)
    requires table.Valid()
    modifies table
    ensures table.Valid() && table.next == old(table.next)
    ensures value == [] ==> err == Macros.EmptyError("Commitment")
    ensures err.code == SUCCESS_CODE <==> value != [] && h in old(table.entries) && lib.decodeCommitment(value).Done?
    ensures err.code == SUCCESS_CODE ==>
              table.entries == old(table.entries)[h := old(table.entries)[h].(commitment := Some(lib.decodeCommitment(value).value))]
    ensures err.code != SUCCESS_CODE ==> table.entries == old(table.entries)
  {
    err := Macros.SetDecoded(table, h, value, "Commitment", v => FromLib(lib.decodeCommitment(v)),
                             (c: BlindSignContext, k) => c.(commitment := Some(k)));
  }

  /** The closure of `bbs_blind_sign_context_finish`: commitment, secret key, public key and
      messages are required, checked in that order; then the compressed blind signature. */
  function FinishBody(c: BlindSignContext, lib: Library): (r: Outcome<seq<Byte>>)
    ensures c.commitment.None? ==> r == Fail(Error("Commitment must be set"))
    ensures c.commitment.Some? && c.secretKey.None? ==> r == Fail(Error("Secret Key must be set"))
    ensures c.commitment.Some? && c.secretKey.Some? && c.publicKey.None? ==> r == Fail(Error("Public Key must be set"))
    ensures c.commitment.Some? && c.secretKey.Some? && c.publicKey.Some? && c.messages == map[] ==>
              r == Fail(Error("Messages cannot be empty"))
    ensures r.Ok? <==> c.commitment.Some? && c.secretKey.Some? && c.publicKey.Some? && c.messages != map[] &&
                       lib.blindSign(c.commitment.value, c.messages, c.secretKey.value, c.publicKey.value).Done?
    ensures r.Ok? ==>
              r.value == lib.blindSignatureBytes(lib.blindSign(c.commitment.value, c.messages, c.secretKey.value, c.publicKey.value).value)
    ensures r.Fail? ==> r.error.code == 1
  {
    if c.commitment.None? then Fail(Error("Commitment must be set"))
    else if c.secretKey.None? then Fail(Error("Secret Key must be set"))
    else if c.publicKey.None? then Fail(Error("Public Key must be set"))
    else if c.messages == map[] then Fail(Error("Messages cannot be empty"))
    else
      match lib.blindSign(c.commitment.value, c.messages, c.secretKey.value, c.publicKey.value)
      case LibError(d) => Fail(Error(d))
      case Done(s) => Ok(lib.blindSignatureBytes(s))
  }

  /** `bbs_blind_sign_context_finish`: on success the blind signature is written out and the
      handle is retired; on failure neither changes. */
  method Finish(table: HandleMap<BlindSignContext>, h: Handle, blindedSignature: ByteBuffer, lib: Library)
    returns (err: ExternError)
    requires table.Valid()
    modifies table, blindedSignature
    ensures table.Valid() && table.next == old(table.next)
    ensures h !in old(table.entries) ==>
              err == InvalidHandle() && blindedSignature.data == old(blindedSignature.data) &&
              table.entries == old(table.entries)
    ensures h in old(table.entries) && FinishBody(old(table.entries)[h], lib).Fail? ==>
              err == FinishBody(old(table.entries)[h], lib).error &&
              blindedSignature.data == old(blindedSignature.data) && table.entries == old(table.entries)
    ensures h in old(table.entries) && FinishBody(old(table.entries)[h], lib).Ok? ==>
              err == ExternSuccess() && blindedSignature.data == FinishBody(old(table.entries)[h], lib).value &&
              table.entries == old(table.entries) - {h}
  {
    var res := table.CallWithResult(h, c => FinishBody(c, lib));
    if res.Fail? {
      err := res.error;
      return;
    }
    blindedSignature.data := res.value;
    err := table.RemoveU64(h);
  }

  /** The closure of `bbs_unblind_signature`: decode the blind signature, then the blinding
      factor, and strip the blinding. */
  function UnblindBody(blindSignature: seq<Byte>, blindingFactor: seq<Byte>, lib: Library): (r: Outcome<seq<Byte>>)
    ensures lib.decodeBlindSignature(blindSignature).LibError? ==>
              r == Fail(Error(lib.decodeBlindSignature(blindSignature).debug))
    ensures lib.decodeBlindSignature(blindSignature).Done? && lib.decodeBlinding(blindingFactor).LibError? ==>
              r == Fail(Error(lib.decodeBlinding(blindingFactor).debug))
    ensures r.Ok? <==> lib.decodeBlindSignature(blindSignature).Done? && lib.decodeBlinding(blindingFactor).Done?
    ensures r.Ok? ==>
              r.value == lib.signatureBytes(lib.unblind(lib.decodeBlindSignature(blindSignature).value,
                                                        lib.decodeBlinding(blindingFactor).value))
  {
    match lib.decodeBlindSignature(blindSignature)
    case LibError(d) => Fail(Error(d))
    case Done(s) =>
      match lib.decodeBlinding(blindingFactor)
      case LibError(d) => Fail(Error(d))
      case Done(b) => Ok(lib.signatureBytes(lib.unblind(s, b)))
  }

  /** `bbs_unblind_signature`: the out-buffer is always written, with the signature or with
      the empty default, and the function always returns 0; only `err` tells failure apart. */
  method UnblindSignature(blindSignature: seq<Byte>, blindingFactor: seq<Byte>, unblindSignature: ByteBuffer, lib: Library)
    returns (ret: int, err: ExternError)
    modifies unblindSignature
    ensures ret == 0
    ensures UnblindBody(blindSignature, blindingFactor, lib).Ok? ==>
              err == ExternSuccess() && unblindSignature.data == UnblindBody(blindSignature, blindingFactor, lib).value
    ensures UnblindBody(blindSignature, blindingFactor, lib).Fail? ==>
              err == UnblindBody(blindSignature, blindingFactor, lib).error && unblindSignature.data == []
  {
    var res := UnblindBody(blindSignature, blindingFactor, lib);
    if res.Ok? {
      unblindSignature.data, err := res.value, ExternSuccess();
    } else {
      unblindSignature.data, err := [], res.error;
    }
    ret := 0;
  }

  /** Whoever holds the blinding factor a commitment context handed out can unblind a blind
      signature issued on that commitment, provided the factor's compressed form decodes. */
  lemma UnblindWithHoldersFactor(blinding: SignatureBlinding, blindSignature: BlindSignature, lib: Library)
    requires lib.decodeBlinding(lib.blindingBytes(blinding)) == Done(blinding)
    requires lib.decodeBlindSignature(lib.blindSignatureBytes(blindSignature)) == Done(blindSignature)
    ensures |lib.blindingBytes(blinding)| == BlindingFactorSize()
    ensures UnblindBody(lib.blindSignatureBytes(blindSignature), lib.blindingBytes(blinding), lib) ==
            Ok(lib.signatureBytes(lib.unblind(blindSignature, blinding)))
  {
  }
}
