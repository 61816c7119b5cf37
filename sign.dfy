/** Signing and signature verification (`bbs_sign_context_*`, `bbs_verify_context_*`). Both
    families share one handle table: the verify entry points for init, messages and the
    public key forward to the sign ones, so they are the same members here (`Init`,
    `AddMessage`, `AddMessagePrehashed`, `SetPublicKey`), and a handle from either init works
    with both. */
module Sign {
  import opened Prelude
  import opened Ffi
  import opened Crypto
  import opened Handles
  import Macros

  /** `bbs_signature_size`. */
  function SignatureSize(): (n: int)
    ensures n == SIGNATURE_COMPRESSED_SIZE == 112
  {
    AsI32(SIGNATURE_COMPRESSED_SIZE)
  }

  /** `SignContext`. */
  datatype SignContext = SignContext(
    messages: seq<SignatureMessage>,
    secretKey: Option<SecretKey>,
    publicKey: Option<PublicKey>,
    signature: Option<Signature>)

  /** `bbs_sign_context_init`, and `bbs_verify_context_init`, which forwards to it. */
  method Init(table: HandleMap<SignContext>) returns (h: Handle, err: ExternError)
    requires table.Valid()
    modifies table
    ensures table.Valid() && err == ExternSuccess()
    ensures h !in old(table.entries) && table.next == old(table.next) + 1
    ensures table.entries == old(table.entries)[h := SignContext([], None, None, None)]
  {
    h := table.InsertWithOutput(SignContext([], None, None, None));
    err := ExternSuccess();
  }

  /** `ctx.messages.push(..)`. */
  function PushMessage(c: SignContext, m: SignatureMessage): (d: SignContext)
    ensures d.messages == c.messages + [m]
    ensures d.(messages := c.messages) == c
  {
    c.(messages := c.messages + [m])
  }

  /** `bbs_sign_context_add_message_string` and `.._bytes` (and their verify forwards). */
  method AddMessage(table: HandleMap<SignContext>, h: Handle, message: seq<Byte>, lib: Library)
    returns (err: ExternError)
    requires table.Valid()
    modifies table
    ensures table.Valid() && table.next == old(table.next)
    ensures message == [] ==> err == Macros.EmptyError("Message")
    ensures err.code == SUCCESS_CODE <==> message != [] && h in old(table.entries)
    ensures err.code == SUCCESS_CODE ==>
              table.entries == old(table.entries)[h := PushMessage(old(table.entries)[h], lib.hashMessage(message))]
    ensures err.code != SUCCESS_CODE ==> table.entries == old(table.entries)
  {
    err := Macros.AddHashedMessage(table, h, message, PushMessage, lib);
  }

  /** `bbs_sign_context_add_message_prehashed` (and its verify forward). */
  method AddMessagePrehashed(table: HandleMap<SignContext>, h: Handle, message: seq<Byte>, lib: Library)
    returns (err: ExternError)
    requires table.Valid()
    modifies table
    ensures table.Valid() && table.next == old(table.next)
    ensures message == [] ==> err == Macros.EmptyError("Message")
    ensures err.code == SUCCESS_CODE <==> message != [] && h in old(table.entries) && lib.decodeMessage(message).Done?
    ensures err.code == SUCCESS_CODE ==>
              table.entries == old(table.entries)[h := PushMessage(old(table.entries)[h], lib.decodeMessage(message).value)]
    ensures err.code != SUCCESS_CODE ==> table.entries == old(table.entries)
  {
    err := Macros.AddPrehashedMessage(table, h, message, PushMessage, lib);
  }

  /** `bbs_sign_context_set_secret_key`. */
  method SetSecretKey(table: HandleMap<SignContext>, h: Handle, value: seq<Byte>, lib: Library)
    returns (err: ExternError)
    requires table.Valid()
    modifies table
    ensures table.Valid() && table.next == old(table.next)
    ensures value == [] ==> err == Macros.EmptyError("SecretKey")
    ensures err.code == SUCCESS_CODE <==> value != [] && h in old(table.entries) && lib.decodeSecretKey(value).Done?
    ensures err.code == SUCCESS_CODE ==>
              table.entries == old(table.entries)[h := old(table.entries)[h].(secretKey := Some(lib.decodeSecretKey(value).value))]
    ensures err.code != SUCCESS_CODE ==> table.entries == old(table.entries)
  {
    err := Macros.SetDecoded(table, h, value, "SecretKey", v => FromLib(lib.decodeSecretKey(v)),
                             (c: SignContext, k) => c.(secretKey := Some(k)));
  }

  /** `bbs_sign_context_set_public_key` (and `bbs_verify_context_set_public_key`). */
  method SetPublicKey(table: HandleMap<SignContext>, h: Handle, value: seq<Byte>, lib: Library)
    returns (err: ExternError)
    requires table.Valid()
    modifies table
    ensures table.Valid() && table.next == old(table.next)
    ensures value == [] ==> err == Macros.EmptyError("PublicKey")
    ensures err.code == SUCCESS_CODE <==> value != [] && h in old(table.entries) && lib.decodePublicKey(value).Done?
    ensures err.code == SUCCESS_CODE ==>
              table.entries == old(table.entries)[h := old(table.entries)[h].(publicKey := Some(lib.decodePublicKey(value).value))]
    ensures err.code != SUCCESS_CODE ==> table.entries == old(table.entries)
  {
    err := Macros.SetDecoded(table, h, value, "PublicKey", v => FromLib(lib.decodePublicKey(v)),
                             (c: SignContext, k) => c.(publicKey := Some(k)));
  }

  /** `bbs_verify_context_set_signature`. */
  method SetSignature(table: HandleMap<SignContext>, h: Handle, value: seq<Byte>, lib: Library)
    returns (err: ExternError)
    requires table.Valid()
    modifies table
    ensures table.Valid() && table.next == old(table.next)
    ensures value == [] ==> err == Macros.EmptyError("Signature")
    ensures err.code == SUCCESS_CODE <==> value != [] && h in old(table.entries) && lib.decodeSignature(value).Done?
    ensures err.code == SUCCESS_CODE ==>
              table.entries == old(table.entries)[h := old(table.entries)[h].(signature := Some(lib.decodeSignature(value).value))]
    ensures err.code != SUCCESS_CODE ==> table.entries == old(table.entries)
  {
    err := Macros.SetDecoded(table, h, value, "Signature", v => FromLib(lib.decodeSignature(v)),
                             (c: SignContext, s) => c.(signature := Some(s)));
  }

  /** The closure of `bbs_sign_context_finish`: both keys and at least one message are
      required, checked in that order; then the compressed signature. */
  function FinishBody(c: SignContext, lib: Library): (r: Outcome<seq<Byte>>)
    ensures c.secretKey.None? ==> r == Fail(Error("Secret Key must be set"))
    ensures c.secretKey.Some? && c.publicKey.None? ==> r == Fail(Error("Public Key must be set"))
    ensures c.secretKey.Some? && c.publicKey.Some? && c.messages == [] ==> r == Fail(Error("Messages cannot be empty"))
    ensures r.Ok? <==> c.secretKey.Some? && c.publicKey.Some? && c.messages != [] &&
                       lib.sign(c.messages, c.secretKey.value, c.publicKey.value).Done?
    ensures r.Ok? ==> r.value == lib.signatureBytes(lib.sign(c.messages, c.secretKey.value, c.publicKey.value).value)
    ensures r.Fail? ==> r.error.code == 1
  {
    if c.secretKey.None? then Fail(Error("Secret Key must be set"))
    else if c.publicKey.None? then Fail(Error("Public Key must be set"))
    else if c.messages == [] then Fail(Error("Messages cannot be empty"))
    else
      match lib.sign(c.messages, c.secretKey.value, c.publicKey.value)
      case LibError(d) => Fail(Error(d))
      case Done(s) => Ok(lib.signatureBytes(s))
  }

  /** `bbs_sign_context_finish`: on success the signature is written to `signature` and the
      handle is retired; on failure neither changes. */
  method Finish(table: HandleMap<SignContext>, h: Handle, signature: ByteBuffer, lib: Library)
    returns (err: ExternError)
    requires table.Valid()
    modifies table, signature
    ensures table.Valid() && table.next == old(table.next)
    ensures h !in old(table.entries) ==>
              err == InvalidHandle() && signature.data == old(signature.data) && table.entries == old(table.entries)
    ensures h in old(table.entries) && FinishBody(old(table.entries)[h], lib).Fail? ==>
              err == FinishBody(old(table.entries)[h], lib).error &&
              signature.data == old(signature.data) && table.entries == old(table.entries)
    ensures h in old(table.entries) && FinishBody(old(table.entries)[h], lib).Ok? ==>
              err == ExternSuccess() && signature.data == FinishBody(old(table.entries)[h], lib).value &&
              table.entries == old(table.entries) - {h}
  {
    var res := table.CallWithResult(h, c => FinishBody(c, lib));
    if res.Fail? {
      err := res.error;
      return;
    }
    signature.data := res.value;
    err := table.RemoveU64(h);
  }

  /** The closure of `bbs_verify_context_finish`: signature, public key and messages are
      required, checked in that order; a verdict is 1 for valid and 0 for invalid. */
  function VerifyBody(c: SignContext, lib: Library): (r: Outcome<int>)
    ensures c.signature.None? ==> r == Fail(Error("Signature must be set"))
    ensures c.signature.Some? && c.publicKey.None? ==> r == Fail(Error("Public Key must be set"))
    ensures c.signature.Some? && c.publicKey.Some? && c.messages == [] ==> r == Fail(Error("Messages cannot be empty"))
    ensures r == Ok(1) <==> c.signature.Some? && c.publicKey.Some? && c.messages != [] &&
                            lib.verify(c.messages, c.signature.value, c.publicKey.value) == Done(true)
    ensures r == Ok(0) <==> c.signature.Some? && c.publicKey.Some? && c.messages != [] &&
                            lib.verify(c.messages, c.signature.value, c.publicKey.value) == Done(false)
    ensures r.Ok? ==> r == Ok(0) || r == Ok(1)
  {
    if c.signature.None? then Fail(Error("Signature must be set"))
    else if c.publicKey.None? then Fail(Error("Public Key must be set"))
    else if c.messages == [] then Fail(Error("Messages cannot be empty"))
    else
      match lib.verify(c.messages, c.signature.value, c.publicKey.value)
      case LibError(d) => Fail(Error(d))
      case Done(b) => Ok(if b then 1 else 0)
  }

  /** `bbs_verify_context_finish`: the verdict, or the `i32` default 0 when there is none. The
      handle is not retired, and nothing changes. A caller sees 1 exactly for a valid
      signature; an invalid one and an error both return 0 and differ only in `err`. */
  method VerifyFinish(table: HandleMap<SignContext>, h: Handle, lib: Library) returns (verified: int, err: ExternError)
    ensures verified == 1 <==> h in table.entries && VerifyBody(table.entries[h], lib) == Ok(1)
    ensures verified != 1 ==> verified == 0
    ensures err.code == SUCCESS_CODE <==> h in table.entries && VerifyBody(table.entries[h], lib).Ok?
    ensures h !in table.entries ==> err == InvalidHandle()
    ensures h in table.entries && VerifyBody(table.entries[h], lib).Fail? ==> err == VerifyBody(table.entries[h], lib).error
  {
    var res := table.CallWithResult(h, c => VerifyBody(c, lib));
    if res.Ok? {
      verified, err := res.value, ExternSuccess();
    } else {
      verified, err := 0, res.error;
    }
  }

  /** The library's signatures verify under the key pair and messages they were made with,
      and their compressed form decodes back to them. */
  ghost predicate SignaturesVerify(lib: Library) {
    forall msgs, sk, pk | lib.sign(msgs, sk, pk).Done? ::
      lib.verify(msgs, lib.sign(msgs, sk, pk).value, pk) == Done(true) &&
      lib.decodeSignature(lib.signatureBytes(lib.sign(msgs, sk, pk).value)) == Done(lib.sign(msgs, sk, pk).value)
  }

  /** Sign, then verify: with such a library, a signature produced by finishing a sign context,
      set on a context with the same messages and public key, verifies. */
  lemma {:induction false} SignThenVerify(c: SignContext, d: SignContext, lib: Library)
    requires SignaturesVerify(lib)
    requires FinishBody(c, lib).Ok?
    requires d.messages == c.messages && d.publicKey == c.publicKey
    requires lib.decodeSignature(FinishBody(c, lib).value).Done?
    requires d.signature == Some(lib.decodeSignature(FinishBody(c, lib).value).value)
    ensures VerifyBody(d, lib) == Ok(1)
  {
    var s := lib.sign(c.messages, c.secretKey.value, c.publicKey.value).value;
    assert lib.verify(c.messages, s, c.publicKey.value) == Done(true);
    assert d.signature == Some(s);
  }
}
