/** The message-ingestion and setter entry points that the `add_message_impl!`,
    `add_bytes_impl!` and `add_proof_message_impl!` macros generate for every context type.
    Each is written once here, generic in the context record `C`; the protocol modules pass
    the record update that the macro instantiation names (`ctx.messages.push`,
    `ctx.messages.insert(index, ..)`, `ctx.$property = Some(..)`).

    The string variants receive a C string; the model takes its bytes, so `..._string` and
    `..._bytes` share one method wherever their behaviour is the same. Every method returns
    the `ExternError` written to `err`; the `i32` the entry point returns is its code. */
module Macros {
  import opened Prelude
  import opened Ffi
  import opened Crypto
  import opened Handles

  /** The error reported when an input byte string is empty (`"{} cannot be empty"`). */
  function EmptyError(what: string): (e: ExternError)
    ensures e.code == 1 && e.message == what + " cannot be empty"
  {
    Error(what + " cannot be empty")
  }

  // ---------------------------------------------------------------------------
  // add_message_impl! (both arms)

  /** `$name_string` / `$name_bytes`: hash the message and hand it to `add`, which pushes it
      (un-indexed arm) or inserts it at an index (indexed arm). An empty message is rejected
      before the table is touched. */
  method AddHashedMessage<C>(table: HandleMap<C>, h: Handle, message: seq<Byte>,
                             add: (C, SignatureMessage) -> C, lib: Library)
    returns (err: ExternError)
    requires table.Valid()
    modifies table
    ensures table.Valid() && table.next == old(table.next)
    ensures message == [] ==> err == EmptyError("Message") && table.entries == old(table.entries)
    ensures message != [] && h !in old(table.entries) ==>
              err == InvalidHandle() && table.entries == old(table.entries)
    ensures message != [] && h in old(table.entries) ==>
              err == ExternSuccess() &&
              table.entries == old(table.entries)[h := add(old(table.entries)[h], lib.hashMessage(message))]
  {
    if message == [] {
      err := EmptyError("Message");
      return;
    }
    var m := lib.hashMessage(message);
    err := table.CallWithOutputMut(h, c => add(c, m));
  }

  /** The closure of the prehashed variants: decode the scalar first, then add it. */
  function AddDecoded<C>(c: C, message: seq<Byte>, add: (C, SignatureMessage) -> C, lib: Library): (r: Outcome<C>)
    ensures lib.decodeMessage(message).Done? ==> r == Ok(add(c, lib.decodeMessage(message).value))
    ensures lib.decodeMessage(message).LibError? ==> r == Fail(Error(lib.decodeMessage(message).debug))
  {
    match lib.decodeMessage(message)
    case Done(m) => Ok(add(c, m))
    case LibError(d) => Fail(Error(d))
  }

  /** `$name_prehash`: the message is a scalar's encoding. A decode failure is reported and
      nothing is added. */
  method AddPrehashedMessage<C>(table: HandleMap<C>, h: Handle, message: seq<Byte>,
                                add: (C, SignatureMessage) -> C, lib: Library)
    returns (err: ExternError)
    requires table.Valid()
    modifies table
    ensures table.Valid() && table.next == old(table.next)
    ensures message == [] ==> err == EmptyError("Message") && table.entries == old(table.entries)
    ensures message != [] && h !in old(table.entries) ==>
              err == InvalidHandle() && table.entries == old(table.entries)
    ensures message != [] && h in old(table.entries) && lib.decodeMessage(message).LibError? ==>
              err == Error(lib.decodeMessage(message).debug) && table.entries == old(table.entries)
    ensures message != [] && h in old(table.entries) && lib.decodeMessage(message).Done? ==>
              err == ExternSuccess() &&
              table.entries == old(table.entries)[h := add(old(table.entries)[h], lib.decodeMessage(message).value)]
  {
    if message == [] {
      err := EmptyError("Message");
      return;
    }
    err := table.CallWithResultMut(h, c => AddDecoded(c, message, add, lib));
  }

  // ---------------------------------------------------------------------------
  // add_bytes_impl! (both arms)

  /** The closure of a decoding setter: `let v = $type::try_from(value)?; ctx.$property = Some(v)`. */
  function SetDecodedField<C, V>(c: C, value: seq<Byte>, decode: seq<Byte> -> Outcome<V>, store: (C, V) -> C): (r: Outcome<C>)
    ensures decode(value).Ok? ==> r == Ok(store(c, decode(value).value))
    ensures decode(value).Fail? ==> r == Fail(decode(value).error)
  {
    match decode(value)
    case Ok(v) => Ok(store(c, v))
    case Fail(e) => Fail(e)
  }

  /** The first arm, and `$name_prehash` of the second: reject an empty value with
      `"<typeName> cannot be empty"`, otherwise decode it and store it. A decode failure
      leaves the field as it was. */
  method SetDecoded<C, V>(table: HandleMap<C>, h: Handle, value: seq<Byte>, typeName: string,
                          decode: seq<Byte> -> Outcome<V>, store: (C, V) -> C)
    returns (err: ExternError)
    requires table.Valid()
    modifies table
    ensures table.Valid() && table.next == old(table.next)
    ensures value == [] ==> err == EmptyError(typeName) && table.entries == old(table.entries)
    ensures value != [] && h !in old(table.entries) ==>
              err == InvalidHandle() && table.entries == old(table.entries)
    ensures value != [] && h in old(table.entries) && decode(value).Fail? ==>
              err == decode(value).error && table.entries == old(table.entries)
    ensures value != [] && h in old(table.entries) && decode(value).Ok? ==>
              err == ExternSuccess() &&
              table.entries == old(table.entries)[h := store(old(table.entries)[h], decode(value).value)]
  {
    if value == [] {
      err := EmptyError(typeName);
      return;
    }
    err := table.CallWithResultMut(h, c => SetDecodedField(c, value, decode, store));
  }

  /** `$name_string` and `$name_bytes` of the second arm: store the hash of the value. They
      differ only in the text for an empty input (`"Message cannot be empty"` for the string
      variant, `"<Type> cannot be empty"` for the bytes variant), passed as `emptyError`. */
  method SetHashed<C, V>(table: HandleMap<C>, h: Handle, value: seq<Byte>, emptyError: ExternError,
                         hash: seq<Byte> -> V, store: (C, V) -> C)
    returns (err: ExternError)
    requires table.Valid()
    modifies table
    ensures table.Valid() && table.next == old(table.next)
    ensures value == [] ==> err == emptyError && table.entries == old(table.entries)
    ensures value != [] && h !in old(table.entries) ==>
              err == InvalidHandle() && table.entries == old(table.entries)
    ensures value != [] && h in old(table.entries) ==>
              err == ExternSuccess() && table.entries == old(table.entries)[h := store(old(table.entries)[h], hash(value))]
  {
    if value == [] {
      err := emptyError;
      return;
    }
    var v := hash(value);
    err := table.CallWithOutputMut(h, c => store(c, v));
  }

  // ---------------------------------------------------------------------------
  // add_proof_message_impl!

  /** The `match xtype` of the proof-message adders: the proof message for an already
      obtained message scalar `m` and the raw blinding factor `bf`. */
  function TagProofMessage(xtype: ProofMessageType, m: SignatureMessage, bf: seq<Byte>, lib: Library): (r: ProofMessage)
    ensures ProofMessageTypeOf(r) == xtype
    ensures MessageOf(r) == m
    ensures r.Hidden? && r.hidden.ExternalBlinding? ==> r.hidden.blinding == lib.hashNonce(bf)
  {
    match xtype
    case Revealed => ProofMessage.Revealed(m)
    case HiddenProofSpecificBlinding => Hidden(ProofSpecificBlinding(m))
    case HiddenExternalBlinding => Hidden(ExternalBlinding(m, lib.hashNonce(bf)))
  }

  /** Which `ProofMessageType` produced a proof message: the inverse of the tag mapping. */
  function ProofMessageTypeOf(p: ProofMessage): ProofMessageType {
    match p
    case Revealed(_) => ProofMessageType.Revealed
    case Hidden(ProofSpecificBlinding(_)) => HiddenProofSpecificBlinding
    case Hidden(ExternalBlinding(_, _)) => HiddenExternalBlinding
  }

  /** The message scalar a proof message carries. */
  function MessageOf(p: ProofMessage): SignatureMessage {
    match p
    case Revealed(m) => m
    case Hidden(ProofSpecificBlinding(m)) => m
    case Hidden(ExternalBlinding(m, _)) => m
  }

  /** The tag mapping loses nothing: from the type, the scalar and (for external blinding)
      the hashed blinding factor, the proof message is determined, and conversely. */
  lemma {:induction false} TagProofMessageInjective(s: ProofMessageType, t: ProofMessageType,
                                                    m: SignatureMessage, n: SignatureMessage,
                                                    bf: seq<Byte>, lib: Library)
    ensures TagProofMessage(s, m, bf, lib) == TagProofMessage(t, n, bf, lib) <==> s == t && m == n
  {
    var p, q := TagProofMessage(s, m, bf, lib), TagProofMessage(t, n, bf, lib);
    if p == q {
      assert s == ProofMessageTypeOf(p) == ProofMessageTypeOf(q) == t;
      assert m == MessageOf(p) == MessageOf(q) == n;
    }
  }

  /** The checks every proof-message adder makes before touching the table: the message
      must be non-empty, and the blinding factor only when the type is external blinding. */
  function ProofMessagePrecheck(message: seq<Byte>, xtype: ProofMessageType, bf: seq<Byte>): (r: Option<ExternError>)
    ensures r.Some? <==> message == [] || (bf == [] && xtype == HiddenExternalBlinding)
    ensures message == [] ==> r == Some(EmptyError("Message"))
    ensures message != [] && r.Some? ==> r == Some(EmptyError("Blinding Factor"))
  {
    if message == [] then Some(EmptyError("Message"))
    else if bf == [] && xtype == HiddenExternalBlinding then Some(EmptyError("Blinding Factor"))
    else None
  }

  /** `$name_string` / `$name_bytes`: hash the message, tag it, and push exactly one entry. */
  method AddProofMessage<C>(table: HandleMap<C>, h: Handle, message: seq<Byte>, xtype: ProofMessageType,
                            bf: seq<Byte>, push: (C, ProofMessage) -> C, lib: Library)
    returns (err: ExternError)
    requires table.Valid()
    modifies table
    ensures table.Valid() && table.next == old(table.next)
    ensures ProofMessagePrecheck(message, xtype, bf).Some? ==>
              err == ProofMessagePrecheck(message, xtype, bf).value && table.entries == old(table.entries)
    ensures ProofMessagePrecheck(message, xtype, bf).None? && h !in old(table.entries) ==>
              err == InvalidHandle() && table.entries == old(table.entries)
    ensures ProofMessagePrecheck(message, xtype, bf).None? && h in old(table.entries) ==>
              err == ExternSuccess() &&
              table.entries == old(table.entries)[h := push(old(table.entries)[h],
                                                           TagProofMessage(xtype, lib.hashMessage(message), bf, lib))]
  {
    var pre := ProofMessagePrecheck(message, xtype, bf);
    if pre.Some? {
      err := pre.value;
      return;
    }
    var p := TagProofMessage(xtype, lib.hashMessage(message), bf, lib);
    err := table.CallWithOutputMut(h, c => push(c, p));
  }

  /** The closure of `$name_prehash`: decode the scalar (in every arm of the match), then
      tag and push it. */
  function AddDecodedProofMessage<C>(c: C, message: seq<Byte>, xtype: ProofMessageType, bf: seq<Byte>,
                                     push: (C, ProofMessage) -> C, lib: Library): (r: Outcome<C>)
    ensures lib.decodeMessage(message).Done? ==>
              r == Ok(push(c, TagProofMessage(xtype, lib.decodeMessage(message).value, bf, lib)))
    ensures lib.decodeMessage(message).LibError? ==> r == Fail(Error(lib.decodeMessage(message).debug))
  {
    match lib.decodeMessage(message)
    case Done(m) => Ok(push(c, TagProofMessage(xtype, m, bf, lib)))
    case LibError(d) => Fail(Error(d))
  }

  /** `$name_prehash`: as `AddProofMessage`, but a message that does not decode as a scalar
      is reported and nothing is pushed. */
  method AddProofMessagePrehashed<C>(table: HandleMap<C>, h: Handle, message: seq<Byte>, xtype: ProofMessageType,
                                     bf: seq<Byte>, push: (C, ProofMessage) -> C, lib: Library)
    returns (err: ExternError)
    requires table.Valid()
    modifies table
    ensures table.Valid() && table.next == old(table.next)
    ensures ProofMessagePrecheck(message, xtype, bf).Some? ==>
              err == ProofMessagePrecheck(message, xtype, bf).value && table.entries == old(table.entries)
    ensures ProofMessagePrecheck(message, xtype, bf).None? && h !in old(table.entries) ==>
              err == InvalidHandle() && table.entries == old(table.entries)
    ensures ProofMessagePrecheck(message, xtype, bf).None? && h in old(table.entries) &&
            lib.decodeMessage(message).LibError? ==>
              err == Error(lib.decodeMessage(message).debug) && table.entries == old(table.entries)
    ensures ProofMessagePrecheck(message, xtype, bf).None? && h in old(table.entries) &&
            lib.decodeMessage(message).Done? ==>
              err == ExternSuccess() &&
              table.entries == old(table.entries)[h := push(old(table.entries)[h],
                                                           TagProofMessage(xtype, lib.decodeMessage(message).value, bf, lib))]
  {
    var pre := ProofMessagePrecheck(message, xtype, bf);
    if pre.Some? {
      err := pre.value;
      return;
    }
    err := table.CallWithResultMut(h, c => AddDecodedProofMessage(c, message, xtype, bf, push, lib));
  }
}
