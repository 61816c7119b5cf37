/** The prover's side of a selective-disclosure proof (`bbs_create_proof_context_*`): a
    context collecting a signature, a public key, a nonce and the proof messages, and a
    finish step that emits the proof envelope
    `u16be(message count) ++ revealed bitvector ++ compressed proof`. */
module CreateProof {
  import opened Prelude
  import opened Ffi
  import opened Crypto
  import opened Handles
  import Macros

  // ---------------------------------------------------------------------------
  // The revealed-index bitvector

  /** Bits `b..7` of byte `k` of the little-endian bitmap of `R`: bit `j` is set when
      index `8 * k + j` is in `R`. */
  function BitsFrom(R: set<nat>, k: nat, b: nat): Byte
    requires b <= 8
    decreases 8 - b
  {
    if b == 8 then 0
    else (if 8 * k + b in R then BitMask(b) else 0) | BitsFrom(R, k, b + 1)
  }

  /** Byte `k` of the little-endian bitmap of the index set `R`. */
  function ByteOf(R: set<nat>, k: nat): Byte {
    BitsFrom(R, k, 0)
  }

  lemma {:induction false} BitsFromBit(R: set<nat>, k: nat, b: nat, j: nat)
    requires b <= 8 && j < 8
    ensures TestBit(BitsFrom(R, k, b), j) <==> b <= j && 8 * k + j in R
    decreases 8 - b
  {
    if b == 8 {
      ZeroHasNoBits(j);
    } else {
      var low: Byte := if 8 * k + b in R then BitMask(b) else 0;
      OrBit(low, BitsFrom(R, k, b + 1), j);
      BitsFromBit(R, k, b + 1, j);
      if 8 * k + b in R { BitMaskBit(b, j); } else { ZeroHasNoBits(j); }
    }
  }

  /** Bit `j` of byte `k` says exactly whether `8 * k + j` is a member. */
  lemma ByteOfBit(R: set<nat>, k: nat, j: nat)
    requires j < 8
    ensures TestBit(ByteOf(R, k), j) <==> 8 * k + j in R
  {
    BitsFromBit(R, k, 0, j);
  }

  /** Adding index `r` to the set sets one bit of one byte and leaves every other byte alone. */
  lemma ByteOfInsert(R: set<nat>, r: nat, k: nat)
    ensures ByteOf(R + {r}, k) == if k == r / 8 then ByteOf(R, k) | BitMask(r % 8) else ByteOf(R, k)
  {
    var x := ByteOf(R + {r}, k);
    var y := if k == r / 8 then ByteOf(R, k) | BitMask(r % 8) else ByteOf(R, k);
    forall j: nat | j < 8
      ensures TestBit(x, j) == TestBit(y, j)
    {
      ByteOfBit(R + {r}, k, j);
      ByteOfBit(R, k, j);
      if k == r / 8 {
        OrBit(ByteOf(R, k), BitMask(r % 8), j);
        BitMaskBit(r % 8, j);
      }
    }
    BitExtensionality(x, y);
  }

  /** The number of bytes of the bitvector for `total` messages: `total / 8 + 1`. */
  function BitvectorLength(total: nat): (n: nat)
    ensures n >= 1 && 8 * n > total
  {
    total / 8 + 1
  }

  /** The bitmap before the final reversal: byte `k` covers indices `8k .. 8k+7`. */
  function LittleEndianBitmap(total: nat, R: set<nat>): (s: seq<Byte>)
    ensures |s| == BitvectorLength(total)
  {
    seq(BitvectorLength(total), (k: int) requires 0 <= k => ByteOf(R, k))
  }

  function Reversed<X>(s: seq<X>): (r: seq<X>)
    ensures |r| == |s|
  {
    seq(|s|, i requires 0 <= i < |s| => s[|s| - 1 - i])
  }

  /** The bitvector of `revealed_to_bitvector`: the bitmap with its bytes in big-endian order,
      so that index `p` is bit `p % 8` of the byte `p / 8` places from the end. */
  function Bitvector(total: nat, R: set<nat>): (s: seq<Byte>)
    ensures |s| == BitvectorLength(total)
  {
    Reversed(LittleEndianBitmap(total, R))
  }

  /** Index `p` of the bitvector's range is marked exactly when `p` is in the set. */
  lemma BitvectorBit(total: nat, R: set<nat>, p: nat)
    requires p < 8 * BitvectorLength(total)
    ensures var s := Bitvector(total, R);
            TestBit(s[|s| - 1 - p / 8], p % 8) <==> p in R
  {
    ByteOfBit(R, p / 8, p % 8);
  }

  /** `bytes.reverse()` on the bitmap buffer. */
  method ReverseBytes(a: array<Byte>)
    modifies a
    ensures a[..] == Reversed(old(a[..]))
  {
    var i, j := 0, a.Length;
    while i + 1 < j
      invariant 0 <= i && j == a.Length - i && i <= j
      invariant forall k | 0 <= k < i :: a[k] == old(a[a.Length - 1 - k]) && a[a.Length - 1 - k] == old(a[k])
      invariant forall k | i <= k < j :: a[k] == old(a[k])
    {
      a[i], a[j - 1] := a[j - 1], a[i];
      i, j := i + 1, j - 1;
    }
  }

  /** `revealed_to_bitvector`: sets bit `r % 8` of byte `r / 8` for every revealed index and
      then reverses the bytes. Indices must fall inside the buffer (`bytes[idx]` panics
      otherwise); the caller passes indices below `total`. The set is visited in an order of
      its choosing, which cannot matter because bitwise or commutes. */
  method RevealedToBitvector(total: nat, revealed: set<nat>) returns (bytes: seq<Byte>)
    requires forall r | r in revealed :: r / 8 <= total / 8
    ensures bytes == Bitvector(total, revealed)
  {
    var a := new Byte[BitvectorLength(total)](_ => 0);
    ghost var done: set<nat> := {};
    var todo := revealed;
    forall k | 0 <= k < a.Length
      ensures ByteOf({}, k) == 0
    {
      forall j: nat | j < 8
        ensures TestBit(ByteOf({}, k), j) == TestBit(0, j)
      {
        ByteOfBit({}, k, j);
        ZeroHasNoBits(j);
      }
      BitExtensionality(ByteOf({}, k), 0);
    }
    while todo != {}
      invariant done + todo == revealed && done !! todo
      invariant forall k | 0 <= k < a.Length :: a[k] == ByteOf(done, k)
      decreases |todo|
    {
      var r :| r in todo;
      forall k | 0 <= k < a.Length
        ensures ByteOf(done + {r}, k) == if k == r / 8 then ByteOf(done, k) | BitMask(r % 8) else ByteOf(done, k)
      {
        ByteOfInsert(done, r, k);
      }
      a[r / 8] := a[r / 8] | BitMask(r % 8);
      done := done + {r};
      todo := todo - {r};
    }
    assert a[..] == LittleEndianBitmap(total, revealed);
    ReverseBytes(a);
    bytes := a[..];
  }

  // ---------------------------------------------------------------------------
  // The context

  /** `CreateProofContext`. */
  datatype CreateProofContext = CreateProofContext(
    signature: Option<Signature>,
    publicKey: Option<PublicKey>,
    messages: seq<ProofMessage>,
    nonce: Option<ProofNonce>)

  /** The indices of the revealed messages, in the order they were added. */
  function RevealedIndices(messages: seq<ProofMessage>): (R: set<nat>)
    ensures forall i | i in R :: i < |messages| && messages[i].Revealed?
    ensures forall i | 0 <= i < |messages| && messages[i].Revealed? :: i in R
  {
    set i | 0 <= i < |messages| && messages[i].Revealed?
  }

  /** The number of hidden messages (`filter(.. Hidden ..).count()`). */
  function HiddenCount(messages: seq<ProofMessage>): (n: nat)
    ensures n <= |messages|
    ensures n == 0 <==> forall i | 0 <= i < |messages| :: messages[i].Revealed?
    decreases |messages|
  {
    if messages == [] then 0
    else HiddenCount(messages[..|messages| - 1]) + (if messages[|messages| - 1].Hidden? then 1 else 0)
  }

  /** Every message is either revealed or hidden, so the two counts add up to the total. */
  lemma {:induction false} RevealedPlusHidden(messages: seq<ProofMessage>)
    ensures |RevealedIndices(messages)| + HiddenCount(messages) == |messages|
    decreases |messages|
  {
    if messages != [] {
      var n := |messages| - 1;
      var init := messages[..n];
      RevealedPlusHidden(init);
      if messages[n].Revealed? {
        assert RevealedIndices(messages) == RevealedIndices(init) + {n};
      } else {
        assert RevealedIndices(messages) == RevealedIndices(init);
      }
    }
  }

  /** `bbs_create_proof_context_init`: every field empty. */
  method Init(table: HandleMap<CreateProofContext>) returns (h: Handle, err: ExternError)
    requires table.Valid()
    modifies table
    ensures table.Valid() && err == ExternSuccess()
    ensures h !in old(table.entries) && table.next == old(table.next) + 1
    ensures table.entries == old(table.entries)[h := CreateProofContext(None, None, [], None)]
  {
    h := table.InsertWithOutput(CreateProofContext(None, None, [], None));
    err := ExternSuccess();
  }

  /** `ctx.messages.push(..)`. */
  function PushMessage(c: CreateProofContext, p: ProofMessage): (d: CreateProofContext)
    ensures d.messages == c.messages + [p]
    ensures d.(messages := c.messages) == c
  {
    c.(messages := c.messages + [p])
  }

  /** `bbs_create_proof_context_add_proof_message_string` and `.._bytes`: hash the message,
      tag it with `xtype`, and append it. */
  method AddProofMessage(table: HandleMap<CreateProofContext>, h: Handle, message: seq<Byte>,
                         xtype: ProofMessageType, blindingFactor: seq<Byte>, lib: Library)
    returns (err: ExternError)
    requires table.Valid()
    modifies table
    ensures table.Valid() && table.next == old(table.next)
    ensures err.code == SUCCESS_CODE <==>
              Macros.ProofMessagePrecheck(message, xtype, blindingFactor).None? && h in old(table.entries)
    ensures err.code == SUCCESS_CODE ==>
              table.entries == old(table.entries)[h := PushMessage(old(table.entries)[h],
                                 Macros.TagProofMessage(xtype, lib.hashMessage(message), blindingFactor, lib))]
    ensures err.code != SUCCESS_CODE ==> table.entries == old(table.entries)
  {
    err := Macros.AddProofMessage(table, h, message, xtype, blindingFactor, PushMessage, lib);
  }

  /** `bbs_create_proof_context_add_proof_message_prehashed`: as above with a message that
      must decode as a scalar. */
  method AddProofMessagePrehashed(table: HandleMap<CreateProofContext>, h: Handle, message: seq<Byte>,
                                  xtype: ProofMessageType, blindingFactor: seq<Byte>, lib: Library)
    returns (err: ExternError)
    requires table.Valid()
    modifies table
    ensures table.Valid() && table.next == old(table.next)
    ensures err.code == SUCCESS_CODE <==>
              Macros.ProofMessagePrecheck(message, xtype, blindingFactor).None? && h in old(table.entries) &&
              lib.decodeMessage(message).Done?
    ensures err.code == SUCCESS_CODE ==>
              table.entries == old(table.entries)[h := PushMessage(old(table.entries)[h],
                                 Macros.TagProofMessage(xtype, lib.decodeMessage(message).value, blindingFactor, lib))]
    ensures err.code != SUCCESS_CODE ==> table.entries == old(table.entries)
  {
    err := Macros.AddProofMessagePrehashed(table, h, message, xtype, blindingFactor, PushMessage, lib);
  }

  /** `bbs_create_proof_context_set_signature`. */
  method SetSignature(table: HandleMap<CreateProofContext>, h: Handle, value: seq<Byte>, lib: Library)
    returns (err: ExternError)
    requires table.Valid()
    modifies table
    ensures table.Valid() && table.next == old(table.next)
    ensures value == [] ==> err == Macros.EmptyError("Signature")
    ensures err.code == SUCCESS_CODE <==> value != [] && h in old(table.entries) && lib.decodeSignature(value).Done?
    ensures err.code == SUCCESS_CODE ==>
              table.entries == old(table.entries)[h := old(table.entries)[h].(signature := Some(lib.decodeSignature(value).value))]
    ensures err.code != SUCCESS_CODE ==> table.entries == old(table.entries)
  {
    err := Macros.SetDecoded(table, h, value, "Signature", v => FromLib(lib.decodeSignature(v)),
                             (c: CreateProofContext, s) => c.(signature := Some(s)));
  }

  /** `bbs_create_proof_context_set_public_key`. */
  method SetPublicKey(table: HandleMap<CreateProofContext>, h: Handle, value: seq<Byte>, lib: Library)
    returns (err: ExternError)
    requires table.Valid()
    modifies table
    ensures table.Valid() && table.next == old(table.next)
    ensures value == [] ==> err == Macros.EmptyError("PublicKey")
    ensures err.code == SUCCESS_CODE <==> value != [] && h in old(table.entries) && lib.decodePublicKey(value).Done?
    ensures err.code == SUCCESS_CODE ==>
              table.entries == old(table.entries)[h := old(table.entries)[h].(publicKey := Some(lib.decodePublicKey(value).value))]
    ensures err.code != SUCCESS_CODE ==> table.entries == old(table.entries)
  {
    err := Macros.SetDecoded(table, h, value, "PublicKey", v => FromLib(lib.decodePublicKey(v)),
                             (c: CreateProofContext, k) => c.(publicKey := Some(k)));
  }

  /** `bbs_create_proof_context_set_nonce_string`: the nonce is the hash of the string. */
  method SetNonceString(table: HandleMap<CreateProofContext>, h: Handle, value: seq<Byte>, lib: Library)
    returns (err: ExternError)
    requires table.Valid()
    modifies table
    ensures table.Valid() && table.next == old(table.next)
    ensures value == [] ==> err == Macros.EmptyError("Message")
    ensures err.code == SUCCESS_CODE <==> value != [] && h in old(table.entries)
    ensures err.code == SUCCESS_CODE ==>
              table.entries == old(table.entries)[h := old(table.entries)[h].(nonce := Some(lib.hashNonce(value)))]
    ensures err.code != SUCCESS_CODE ==> table.entries == old(table.entries)
  {
    err := Macros.SetHashed(table, h, value, Macros.EmptyError("Message"), lib.hashNonce,
                            (c: CreateProofContext, n) => c.(nonce := Some(n)));
  }

  /** `bbs_create_proof_context_set_nonce_bytes`: the nonce is the hash of the bytes. */
  method SetNonceBytes(table: HandleMap<CreateProofContext>, h: Handle, value: seq<Byte>, lib: Library)
    returns (err: ExternError)
    requires table.Valid()
    modifies table
    ensures table.Valid() && table.next == old(table.next)
    ensures value == [] ==> err == Macros.EmptyError("ProofNonce")
    ensures err.code == SUCCESS_CODE <==> value != [] && h in old(table.entries)
    ensures err.code == SUCCESS_CODE ==>
              table.entries == old(table.entries)[h := old(table.entries)[h].(nonce := Some(lib.hashNonce(value)))]
    ensures err.code != SUCCESS_CODE ==> table.entries == old(table.entries)
  {
    err := Macros.SetHashed(table, h, value, Macros.EmptyError("ProofNonce"), lib.hashNonce,
                            (c: CreateProofContext, n) => c.(nonce := Some(n)));
  }

  /** `bbs_create_proof_context_set_nonce_prehashed`: the bytes are the nonce's encoding. */
  method SetNoncePrehashed(table: HandleMap<CreateProofContext>, h: Handle, value: seq<Byte>, lib: Library)
    returns (err: ExternError)
    requires table.Valid()
    modifies table
    ensures table.Valid() && table.next == old(table.next)
    ensures value == [] ==> err == Macros.EmptyError("ProofNonce")
    ensures err.code == SUCCESS_CODE <==> value != [] && h in old(table.entries) && lib.decodeNonce(value).Done?
    ensures err.code == SUCCESS_CODE ==>
              table.entries == old(table.entries)[h := old(table.entries)[h].(nonce := Some(lib.decodeNonce(value).value))]
    ensures err.code != SUCCESS_CODE ==> table.entries == old(table.entries)
  {
    err := Macros.SetDecoded(table, h, value, "ProofNonce", v => FromLib(lib.decodeNonce(v)),
                             (c: CreateProofContext, n) => c.(nonce := Some(n)));
  }

  // ---------------------------------------------------------------------------
  // Size estimate

  /** The fixed part of the size estimate: five G1 points, three 4-byte lengths, four
      scalars and the 2-byte message count. */
  const OVERHEAD: nat := 5 * G1_COMPRESSED_SIZE + 3 * 4 + 4 * FR_COMPRESSED_SIZE + 2

  /** The closure of `bbs_create_proof_context_size`: one scalar per hidden message plus
      the bitvector. */
  function SizeEstimate(c: CreateProofContext): (n: nat)
    ensures n == FR_COMPRESSED_SIZE * HiddenCount(c.messages) + BitvectorLength(|c.messages|)
  {
    32 * HiddenCount(c.messages) + (|c.messages| / 8 + 1)
  }

  /** `bbs_create_proof_context_size`: `OVERHEAD` plus the estimate, cast to `i32`. An unknown
      handle makes the closure's result the default 0, so the answer is `OVERHEAD` alone. */
  method ContextSize(table: HandleMap<CreateProofContext>, h: Handle) returns (size: int)
    ensures h in table.entries ==> size == AsI32(OVERHEAD + SizeEstimate(table.entries[h]))
    ensures h !in table.entries ==> size == OVERHEAD == 382
  {
    var res := table.CallWithOutput(h, SizeEstimate);
    var n := if res.Some? then res.value else 0;
    size := AsI32(OVERHEAD + n);
  }

  // ---------------------------------------------------------------------------
  // Finish

  /** The envelope a finished proof is sent in: the message count as a big-endian `u16`
      (truncated by `as u16`), the bitvector of revealed indices, and the proof. */
  function Envelope(messages: seq<ProofMessage>, proof: seq<Byte>): (e: seq<Byte>)
    ensures |e| == 2 + BitvectorLength(|messages|) + |proof|
    ensures U16FromBeBytes(e) == AsU16(|messages|)
    ensures e[2..2 + BitvectorLength(|messages|)] == Bitvector(|messages|, RevealedIndices(messages))
    ensures e[2 + BitvectorLength(|messages|)..] == proof
  {
    var header := U16ToBeBytes(AsU16(|messages|));
    U16RoundTrip(AsU16(|messages|), Bitvector(|messages|, RevealedIndices(messages)) + proof);
    header + Bitvector(|messages|, RevealedIndices(messages)) + proof
  }

  /** The cryptographic part of the finish step on a complete context: start the proof of
      knowledge, derive the challenge from its transcript followed by the nonce, and answer it. */
  function Prove(signature: Signature, publicKey: PublicKey, nonce: ProofNonce,
                 messages: seq<ProofMessage>, lib: Library): (r: LibResult<PoKOfSignatureProof>)
    ensures lib.pokInit(signature, publicKey, messages).LibError? ==>
              r == LibError(lib.pokInit(signature, publicKey, messages).debug)
    ensures lib.pokInit(signature, publicKey, messages).Done? ==>
              var pok := lib.pokInit(signature, publicKey, messages).value;
              r == lib.genProof(pok, lib.hashChallenge(lib.pokTranscript(pok) + lib.nonceBytes(nonce)))
  {
    match lib.pokInit(signature, publicKey, messages)
    case LibError(d) => LibError(d)
    case Done(pok) =>
      lib.genProof(pok, lib.hashChallenge(lib.pokTranscript(pok) + lib.nonceBytes(nonce)))
  }

  /** The closure of `bbs_create_proof_context_finish`. The checks come in a fixed order, so
      the first missing input is the one reported; on success the output is the envelope of
      the generated proof. */
  function FinishBody(c: CreateProofContext, lib: Library): (r: Outcome<seq<Byte>>)
    ensures c.signature.None? ==> r == Fail(Error("Signature must be set"))
    ensures c.signature.Some? && c.publicKey.None? ==> r == Fail(Error("Public key must be set"))
    ensures c.signature.Some? && c.publicKey.Some? && c.nonce.None? ==> r == Fail(Error("Nonce must be set"))
    ensures c.signature.Some? && c.publicKey.Some? && c.nonce.Some? && c.messages == [] ==>
              r == Fail(Error("Messages cannot be empty"))
    ensures r.Ok? <==> c.signature.Some? && c.publicKey.Some? && c.nonce.Some? && c.messages != [] &&
                       Prove(c.signature.value, c.publicKey.value, c.nonce.value, c.messages, lib).Done?
    ensures r.Ok? ==>
              r.value == Envelope(c.messages,
                                  lib.proofBytes(Prove(c.signature.value, c.publicKey.value, c.nonce.value, c.messages, lib).value))
    ensures r.Fail? ==> r.error.code == 1
  {
    if c.signature.None? then Fail(Error("Signature must be set"))
    else if c.publicKey.None? then Fail(Error("Public key must be set"))
    else if c.nonce.None? then Fail(Error("Nonce must be set"))
    else if c.messages == [] then Fail(Error("Messages cannot be empty"))
    else
      match Prove(c.signature.value, c.publicKey.value, c.nonce.value, c.messages, lib)
      case LibError(d) => Fail(Error(d))
      case Done(proof) => Ok(Envelope(c.messages, lib.proofBytes(proof)))
  }

  /** `bbs_create_proof_context_finish`: on success the proof is written to `proof` and the
      handle is retired; on failure neither `proof` nor the table changes. */
  method Finish(table: HandleMap<CreateProofContext>, h: Handle, proof: ByteBuffer, lib: Library)
    returns (err: ExternError)
    requires table.Valid()
    modifies table, proof
    ensures table.Valid() && table.next == old(table.next)
    ensures h !in old(table.entries) ==>
              err == InvalidHandle() && proof.data == old(proof.data) && table.entries == old(table.entries)
    ensures h in old(table.entries) && FinishBody(old(table.entries)[h], lib).Fail? ==>
              err == FinishBody(old(table.entries)[h], lib).error &&
              proof.data == old(proof.data) && table.entries == old(table.entries)
    ensures h in old(table.entries) && FinishBody(old(table.entries)[h], lib).Ok? ==>
              err == ExternSuccess() && proof.data == FinishBody(old(table.entries)[h], lib).value &&
              table.entries == old(table.entries) - {h}
  {
    var res := table.CallWithResult(h, c => FinishBody(c, lib));
    if res.Fail? {
      err := res.error;
      return;
    }
    proof.data := res.value;
    err := table.RemoveU64(h);
  }

  // ---------------------------------------------------------------------------
  // Properties

  /** The size estimate covers the envelope whenever the library's proof takes no more than
      the fixed overhead (less the count field) plus one scalar per hidden message. */
  lemma SizeEstimateCoversEnvelope(c: CreateProofContext, proof: seq<Byte>)
    requires |proof| <= OVERHEAD - 2 + FR_COMPRESSED_SIZE * HiddenCount(c.messages)
    ensures |Envelope(c.messages, proof)| <= OVERHEAD + SizeEstimate(c)
  {
  }
}
