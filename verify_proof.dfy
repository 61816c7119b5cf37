/** The verifier's side of a selective-disclosure proof (`bbs_verify_proof_context_*`): it
    parses the envelope the prover emits, recovers the revealed indices from its bitvector,
    checks them against the messages it was given, and reports the library's verdict as a
    `SignatureProofStatus`. */
module VerifyProof {
  import opened Prelude
  import opened Ffi
  import opened Crypto
  import opened Handles
  import Macros
  import CreateProof

  // ---------------------------------------------------------------------------
  // Reading the bitvector

  /** Position `p` of the big-endian bitvector `data`: bit `p % 8` of the byte `p / 8`
      places from the end. */
  predicate Marked(data: seq<Byte>, p: nat)
    requires p < 8 * |data|
    decreases |data|
  {
    if p < 8 then TestBit(data[|data| - 1], p) else Marked(data[..|data| - 1], p - 8)
  }

  /** The positions below `n` that `data` marks, collected from the bottom up. */
  function MarkedBelow(data: seq<Byte>, n: nat): set<nat>
    requires n <= 8 * |data|
  {
    if n == 0 then {} else MarkedBelow(data, n - 1) + (if Marked(data, n - 1) then {n - 1} else {})
  }

  /** The positions `data` marks, all of them below its bit width. */
  lemma {:induction false} MarkedBelowMember(data: seq<Byte>, n: nat, p: nat)
    requires n <= 8 * |data|
    ensures p in MarkedBelow(data, n) <==> p < n && Marked(data, p)
  {
    if n > 0 {
      MarkedBelowMember(data, n - 1, p);
    }
  }

  /** Every index the bitvector marks. */
  function RevealedOf(data: seq<Byte>): set<nat>
  {
    MarkedBelow(data, 8 * |data|)
  }

  /** Bit `b` of byte `i` is position `8 * (|data| - 1 - i) + b`. */
  lemma {:induction false} ByteBit(data: seq<Byte>, i: nat, b: nat)
    requires i < |data| && b < 8
    ensures Marked(data, 8 * (|data| - 1 - i) + b) <==> TestBit(data[i], b)
    decreases |data|
  {
    if i < |data| - 1 {
      var front := data[..|data| - 1];
      ByteBit(front, i, b);
      assert front[i] == data[i];
    }
  }

  /** Position `p` is bit `p % 8` of the byte `p / 8` places from the end. */
  lemma MarkedBit(data: seq<Byte>, p: nat)
    requires p < 8 * |data|
    ensures Marked(data, p) <==> TestBit(data[|data| - 1 - p / 8], p % 8)
  {
    ByteBit(data, |data| - 1 - p / 8, p % 8);
  }

  /** One pass of the inner loop: the low bit of `data[i] >> b` decides the position
      `scalar`, and a byte shifted by its full width is zero. */
  lemma ReadBit(data: seq<Byte>, i: nat, scalar: nat, b: nat)
    requires i < |data| && b < 8
    requires scalar == 8 * (|data| - 1 - i) + b
    ensures MarkedBelow(data, scalar + 1) ==
            MarkedBelow(data, scalar) + (if Shr(data[i], b) & 1 == 1 then {scalar} else {})
    ensures b + 1 == 8 ==> Shr(data[i], b + 1) == 0
  {
    ByteBit(data, i, b);
    ShrLowBit(data[i], b);
    if b == 7 {
      ShrWidth(data[i]);
    }
  }

  /** The positions skipped at the top of byte `i` add nothing: their bits are clear. */
  lemma {:induction false} SkipClearBits(data: seq<Byte>, i: nat, scalar: nat, remaining: nat)
    requires i < |data| && remaining <= 8
    requires scalar == 8 * (|data| - 1 - i) + (8 - remaining)
    requires Shr(data[i], 8 - remaining) == 0
    ensures MarkedBelow(data, scalar + remaining) == MarkedBelow(data, scalar)
    decreases remaining
  {
    if remaining > 0 {
      ReadBit(data, i, scalar, 8 - remaining);
      SkipClearBits(data, i, scalar + 1, remaining - 1);
    }
  }

  /** `bitvector_to_revealed`: walks the bytes from last to first and, inside each byte, the
      bits from least significant up while anything is left, collecting the position of every
      set bit; positions skipped at the top of a byte are added in one step. */
  method BitvectorToRevealed(data: seq<Byte>) returns (revealed: set<nat>)
    ensures revealed == RevealedOf(data)
  {
    revealed := {};
    var scalar: nat := 0;
    var i := |data|;
    while i > 0
      invariant 0 <= i <= |data|
      invariant scalar == 8 * (|data| - i)
      invariant revealed == MarkedBelow(data, scalar)
    {
      i := i - 1;
      var v := data[i];
      var remaining: nat := 8;
      while v > 0
        invariant remaining <= 8
        invariant scalar == 8 * (|data| - 1 - i) + (8 - remaining)
        invariant v == Shr(data[i], 8 - remaining)
        invariant remaining == 0 ==> v == 0
        invariant revealed == MarkedBelow(data, scalar)
        decreases remaining
      {
        ReadBit(data, i, scalar, 8 - remaining);
        if v & 1 == 1 {
          revealed := revealed + {scalar};
        }
        v := v >> 1;
        scalar := scalar + 1;
        remaining := remaining - 1;
      }
      SkipClearBits(data, i, scalar, remaining);
      scalar := scalar + remaining;
    }
  }

  /** Reading back a bitvector built from an index set gives that set, provided every index
      fits in the bitvector. */
  lemma RevealedOfBitvector(total: nat, R: set<nat>)
    requires forall r | r in R :: r < 8 * CreateProof.BitvectorLength(total)
    ensures RevealedOf(CreateProof.Bitvector(total, R)) == R
  {
    var s := CreateProof.Bitvector(total, R);
    forall p: nat
      ensures p in RevealedOf(s) <==> p in R
    {
      MarkedBelowMember(s, 8 * |s|, p);
      if p < 8 * |s| {
        CreateProof.BitvectorBit(total, R, p);
        MarkedBit(s, p);
      }
    }
  }

  /** And conversely: every bitvector of the right length is the one built from the indices
      it marks, so the two conversions are inverse bijections. */
  lemma BitvectorOfRevealed(total: nat, data: seq<Byte>)
    requires |data| == CreateProof.BitvectorLength(total)
    ensures CreateProof.Bitvector(total, RevealedOf(data)) == data
  {
    var R := RevealedOf(data);
    var s := CreateProof.Bitvector(total, R);
    forall i | 0 <= i < |data|
      ensures s[i] == data[i]
    {
      var k := |data| - 1 - i;
      assert s[i] == CreateProof.LittleEndianBitmap(total, R)[k] == CreateProof.ByteOf(R, k);
      ByteOfRevealed(data, k);
    }
    assert s == data;
  }

  /** Byte `k` of the bitmap of the marked indices is byte `k` from the end of the data. */
  lemma ByteOfRevealed(data: seq<Byte>, k: nat)
    requires k < |data|
    ensures CreateProof.ByteOf(RevealedOf(data), k) == data[|data| - 1 - k]
  {
    var R := RevealedOf(data);
    var x, y := CreateProof.ByteOf(R, k), data[|data| - 1 - k];
    forall j: nat | j < 8
      ensures TestBit(x, j) == TestBit(y, j)
    {
      CreateProof.ByteOfBit(R, k, j);
      ByteBit(data, |data| - 1 - k, j);
      MarkedBelowMember(data, 8 * |data|, 8 * k + j);
    }
    BitExtensionality(x, y);
  }

  // ---------------------------------------------------------------------------
  // The proof wrapper

  /** `PoKOfSignatureProofWrapper`: the envelope's header (count and bitvector) kept as bytes,
      and the decoded proof. */
  datatype ProofWrapper = ProofWrapper(bitVector: seq<Byte>, proof: PoKOfSignatureProof)

  /** Where the proof starts in an envelope announcing `count` messages. */
  function Offset(count: nat): (n: nat)
    ensures n == CreateProof.BitvectorLength(count) + 2
  {
    count / 8 + 1 + 2
  }

  /** `PoKOfSignatureProofWrapper::try_from`: read the count, skip the bitvector, decode the
      rest. A value shorter than the count field or than the announced bitvector makes the
      slicing panic. */
  function TryFrom(value: seq<Byte>, lib: Library): (r: Outcome<ProofWrapper>)
    ensures |value| < 2 ==> r.Fail? && r.error.code == PANIC_CODE
    ensures |value| >= 2 && |value| < Offset(U16FromBeBytes(value)) ==> r.Fail? && r.error.code == PANIC_CODE
    ensures r.Ok? ==> |value| >= 2 && |value| >= Offset(U16FromBeBytes(value)) &&
                      var offset := Offset(U16FromBeBytes(value));
                      r.value.bitVector == value[..offset] && lib.decodeProof(value[offset..]) == Done(r.value.proof)
    ensures |value| >= 2 && |value| >= Offset(U16FromBeBytes(value)) ==>
              (r.Ok? <==> lib.decodeProof(value[Offset(U16FromBeBytes(value))..]).Done?)
  {
    if |value| < 2 then Fail(Panic("range end index 2 out of range"))
    else
      var offset := Offset(U16FromBeBytes(value));
      if |value| < offset then Fail(Panic("range start index out of range"))
      else
        match lib.decodeProof(value[offset..])
        case LibError(d) => Fail(Error(d))
        case Done(p) => Ok(ProofWrapper(value[..offset], p))
  }

  /** `PoKOfSignatureProofWrapper::unpack`: the revealed indices the bitvector marks, and the
      proof. */
  function Unpack(w: ProofWrapper): (r: Outcome<(set<nat>, PoKOfSignatureProof)>)
    ensures r.Ok? <==> |w.bitVector| >= 2 && |w.bitVector| >= Offset(U16FromBeBytes(w.bitVector))
    ensures r.Ok? ==> r.value.1 == w.proof &&
                      r.value.0 == RevealedOf(w.bitVector[2..Offset(U16FromBeBytes(w.bitVector))])
  {
    if |w.bitVector| < 2 then Fail(Panic("range end index 2 out of range"))
    else
      var offset := Offset(U16FromBeBytes(w.bitVector));
      if |w.bitVector| < offset then Fail(Panic("range end index out of range"))
      else Ok((RevealedOf(w.bitVector[2..offset]), w.proof))
  }

  /** `PoKOfSignatureProofWrapper::to_bytes`. */
  function ToBytes(w: ProofWrapper, lib: Library): (v: seq<Byte>)
    ensures |v| == |w.bitVector| + |lib.proofBytes(w.proof)|
    ensures v[..|w.bitVector|] == w.bitVector && v[|w.bitVector|..] == lib.proofBytes(w.proof)
  {
    w.bitVector + lib.proofBytes(w.proof)
  }

  /** A wrapper produced by `try_from` always unpacks. */
  lemma UnpackAfterTryFrom(value: seq<Byte>, lib: Library)
    requires TryFrom(value, lib).Ok?
    ensures Unpack(TryFrom(value, lib).value).Ok?
  {
    var w := TryFrom(value, lib).value;
    assert w.bitVector[..2] == value[..2];
  }

  /** Serialising a parsed wrapper gives back the bytes it was parsed from, whenever the
      library's proof encoding is canonical on them. */
  lemma ToBytesAfterTryFrom(value: seq<Byte>, lib: Library)
    requires TryFrom(value, lib).Ok?
    requires var p := TryFrom(value, lib).value.proof; lib.proofBytes(p) == value[Offset(U16FromBeBytes(value))..]
    ensures ToBytes(TryFrom(value, lib).value, lib) == value
  {
  }

  /** The prover's envelope parses back to what the prover put in it: the revealed indices and
      the proof, as long as the count fits the 16-bit field and the proof's encoding decodes. */
  lemma {:induction false} EnvelopeRoundTrip(messages: seq<ProofMessage>, proof: PoKOfSignatureProof, lib: Library)
    requires |messages| < U16_MODULUS
    requires lib.decodeProof(lib.proofBytes(proof)) == Done(proof)
    ensures var e := CreateProof.Envelope(messages, lib.proofBytes(proof));
            TryFrom(e, lib).Ok? &&
            Unpack(TryFrom(e, lib).value) == Ok((CreateProof.RevealedIndices(messages), proof)) &&
            ToBytes(TryFrom(e, lib).value, lib) == e
  {
    var e := CreateProof.Envelope(messages, lib.proofBytes(proof));
    var n := |messages|;
    var L := CreateProof.BitvectorLength(n);
    assert U16FromBeBytes(e) == n;
    var w := TryFrom(e, lib).value;
    assert w.bitVector == e[..2 + L];
    assert w.bitVector[..2] == e[..2];
    assert U16FromBeBytes(w.bitVector) == n;
    assert w.bitVector[2..2 + L] == e[2..2 + L];
    RevealedOfBitvector(n, CreateProof.RevealedIndices(messages));
  }

  // ---------------------------------------------------------------------------
  // The context

  /** `VerifyProofContext`: the revealed messages are keyed by their index. */
  datatype VerifyProofContext = VerifyProofContext(
    messages: map<nat, SignatureMessage>,
    nonce: Option<ProofNonce>,
    proof: Option<ProofWrapper>,
    publicKey: Option<PublicKey>)

  /** `bbs_verify_proof_context_init`. */
  method Init(table: HandleMap<VerifyProofContext>) returns (h: Handle, err: ExternError)
    requires table.Valid()
    modifies table
    ensures table.Valid() && err == ExternSuccess()
    ensures h !in old(table.entries) && table.next == old(table.next) + 1
    ensures table.entries == old(table.entries)[h := VerifyProofContext(map[], None, None, None)]
  {
    h := table.InsertWithOutput(VerifyProofContext(map[], None, None, None));
    err := ExternSuccess();
  }

  /** `ctx.messages.insert(index as usize, ..)`: a later message for the same index replaces
      the earlier one. */
  function InsertMessage(c: VerifyProofContext, index: nat, m: SignatureMessage): (d: VerifyProofContext)
    ensures d.messages.Keys == c.messages.Keys + {index} && d.messages[index] == m
    ensures forall i | i in c.messages && i != index :: d.messages[i] == c.messages[i]
    ensures d.(messages := c.messages) == c
  {
    c.(messages := c.messages[index := m])
  }

  /** `bbs_verify_proof_context_add_message_string` and `.._bytes`. */
  method AddMessage(table: HandleMap<VerifyProofContext>, h: Handle, index: U32, message: seq<Byte>, lib: Library)
    returns (err: ExternError)
    requires table.Valid()
    modifies table
    ensures table.Valid() && table.next == old(table.next)
    ensures message == [] ==> err == Macros.EmptyError("Message")
    ensures err.code == SUCCESS_CODE <==> message != [] && h in old(table.entries)
    ensures err.code == SUCCESS_CODE ==>
              table.entries == old(table.entries)[h := InsertMessage(old(table.entries)[h], index, lib.hashMessage(message))]
    ensures err.code != SUCCESS_CODE ==> table.entries == old(table.entries)
  {
    err := Macros.AddHashedMessage(table, h, message, (c, m) => InsertMessage(c, index, m), lib);
  }

  /** `bbs_verify_proof_context_add_message_prehashed`. */
  method AddMessagePrehashed(table: HandleMap<VerifyProofContext>, h: Handle, index: U32, message: seq<Byte>, lib: Library)
    returns (err: ExternError)
    requires table.Valid()
    modifies table
    ensures table.Valid() && table.next == old(table.next)
    ensures message == [] ==> err == Macros.EmptyError("Message")
    ensures err.code == SUCCESS_CODE <==> message != [] && h in old(table.entries) && lib.decodeMessage(message).Done?
    ensures err.code == SUCCESS_CODE ==>
              table.entries == old(table.entries)[h := InsertMessage(old(table.entries)[h], index, lib.decodeMessage(message).value)]
    ensures err.code != SUCCESS_CODE ==> table.entries == old(table.entries)
  {
    err := Macros.AddPrehashedMessage(table, h, message, (c, m) => InsertMessage(c, index, m), lib);
  }

  /** `bbs_verify_proof_context_set_proof`: the value is parsed as an envelope. */
  method SetProof(table: HandleMap<VerifyProofContext>, h: Handle, value: seq<Byte>, lib: Library)
    returns (err: ExternError)
    requires table.Valid()
    modifies table
    ensures table.Valid() && table.next == old(table.next)
    ensures value == [] ==> err == Macros.EmptyError("PoKOfSignatureProofWrapper")
    ensures err.code == SUCCESS_CODE <==> value != [] && h in old(table.entries) && TryFrom(value, lib).Ok?
    ensures err.code == SUCCESS_CODE ==>
              table.entries == old(table.entries)[h := old(table.entries)[h].(proof := Some(TryFrom(value, lib).value))]
    ensures err.code != SUCCESS_CODE ==> table.entries == old(table.entries)
  {
    err := Macros.SetDecoded(table, h, value, "PoKOfSignatureProofWrapper", v => TryFrom(v, lib),
                             (c: VerifyProofContext, w) => c.(proof := Some(w)));
  }

  /** `bbs_verify_proof_context_set_public_key`. */
  method SetPublicKey(table: HandleMap<VerifyProofContext>, h: Handle, value: seq<Byte>, lib: Library)
    returns (err: ExternError)
    requires table.Valid()
    modifies table
    ensures table.Valid() && table.next == old(table.next)
    ensures value == [] ==> err == Macros.EmptyError("PublicKey")
    ensures err.code == SUCCESS_CODE <==> value != [] && h in old(table.entries) && lib.decodePublicKey(value).Done?
    ensures err.code == SUCCESS_CODE ==>
              table.entries == old(table.entries)[h := old(table.entries)[h].(publicKey := Some(lib.decodePublicKey(value).value))]
    ensures err.code != SUCCESS_CODE ==> table.entries == old(table.entries)
  {
    err := Macros.SetDecoded(table, h, value, "PublicKey", v => FromLib(lib.decodePublicKey(v)),
                             (c: VerifyProofContext, k) => c.(publicKey := Some(k)));
  }

  /** `bbs_verify_proof_context_set_nonce_string`. */
  method SetNonceString(table: HandleMap<VerifyProofContext>, h: Handle, value: seq<Byte>, lib: Library)
    returns (err: ExternError)
    requires table.Valid()
    modifies table
    ensures table.Valid() && table.next == old(table.next)
    ensures value == [] ==> err == Macros.EmptyError("Message")
    ensures err.code == SUCCESS_CODE <==> value != [] && h in old(table.entries)
    ensures err.code == SUCCESS_CODE ==>
              table.entries == old(table.entries)[h := old(table.entries)[h].(nonce := Some(lib.hashNonce(value)))]
    ensures err.code != SUCCESS_CODE ==> table.entries == old(table.entries)
  {
    err := Macros.SetHashed(table, h, value, Macros.EmptyError("Message"), lib.hashNonce,
                            (c: VerifyProofContext, n) => c.(nonce := Some(n)));
  }

  /** `bbs_verify_proof_context_set_nonce_bytes`. */
  method SetNonceBytes(table: HandleMap<VerifyProofContext>, h: Handle, value: seq<Byte>, lib: Library)
    returns (err: ExternError)
    requires table.Valid()
    modifies table
    ensures table.Valid() && table.next == old(table.next)
    ensures value == [] ==> err == Macros.EmptyError("ProofNonce")
    ensures err.code == SUCCESS_CODE <==> value != [] && h in old(table.entries)
    ensures err.code == SUCCESS_CODE ==>
              table.entries == old(table.entries)[h := old(table.entries)[h].(nonce := Some(lib.hashNonce(value)))]
    ensures err.code != SUCCESS_CODE ==> table.entries == old(table.entries)
  {
    err := Macros.SetHashed(table, h, value, Macros.EmptyError("ProofNonce"), lib.hashNonce,
                            (c: VerifyProofContext, n) => c.(nonce := Some(n)));
  }

  /** `bbs_verify_proof_context_set_nonce_prehashed`. */
  method SetNoncePrehashed(table: HandleMap<VerifyProofContext>, h: Handle, value: seq<Byte>, lib: Library)
    returns (err: ExternError)
    requires table.Valid()
    modifies table
    ensures table.Valid() && table.next == old(table.next)
    ensures value == [] ==> err == Macros.EmptyError("ProofNonce")
    ensures err.code == SUCCESS_CODE <==> value != [] && h in old(table.entries) && lib.decodeNonce(value).Done?
    ensures err.code == SUCCESS_CODE ==>
              table.entries == old(table.entries)[h := old(table.entries)[h].(nonce := Some(lib.decodeNonce(value).value))]
    ensures err.code != SUCCESS_CODE ==> table.entries == old(table.entries)
  {
    err := Macros.SetDecoded(table, h, value, "ProofNonce", v => FromLib(lib.decodeNonce(v)),
                             (c: VerifyProofContext, n) => c.(nonce := Some(n)));
  }

  // ---------------------------------------------------------------------------
  // Finish

  /** The challenge the verifier recomputes: the proof's challenge contribution for the
      revealed indices, followed by the nonce. */
  function Challenge(proof: PoKOfSignatureProof, revealed: set<nat>, publicKey: PublicKey, nonce: ProofNonce,
                     lib: Library): ProofChallenge
  {
    lib.hashChallenge(lib.challengeBytes(proof, revealed, publicKey) + lib.nonceBytes(nonce))
  }

  /** When the proof's challenge contribution is the transcript the prover hashed, the
      verifier recomputes exactly the prover's challenge for the same nonce. */
  lemma ChallengeAgreesWithProver(proof: PoKOfSignatureProof, revealed: set<nat>, signature: Signature,
                                  publicKey: PublicKey, nonce: ProofNonce, messages: seq<ProofMessage>,
                                  lib: Library)
    requires lib.pokInit(signature, publicKey, messages).Done?
    requires lib.challengeBytes(proof, revealed, publicKey) ==
             lib.pokTranscript(lib.pokInit(signature, publicKey, messages).value)
    ensures var pok := lib.pokInit(signature, publicKey, messages).value;
            CreateProof.Prove(signature, publicKey, nonce, messages, lib) ==
            lib.genProof(pok, Challenge(proof, revealed, publicKey, nonce, lib))
  {
  }

  /** The closure of `bbs_verify_proof_context_finish`. */
  function FinishBody(c: VerifyProofContext, lib: Library): (r: Outcome<int>)
    ensures c.proof.None? ==> r == Fail(Error("Proof must be set"))
    ensures c.proof.Some? && c.publicKey.None? ==> r == Fail(Error("Public key must be set"))
    ensures c.proof.Some? && c.publicKey.Some? && c.nonce.None? ==> r == Fail(Error("Nonce must be set"))
    ensures c.proof.Some? && c.publicKey.Some? && c.nonce.Some? && c.messages == map[] ==>
              r == Fail(Error("Messages cannot be empty"))
    ensures c.proof.Some? && c.publicKey.Some? && c.nonce.Some? && c.messages != map[] &&
            Unpack(c.proof.value).Ok? && Unpack(c.proof.value).value.0 != c.messages.Keys ==>
              r == Fail(Error("Indices are not equal"))
    ensures r.Ok? ==>
              c.proof.Some? && c.publicKey.Some? && c.nonce.Some? && c.messages != map[] &&
              Unpack(c.proof.value).Ok? && Unpack(c.proof.value).value.0 == c.messages.Keys &&
              var (revealed, proof) := Unpack(c.proof.value).value;
              var verdict := lib.verifyProof(proof, c.publicKey.value, c.messages,
                                             Challenge(proof, revealed, c.publicKey.value, c.nonce.value, lib));
              verdict.Done? && r.value == FromPoKStatus(verdict.value).Code()
    ensures r.Ok? <==>
              c.proof.Some? && c.publicKey.Some? && c.nonce.Some? && c.messages != map[] &&
              Unpack(c.proof.value).Ok? && Unpack(c.proof.value).value.0 == c.messages.Keys &&
              var (revealed, proof) := Unpack(c.proof.value).value;
              lib.verifyProof(proof, c.publicKey.value, c.messages,
                              Challenge(proof, revealed, c.publicKey.value, c.nonce.value, lib)).Done?
    ensures c.proof.Some? && c.publicKey.Some? && c.nonce.Some? && c.messages != map[] &&
            Unpack(c.proof.value).Ok? && Unpack(c.proof.value).value.0 == c.messages.Keys ==>
              var (revealed, proof) := Unpack(c.proof.value).value;
              var verdict := lib.verifyProof(proof, c.publicKey.value, c.messages,
                                             Challenge(proof, revealed, c.publicKey.value, c.nonce.value, lib));
              (verdict.LibError? ==> r == Fail(Error(verdict.debug)))
  {
    if c.proof.None? then Fail(Error("Proof must be set"))
    else if c.publicKey.None? then Fail(Error("Public key must be set"))
    else if c.nonce.None? then Fail(Error("Nonce must be set"))
    else if c.messages == map[] then Fail(Error("Messages cannot be empty"))
    else
      match Unpack(c.proof.value)
      case Fail(e) => Fail(e)
      case Ok((revealed, proof)) =>
        if revealed != c.messages.Keys then Fail(Error("Indices are not equal"))
        else
          match lib.verifyProof(proof, c.publicKey.value, c.messages,
                                Challenge(proof, revealed, c.publicKey.value, c.nonce.value, lib))
          case LibError(d) => Fail(Error(d))
          case Done(s) => Ok(FromPoKStatus(s).Code())
  }

  /** `bbs_verify_proof_context_finish`: with a verdict the handle is retired and the status
      returned; otherwise the error code is returned and the context stays. */
  method Finish(table: HandleMap<VerifyProofContext>, h: Handle, lib: Library)
    returns (status: int, err: ExternError)
    requires table.Valid()
    modifies table
    ensures table.Valid() && table.next == old(table.next)
    ensures h !in old(table.entries) ==>
              err == InvalidHandle() && status == err.code && table.entries == old(table.entries)
    ensures h in old(table.entries) && FinishBody(old(table.entries)[h], lib).Fail? ==>
              err == FinishBody(old(table.entries)[h], lib).error && status == err.code &&
              table.entries == old(table.entries)
    ensures h in old(table.entries) && FinishBody(old(table.entries)[h], lib).Ok? ==>
              err == ExternSuccess() && status == FinishBody(old(table.entries)[h], lib).value &&
              table.entries == old(table.entries) - {h}
  {
    var res := table.CallWithResult(h, c => FinishBody(c, lib));
    if res.Fail? {
      err := res.error;
      status := err.code;
      return;
    }
    err := table.RemoveU64(h);
    status := res.value;
  }

  // ---------------------------------------------------------------------------
  // Properties

  /** A verdict is always one of the four `SignatureProofStatus` codes, and those never
      collide with the success code 0 or the error code 1 a caller also sees. */
  lemma FinishVerdictIsStatus(c: VerifyProofContext, lib: Library)
    requires FinishBody(c, lib).Ok?
    ensures FinishBody(c, lib).value in {200, 400, 401, 402}
  {
  }

  /** A proof that reveals nothing can never be checked here: either no message was given
      (rejected as empty) or some were, and then the indices disagree. */
  lemma NothingRevealedIsRejected(c: VerifyProofContext, lib: Library)
    requires c.proof.Some? && Unpack(c.proof.value).Ok? && Unpack(c.proof.value).value.0 == {}
    ensures FinishBody(c, lib).Fail? && FinishBody(c, lib).error.code == 1
  {
    if c.proof.Some? && c.publicKey.Some? && c.nonce.Some? && c.messages != map[] {
      var k :| k in c.messages;
      assert k in c.messages.Keys;
    }
  }

  /** The verifier accepts only the messages at exactly the indices the prover revealed: for
      an envelope from the prover, a verdict is reached only when the keys of the supplied
      messages are the prover's revealed indices. */
  lemma VerdictNeedsProversIndices(c: VerifyProofContext, messages: seq<ProofMessage>,
                                   proof: PoKOfSignatureProof, lib: Library)
    requires |messages| < U16_MODULUS
    requires lib.decodeProof(lib.proofBytes(proof)) == Done(proof)
    requires c.proof == Some(TryFrom(CreateProof.Envelope(messages, lib.proofBytes(proof)), lib).value)
    requires TryFrom(CreateProof.Envelope(messages, lib.proofBytes(proof)), lib).Ok?
    requires FinishBody(c, lib).Ok?
    ensures c.messages.Keys == CreateProof.RevealedIndices(messages)
  {
    EnvelopeRoundTrip(messages, proof, lib);
  }
}
