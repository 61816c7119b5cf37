/** The Java bindings' own checks (src/java.rs), kept to the parts that decide something
    before forwarding: the proof header reader, the proof-message type-code switch and the
    length prechecks on keys and signatures. A Java byte array is `Some(bytes)` when the JNI
    environment can read it and `None` when it cannot. */
module Jni {
  import opened Prelude
  import opened Ffi
  import opened Crypto
  import opened Handles
  import Macros
  import CreateProof
  import Sign
  import BlindSign

  /** A `jbyteArray` argument as `convert_byte_array` sees it. */
  type JArray = Option<seq<Byte>>

  // ---------------------------------------------------------------------------
  // bbs_get_total_messages_count_for_proof

  /** The message count announced by a proof envelope, or -1 when the array cannot be read
      or is shorter than the 2-byte header. */
  function TotalMessagesCount(proof: JArray): (r: int)
    ensures r == -1 <==> proof.None? || |proof.value| < 2
    ensures r != -1 ==> r == U16FromBeBytes(proof.value) && 0 <= r < U16_MODULUS
  {
    match proof
    case None => -1
    case Some(s) => if |s| < 2 then -1 else U16FromBeBytes(s)
  }

  /** Reading the count of an envelope the prover emitted gives the number of proof messages,
      modulo 2^16 because of the `as u16` on the writing side. */
  lemma TotalMessagesCountOfEnvelope(messages: seq<ProofMessage>, proof: seq<Byte>)
    ensures TotalMessagesCount(Some(CreateProof.Envelope(messages, proof))) == |messages| % U16_MODULUS
    ensures |messages| < U16_MODULUS ==> TotalMessagesCount(Some(CreateProof.Envelope(messages, proof))) == |messages|
  {
  }

  // ---------------------------------------------------------------------------
  // The proof-message type-code switch

  /** The `match xtype` on the Java side: codes 1, 2, 3 name the three proof-message types. */
  function TypeOfCode(x: int): (t: Option<ProofMessageType>)
    ensures t.Some? <==> 1 <= x <= 3
  {
    if x == 1 then Some(ProofMessageType.Revealed)
    else if x == 2 then Some(HiddenProofSpecificBlinding)
    else if x == 3 then Some(HiddenExternalBlinding)
    else None
  }

  /** The Java codes are exactly the `#[repr(C)]` discriminants, in both directions. */
  lemma {:induction false} TypeOfCodeInvertsCode(t: ProofMessageType, x: int)
    ensures TypeOfCode(t.Code()) == Some(t)
    ensures TypeOfCode(x).Some? ==> TypeOfCode(x).value.Code() == x
  {
    match t
    case Revealed => assert t.Code() == 1;
    case HiddenProofSpecificBlinding => assert t.Code() == 2;
    case HiddenExternalBlinding => assert t.Code() == 3;
  }

  /** What the switch decides: return a code at once, or forward the message, its type and
      the blinding factor's bytes (empty unless the type is external blinding). */
  datatype Dispatch = Return(code: int) | Forward(message: seq<Byte>, xtype: ProofMessageType, blindingFactor: seq<Byte>)

  /** The switch as the bindings write it: when the type is 3 and the blinding factor cannot
      be read, it returns 0, which callers read as success, although nothing is added. */
  function DispatchAsWritten(message: JArray, xtype: int, blindingFactor: JArray): (d: Dispatch)
    ensures d.Return? <==> message.None? || TypeOfCode(xtype).None? || (xtype == 3 && blindingFactor.None?)
    ensures d.Return? && d.code == SUCCESS_CODE <==> message.Some? && xtype == 3 && blindingFactor.None?
    ensures d.Forward? ==> Some(d.xtype) == TypeOfCode(xtype) && d.message == message.value
  {
    if message.None? then Return(1)
    else if xtype == 1 then Forward(message.value, ProofMessageType.Revealed, [])
    else if xtype == 2 then Forward(message.value, HiddenProofSpecificBlinding, [])
    else if xtype == 3 then
      if blindingFactor.None? then Return(0) else Forward(message.value, HiddenExternalBlinding, blindingFactor.value)
    else Return(2)
  }

  /** The input that shows the discrepancy: a readable message, type 3 and an unreadable
      blinding factor return the success code without forwarding anything. */
  lemma AsWrittenReportsSuccessForNothing()
    ensures DispatchAsWritten(Some([1]), 3, None) == Return(SUCCESS_CODE)
  {
  }

  /** The switch with an unreadable blinding factor reported like an unreadable message, by
      1. This is the one the model uses. */
  function DispatchProofMessage(message: JArray, xtype: int, blindingFactor: JArray): (d: Dispatch)
    ensures d.Return? ==> d.code != SUCCESS_CODE
    ensures d.Return? <==> message.None? || TypeOfCode(xtype).None? || (xtype == 3 && blindingFactor.None?)
    ensures message.None? ==> d == Return(1)
    ensures message.Some? && TypeOfCode(xtype).None? ==> d == Return(2)
    ensures d.Forward? ==> Some(d.xtype) == TypeOfCode(xtype) && d.message == message.value &&
                           d.blindingFactor == (if xtype == 3 then blindingFactor.value else [])
  {
    if message.None? then Return(1)
    else if xtype == 1 then Forward(message.value, ProofMessageType.Revealed, [])
    else if xtype == 2 then Forward(message.value, HiddenProofSpecificBlinding, [])
    else if xtype == 3 then
      if blindingFactor.None? then Return(1) else Forward(message.value, HiddenExternalBlinding, blindingFactor.value)
    else Return(2)
  }

  /** The correction changes nothing but that one case. */
  lemma {:induction false} DispatchDiffersOnlyThere(message: JArray, xtype: int, blindingFactor: JArray)
    ensures DispatchProofMessage(message, xtype, blindingFactor) != DispatchAsWritten(message, xtype, blindingFactor) <==>
            message.Some? && xtype == 3 && blindingFactor.None?
  {
    if message.Some? && xtype == 3 && blindingFactor.None? {
      assert DispatchProofMessage(message, xtype, blindingFactor) == Return(1);
    }
  }

  /** `Java_bbs_signatures_Bbs_bbs_1create_1proof_1context_1add_1proof_1message_1bytes`, with
      the corrected switch: 0 exactly when one proof message was appended. */
  method AddProofMessageBytes(table: HandleMap<CreateProof.CreateProofContext>, h: Handle, message: JArray,
                              xtype: int, blindingFactor: JArray, lib: Library)
    returns (code: int)
    requires table.Valid()
    modifies table
    ensures table.Valid() && table.next == old(table.next)
    ensures DispatchProofMessage(message, xtype, blindingFactor).Return? ==>
              code == DispatchProofMessage(message, xtype, blindingFactor).code && table.entries == old(table.entries)
    ensures code == SUCCESS_CODE ==>
              var d := DispatchProofMessage(message, xtype, blindingFactor);
              d.Forward? && h in old(table.entries) &&
              table.entries == old(table.entries)[h := CreateProof.PushMessage(old(table.entries)[h],
                                 Macros.TagProofMessage(d.xtype, lib.hashMessage(d.message), d.blindingFactor, lib))]
    ensures code == SUCCESS_CODE <==>
              var d := DispatchProofMessage(message, xtype, blindingFactor);
              d.Forward? && Macros.ProofMessagePrecheck(d.message, d.xtype, d.blindingFactor).None? &&
              h in old(table.entries)
    ensures code != SUCCESS_CODE ==> table.entries == old(table.entries)
  {
    var d := DispatchProofMessage(message, xtype, blindingFactor);
    if d.Return? {
      code := d.code;
      return;
    }
    var err := CreateProof.AddProofMessage(table, h, d.message, d.xtype, d.blindingFactor, lib);
    code := err.code;
  }

  // ---------------------------------------------------------------------------
  // Length prechecks

  /** The code a Java key or signature setter returns before forwarding, if any: 1 for an
      unreadable array, 2 for one of the wrong length. */
  function LengthPrecheck(value: JArray, lengthOk: nat -> bool): (r: Option<int>)
    ensures r == Some(1) <==> value.None?
    ensures r == Some(2) <==> value.Some? && !lengthOk(|value.value|)
    ensures r.None? <==> value.Some? && lengthOk(|value.value|)
  {
    if value.None? then Some(1)
    else if !lengthOk(|value.value|) then Some(2)
    else None
  }

  /** `Java_bbs_signatures_Bbs_bbs_1sign_1set_1secret_1key`: only a 32-byte key is forwarded. */
  method SignSetSecretKey(table: HandleMap<Sign.SignContext>, h: Handle, secretKey: JArray, lib: Library)
    returns (code: int)
    requires table.Valid()
    modifies table
    ensures table.Valid() && table.next == old(table.next)
    ensures secretKey.None? ==> code == 1 && table.entries == old(table.entries)
    ensures secretKey.Some? && |secretKey.value| != FR_COMPRESSED_SIZE ==> code == 2 && table.entries == old(table.entries)
    ensures code == SUCCESS_CODE <==>
              secretKey.Some? && |secretKey.value| == FR_COMPRESSED_SIZE && h in old(table.entries) &&
              lib.decodeSecretKey(secretKey.value).Done?
    ensures code == SUCCESS_CODE ==>
              table.entries == old(table.entries)[h := old(table.entries)[h].(secretKey := Some(lib.decodeSecretKey(secretKey.value).value))]
    ensures code != SUCCESS_CODE ==> table.entries == old(table.entries)
  {
    var pre := LengthPrecheck(secretKey, n => n == FR_COMPRESSED_SIZE);
    if pre.Some? {
      code := pre.value;
      return;
    }
    FromSliceRoundTrip(secretKey.value);
    var err := Sign.SetSecretKey(table, h, ToVec(FromSlice(secretKey.value)), lib);
    code := err.code;
  }

  /** `Java_bbs_signatures_Bbs_bbs_1blind_1sign_1set_1secret_1key`: the same check for the
      blind signer. */
  method BlindSignSetSecretKey(table: HandleMap<BlindSign.BlindSignContext>, h: Handle, secretKey: JArray, lib: Library)
    returns (code: int)
    requires table.Valid()
    modifies table
    ensures table.Valid() && table.next == old(table.next)
    ensures secretKey.None? ==> code == 1 && table.entries == old(table.entries)
    ensures secretKey.Some? && |secretKey.value| != FR_COMPRESSED_SIZE ==> code == 2 && table.entries == old(table.entries)
    ensures code == SUCCESS_CODE <==>
              secretKey.Some? && |secretKey.value| == FR_COMPRESSED_SIZE && h in old(table.entries) &&
              lib.decodeSecretKey(secretKey.value).Done?
    ensures code == SUCCESS_CODE ==>
              table.entries == old(table.entries)[h := old(table.entries)[h].(secretKey := Some(lib.decodeSecretKey(secretKey.value).value))]
    ensures code != SUCCESS_CODE ==> table.entries == old(table.entries)
  {
    var pre := LengthPrecheck(secretKey, n => n == FR_COMPRESSED_SIZE);
    if pre.Some? {
      code := pre.value;
      return;
    }
    FromSliceRoundTrip(secretKey.value);
    var err := BlindSign.SetSecretKey(table, h, ToVec(FromSlice(secretKey.value)), lib);
    code := err.code;
  }

  /** `Java_bbs_signatures_Bbs_bbs_1verify_1set_1signature`: a signature shorter than one G1
      point is refused before decoding. */
  method VerifySetSignature(table: HandleMap<Sign.SignContext>, h: Handle, signature: JArray, lib: Library)
    returns (code: int)
    requires table.Valid()
    modifies table
    ensures table.Valid() && table.next == old(table.next)
    ensures signature.None? ==> code == 1 && table.entries == old(table.entries)
    ensures signature.Some? && |signature.value| < G1_COMPRESSED_SIZE ==> code == 2 && table.entries == old(table.entries)
    ensures code == SUCCESS_CODE <==>
              signature.Some? && |signature.value| >= G1_COMPRESSED_SIZE && h in old(table.entries) &&
              lib.decodeSignature(signature.value).Done?
    ensures code == SUCCESS_CODE ==>
              table.entries == old(table.entries)[h := old(table.entries)[h].(signature := Some(lib.decodeSignature(signature.value).value))]
    ensures code != SUCCESS_CODE ==> table.entries == old(table.entries)
  {
    var pre := LengthPrecheck(signature, n => n >= G1_COMPRESSED_SIZE);
    if pre.Some? {
      code := pre.value;
      return;
    }
    FromSliceRoundTrip(signature.value);
    var err := Sign.SetSignature(table, h, ToVec(FromSlice(signature.value)), lib);
    code := err.code;
  }

  /** The `Result<SecretKey, jint>` of `get_secret_key`. */
  datatype KeyResult = Key(key: SecretKey) | KeyError(code: int)

  /** `get_secret_key`: a readable 32-byte array becomes a key; anything else is `Err(0)`. */
  function GetSecretKey(secretKey: JArray, lib: Library): (r: KeyResult)
    ensures r.KeyError? <==> secretKey.None? || |secretKey.value| != FR_COMPRESSED_SIZE
    ensures r.KeyError? ==> r.code == 0
    ensures r.Key? ==> r.key == lib.secretKeyFromArray(secretKey.value)
  {
    if secretKey.None? || |secretKey.value| != FR_COMPRESSED_SIZE then KeyError(0)
    else Key(lib.secretKeyFromArray(secretKey.value))
  }

  /** `Java_bbs_signatures_Bbs_bls_1public_1key_1to_1bbs_1key`: expand a 96-byte deterministic
      public key to a public key for `messageCount` messages. Every failure, a wrong length
      among them, gives the empty array. A negative `jint` count wraps to a huge `usize`. */
  function BlsPublicKeyToBbsKey(shortPublicKey: JArray, messageCount: int, lib: Library): (r: seq<Byte>)
    requires -0x8000_0000 <= messageCount < 0x8000_0000
    ensures shortPublicKey.None? || |shortPublicKey.value| != DETERMINISTIC_PUBLIC_KEY_COMPRESSED_SIZE ==> r == []
    ensures r != [] ==>
              shortPublicKey.Some? && |shortPublicKey.value| == DETERMINISTIC_PUBLIC_KEY_COMPRESSED_SIZE &&
              var pk := lib.toPublicKey(lib.dpkFromArray(shortPublicKey.value), JintAsUsize(messageCount));
              pk.Done? && lib.validatePublicKey(pk.value).Done? && r == lib.publicKeyBytes(pk.value)
    ensures shortPublicKey.Some? && |shortPublicKey.value| == DETERMINISTIC_PUBLIC_KEY_COMPRESSED_SIZE ==>
              var pk := lib.toPublicKey(lib.dpkFromArray(shortPublicKey.value), JintAsUsize(messageCount));
              (pk.LibError? ==> r == []) &&
              (pk.Done? && lib.validatePublicKey(pk.value).LibError? ==> r == []) &&
              (pk.Done? && lib.validatePublicKey(pk.value).Done? ==> r == lib.publicKeyBytes(pk.value))
  {
    if shortPublicKey.None? || |shortPublicKey.value| != DETERMINISTIC_PUBLIC_KEY_COMPRESSED_SIZE then []
    else
      match lib.toPublicKey(lib.dpkFromArray(shortPublicKey.value), JintAsUsize(messageCount))
      case LibError(_) => []
      case Done(pk) =>
        if lib.validatePublicKey(pk).LibError? then [] else lib.publicKeyBytes(pk)
  }
}
