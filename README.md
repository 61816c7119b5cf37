# BBS+ signatures FFI: a Dafny model

The `bbs` FFI library exposes BBS+ signing, blind signing and zero-knowledge proof creation
and verification to C, Java and other languages. It does so through one-shot *contexts*. A
caller `init`s a context and gets a `u64` handle. It fills the context through setters and
message adders, and `finish`es it. Finish checks the fields in a fixed order, makes one call
into the `bbs` crate and, on success only, retires the handle. The library also defines the
proof envelope that travels from holder to verifier. That envelope is a big-endian message
count, a reversed bit-vector of revealed indices, and the compressed proof.

This project models that layer:

- the six context records and their handle tables;
- every adder and setter the three macros generate;
- every `finish` together with its error order;
- the envelope encoder, decoder and size estimate;
- the `ByteArray` helpers and the status-code and type-code enums;
- the decisions the Java bindings make before they forward a call.

The curve arithmetic of the `bbs` crate is not modelled. Every crypto value is an opaque
type, and every crypto operation is a possibly failing function. These functions are fields
of `Crypto.Library`, which every operation takes as a parameter. The modules are:

- `Prelude`: bytes, bits, the `u16` big-endian codec and the integer casts.
- `Crypto`: the opaque values and the `Library` of crypto operations.
- `Ffi`: `ByteArray`, `ExternError`, `ByteBuffer` and the enums (src/lib.rs).
- `Handles`: the handle table (`ConcurrentHandleMap`), as a class over a `map`.
- `Macros`: the generated entry points (src/macros.rs).
- `CreateProof`, `VerifyProof`, `Sign`, `BlindCommitment`, `BlindSign` and
  `VerifySignProof`: one module per context file.
- `Jni`: the checks in the Java bindings (src/java.rs).

The handle table is the `ffi_support` crate's. It is not part of this model's source, so
`Handles.HandleMap` states what the call sites rely on. `insert_with_output` issues a fresh
handle. `call_with_output_mut` and `call_with_result_mut` either apply an update or leave
the record as it was. `call_with_result` and `call_with_output` only read. `remove_u64`
retires a handle. An unknown handle gives `ExternError` code -1000, and a caught panic gives
code -1. Both are `ffi_support`'s values; only code 1 (`BbsFfiError`) and 0 (success)
appear in the library's own source.

A `ByteArray` argument reaches every entry point as the bytes of `to_vec()`. The `_string`
variants receive the C string's bytes. A Java `jbyteArray` is `Some(bytes)` when the JNI
environment can read it and `None` when it cannot.

## Model

| member | source | states |
|---|---|---|
| Prelude.ShrIsShiftRight | src/bbs_verify_proof.rs:214 | shifting right one place `s` times is the shift by `s` |
| Prelude.ShrLowBit | src/bbs_verify_proof.rs:210-211 | the low bit of `b >> s` is bit `s` of `b` |
| Prelude.ShrWidth | src/bbs_verify_proof.rs:209 | eight single-place shifts leave a byte at zero, so the inner loop ends |
| Prelude.AsU16 | src/bbs_create_proof.rs:128 | `n as u16` is below 2^16 and is `n` itself when `n` fits |
| Prelude.U16ToBeBytes | src/bbs_create_proof.rs:128 | the big-endian form of a `u16` is two bytes |
| Prelude.U16FromBeBytes | src/bbs_verify_proof.rs:37 | reading two big-endian bytes gives a value below 2^16 |
| Prelude.U16RoundTrip | src/bbs_create_proof.rs:128 | for `n < 2^16`, reading back the header written for `n` gives `n`, whatever follows it |
| Prelude.AsI32 | src/bbs_create_proof.rs:43 | `as i32` gives a value in the `i32` range, equal to the input when it fits |
| Prelude.JintAsUsize | src/java.rs:277 | `jint as usize` keeps non-negative counts and sends negative ones above 2^63 |
| Ffi.ToVec | src/lib.rs:37-43 | a null pointer gives the empty vector; otherwise `length` bytes from the data |
| Ffi.ToOptVec | src/lib.rs:48-56 | `None` exactly for a null pointer; otherwise `length` bytes, possibly none |
| Ffi.FromSlice | src/lib.rs:64-70 | the array is non-null and its length is the slice's |
| Ffi.ToVecFlattensToOptVec | src/lib.rs:37-56 | `to_vec` is `to_opt_vec` with `None` flattened to empty |
| Ffi.FromSliceRoundTrip | src/lib.rs:37-70 | `to_vec(from_slice(d)) == d` and `to_opt_vec(from_slice(d)) == Some(d)` |
| Ffi.NullAndEmptyDiffer | src/lib.rs:37-56 | null and non-null empty give the same `to_vec` but different `to_opt_vec` |
| Ffi.ProofMessageType.Code | src/lib.rs:99-104 | the type-code discriminants are 1..3 |
| Ffi.ProofMessageTypeCodeInjective | src/lib.rs:99-104 | distinct proof-message types have distinct codes |
| Ffi.SignatureProofStatus.Code | src/lib.rs:106-115 | status codes are 200, 400, 401, 402; only Success is 200 |
| Ffi.SignatureProofStatusCodeInjective | src/lib.rs:106-115 | distinct statuses have distinct codes |
| Ffi.FromPoKStatus | src/lib.rs:117-128 | each crate status maps to the same-named FFI status, in both directions |
| Ffi.FromPoKStatusInjective | src/lib.rs:117-128 | distinct crate statuses give distinct codes |
| Ffi.ExternSuccess | src/lib.rs:142-146 | the success error has code 0 |
| Ffi.InvalidHandle | src/bbs_create_proof.rs:92-94 | an unknown handle is neither success nor a library error (code 1) |
| Ffi.Panic | src/bbs_verify_proof.rs:37-41 | a panic is neither success nor a library error (code 1) |
| Ffi.ToExternError | src/lib.rs:142-146 | a library error becomes code 1 with the same message |
| Ffi.ToExternErrorInjective | src/lib.rs:142-146 | the conversion loses no message |
| Ffi.FromLib | src/lib.rs:142-158 | a crate result becomes success with the value, or code 1 with its debug text |
| Macros.EmptyError | src/macros.rs:14-18 | code 1 and `"<what> cannot be empty"` |
| Macros.AddHashedMessage | src/macros.rs:9-40 | empty message: "Message cannot be empty", table unchanged; unknown handle: unchanged; otherwise the record is updated by `add` with the hashed message, nothing else changes |
| Macros.AddDecoded | src/macros.rs:54-58 | decoded scalar added, or the decode error with nothing added |
| Macros.AddPrehashedMessage | src/macros.rs:44-62 | as `AddHashedMessage`, except that a scalar that does not decode is reported and the table is unchanged |
| Macros.SetDecodedField | src/macros.rs:138-142 | a decoded value is stored; a decode failure is the error |
| Macros.SetDecoded | src/macros.rs:132-150 | empty value: `"<Type> cannot be empty"`; decode failure or unknown handle: table unchanged; otherwise only the field is replaced by `Some(decoded)` |
| Macros.SetHashed | src/macros.rs:157-189 | empty value: the variant's empty error; otherwise only the field is replaced by the hash of the value |
| Macros.TagProofMessage | src/macros.rs:239-255 | the proof message has the requested type and message, and an external blinding carries the hash of the blinding factor |
| Macros.TagProofMessageInjective | src/macros.rs:239-255 | equal proof messages exactly when the types and the messages are equal |
| Macros.ProofMessagePrecheck | src/macros.rs:228-237 | an error exactly when the message is empty, or the blinding factor is empty and the type is external blinding; the message check comes first |
| Macros.AddProofMessage | src/macros.rs:221-299 | the precheck error with the table unchanged, or exactly one tagged message pushed |
| Macros.AddDecodedProofMessage | src/macros.rs:319-335 | decoded scalar tagged and pushed, or the decode error |
| Macros.AddProofMessagePrehashed | src/macros.rs:301-339 | as `AddProofMessage`, with a decode failure reported and nothing pushed |
| CreateProof.BitvectorLength | src/bbs_create_proof.rs:149 | `total/8 + 1` bytes: at least one, and more bits than `total` |
| CreateProof.LittleEndianBitmap | src/bbs_create_proof.rs:149-155 | the bitmap before reversal has `total/8 + 1` bytes |
| CreateProof.Reversed | src/bbs_create_proof.rs:157-158 | a reversal keeps the length |
| CreateProof.Bitvector | src/bbs_create_proof.rs:148-160 | the reversed bitmap has `total/8 + 1` bytes |
| CreateProof.BitvectorBit | src/bbs_create_proof.rs:150-159 | bit `p % 8` of the byte `len-1-p/8` is set exactly when `p` is revealed |
| CreateProof.ReverseBytes | src/bbs_create_proof.rs:158 | the array afterwards holds the old contents reversed |
| CreateProof.RevealedToBitvector | src/bbs_create_proof.rs:148-160 | the loop and reversal give exactly `Bitvector(total, revealed)`, provided no index overruns the buffer |
| CreateProof.HiddenCount | src/bbs_create_proof.rs:38-40 | the number of hidden messages is at most the number of messages, and zero exactly when every message is revealed |
| CreateProof.RevealedIndices | src/bbs_create_proof.rs:117-126 | exactly the positions of `Revealed` entries |
| CreateProof.RevealedPlusHidden | src/bbs_create_proof.rs:38-40 | revealed and hidden entries together are all the messages |
| CreateProof.Init | src/bbs_create_proof.rs:47-54 | a fresh handle holding a record with nothing set |
| CreateProof.PushMessage | src/macros.rs:239-255 | the message list grows by one at the end; nothing else changes |
| CreateProof.AddProofMessage | src/bbs_create_proof.rs:56-61 | success exactly for a non-empty message (and blinding factor when external) on a live handle; then exactly one entry pushed; otherwise unchanged |
| CreateProof.AddProofMessagePrehashed | src/bbs_create_proof.rs:56-61 | as `AddProofMessage`, also requiring the scalar to decode |
| CreateProof.SetSignature | src/bbs_create_proof.rs:63-68 | success exactly for a non-empty signature that decodes; only the signature field changes |
| CreateProof.SetPublicKey | src/bbs_create_proof.rs:70-75 | success exactly for a non-empty public key that decodes; only that field changes |
| CreateProof.SetNonceString | src/bbs_create_proof.rs:77-84 | a non-empty nonce is hashed and stored; empty is "Message cannot be empty" |
| CreateProof.SetNonceBytes | src/bbs_create_proof.rs:77-84 | a non-empty nonce is hashed and stored; empty is "ProofNonce cannot be empty" |
| CreateProof.SetNoncePrehashed | src/bbs_create_proof.rs:77-84 | a non-empty nonce that decodes is stored |
| CreateProof.SizeEstimate | src/bbs_create_proof.rs:38-40 | 32 bytes per hidden message plus the bit-vector length |
| CreateProof.ContextSize | src/bbs_create_proof.rs:35-44 | 382 + the estimate, cast to `i32`; an unknown handle gives 382 |
| CreateProof.Envelope | src/bbs_create_proof.rs:128-131 | 2-byte big-endian count (mod 2^16), then the revealed bit-vector, then the proof bytes, with the exact length |
| CreateProof.Prove | src/bbs_create_proof.rs:111-115 | the challenge hashes the prover's transcript followed by the nonce bytes |
| CreateProof.FinishBody | src/bbs_create_proof.rs:95-133 | the first missing of signature, public key, nonce, messages is reported; success exactly when all are present and the crate succeeds, and then the output is the envelope |
| CreateProof.Finish | src/bbs_create_proof.rs:87-145 | on success the buffer holds the envelope and the handle is gone; on failure both are untouched |
| CreateProof.SizeEstimateCoversEnvelope | src/bbs_create_proof.rs:35-44 | the estimate bounds the envelope whenever the proof body fits its share of the overhead |
| VerifyProof.MarkedBelowMember | src/bbs_verify_proof.rs:202-221 | an index is read from the first `n` bit positions exactly when it is below `n` and its bit is set |
| VerifyProof.ByteBit | src/bbs_verify_proof.rs:206-210 | bit `b` of byte `i` stands for position `8 * (len - 1 - i) + b`, the bytes being walked from the last |
| VerifyProof.MarkedBit | src/bbs_verify_proof.rs:206-210 | position `p` is bit `p % 8` of the byte `p / 8` places from the end |
| VerifyProof.ReadBit | src/bbs_verify_proof.rs:209-216 | one pass of the inner loop adds `scalar` exactly when the low bit of `v` is 1, and `v` is zero once all eight bits are shifted out |
| VerifyProof.SkipClearBits | src/bbs_verify_proof.rs:218 | skipping the clear high bits of a byte reads no index (`scalar += remaining`) |
| VerifyProof.BitvectorToRevealed | src/bbs_verify_proof.rs:202-221 | the nested loops collect exactly `RevealedOf(data)` |
| VerifyProof.RevealedOfBitvector | src/bbs_verify_proof.rs:202-221 | decoding the encoder's bit-vector gives back the revealed set |
| VerifyProof.BitvectorOfRevealed | src/bbs_create_proof.rs:148-160 | encoding the decoded set of a bit-vector of the right length gives back the bytes |
| VerifyProof.ByteOfRevealed | src/bbs_verify_proof.rs:206-219 | each byte is recovered from the indices it contributes |
| VerifyProof.Offset | src/bbs_verify_proof.rs:38-39 | header plus bit-vector length |
| VerifyProof.TryFrom | src/bbs_verify_proof.rs:36-46 | too short for the header or for the offset gives a panic; otherwise the proof body is decoded and the header and bit-vector are kept |
| VerifyProof.Unpack | src/bbs_verify_proof.rs:58-66 | re-reads the count and decodes only the bit-vector part |
| VerifyProof.ToBytes | src/bbs_verify_proof.rs:68-72 | the stored prefix followed by the proof bytes |
| VerifyProof.UnpackAfterTryFrom | src/bbs_verify_proof.rs:36-66 | a wrapper that parsed can always be unpacked |
| VerifyProof.ToBytesAfterTryFrom | src/bbs_verify_proof.rs:36-72 | `to_bytes(try_from(v)) == v` when the proof body re-encodes to itself |
| VerifyProof.EnvelopeRoundTrip | src/bbs_create_proof.rs:128-131 | for fewer than 2^16 messages the envelope parses, unpacks to the prover's revealed set and proof, and re-encodes to itself |
| VerifyProof.Init | src/bbs_verify_proof.rs:111-119 | a fresh handle holding an empty record |
| VerifyProof.InsertMessage | src/macros.rs:81-84 | the map gains the index with the message, other indices unchanged (last write wins) |
| VerifyProof.AddMessage | src/bbs_verify_proof.rs:121-127 | success exactly for a non-empty message on a live handle; only the index entry changes |
| VerifyProof.AddMessagePrehashed | src/bbs_verify_proof.rs:121-127 | as `AddMessage`, also requiring the scalar to decode |
| VerifyProof.SetProof | src/bbs_verify_proof.rs:129-134 | success exactly for a non-empty value that parses as an envelope |
| VerifyProof.SetPublicKey | src/bbs_verify_proof.rs:136-141 | success exactly for a non-empty public key that decodes |
| VerifyProof.SetNonceString | src/bbs_verify_proof.rs:143-150 | a non-empty nonce is hashed and stored |
| VerifyProof.SetNonceBytes | src/bbs_verify_proof.rs:143-150 | a non-empty nonce is hashed and stored |
| VerifyProof.SetNoncePrehashed | src/bbs_verify_proof.rs:143-150 | a non-empty nonce that decodes is stored |
| VerifyProof.FinishBody | src/bbs_verify_proof.rs:158-189 | the first missing of proof, public key, nonce, messages is reported; different index sets fail with "Indices are not equal" before any crypto; a verdict exactly for a complete context with equal index sets on which the crate's verify succeeds, and then it is that status's code; a crate error gives code 1 with its debug text |
| VerifyProof.ChallengeAgreesWithProver | src/bbs_verify_proof.rs:182-185 | the verifier's challenge, the proof's challenge bytes for the revealed set followed by the nonce bytes and hashed, is the prover's challenge whenever those bytes are the prover's transcript |
| VerifyProof.Finish | src/bbs_verify_proof.rs:153-200 | on success the status is returned and the handle removed; on failure the error code and the handle kept |
| VerifyProof.FinishVerdictIsStatus | src/bbs_verify_proof.rs:187 | a verdict is one of 200, 400, 401, 402 |
| VerifyProof.NothingRevealedIsRejected | src/bbs_verify_proof.rs:167-180 | a proof revealing nothing is always an error |
| VerifyProof.VerdictNeedsProversIndices | src/bbs_verify_proof.rs:174-180 | a verdict on a holder's envelope means the verifier supplied exactly the revealed indices |
| Sign.SignatureSize | src/bbs_sign.rs:20-22 | 112 |
| Sign.Init | src/bbs_sign.rs:25-32 | a fresh handle holding a record with no messages and nothing set |
| Sign.PushMessage | src/macros.rs:19-22 | one message appended, earlier ones and the other fields unchanged |
| Sign.AddMessage | src/bbs_sign.rs:34-39 | success exactly for a non-empty message on a live handle; then one message appended |
| Sign.AddMessagePrehashed | src/bbs_sign.rs:34-39 | as `AddMessage`, also requiring the scalar to decode |
| Sign.SetSecretKey | src/bbs_sign.rs:41-46 | success exactly for a non-empty key that decodes; only that field changes |
| Sign.SetPublicKey | src/bbs_sign.rs:47-52 | success exactly for a non-empty key that decodes; only that field changes |
| Sign.SetSignature | src/bbs_sign.rs:132-137 | success exactly for a non-empty signature that decodes; only that field changes |
| Sign.FinishBody | src/bbs_sign.rs:61-79 | the first missing of secret key, public key, messages; success exactly when signing succeeds, with the signature's bytes |
| Sign.Finish | src/bbs_sign.rs:55-89 | on success the signature is written and the handle removed; on failure both are untouched |
| Sign.VerifyBody | src/bbs_sign.rs:141-158 | the first missing of signature, public key, messages; 1 exactly when it verifies, 0 exactly when it does not |
| Sign.VerifyFinish | src/bbs_sign.rs:140-160 | returns 1 exactly for a verified signature, 0 otherwise; never changes the table |
| Sign.SignThenVerify | src/bbs_sign.rs:55-160 | a signature produced by sign finish, put in a context with the same messages and key, verifies with 1 |
| BlindCommitment.BlindSignatureSize | src/bbs_blind_commitment.rs:22-24 | 112 |
| BlindCommitment.Init | src/bbs_blind_commitment.rs:27-33 | a fresh handle holding an empty record |
| BlindCommitment.InsertMessage | src/bbs_blind_commitment.rs:35-41 | the index gains the message, other indices unchanged |
| BlindCommitment.AddMessage | src/bbs_blind_commitment.rs:35-41 | success exactly for a non-empty message on a live handle |
| BlindCommitment.AddMessagePrehashed | src/bbs_blind_commitment.rs:35-41 | as `AddMessage`, also requiring the scalar to decode |
| BlindCommitment.SetPublicKey | src/bbs_blind_commitment.rs:43-48 | success exactly for a non-empty key that decodes |
| BlindCommitment.SetNonceString | src/bbs_blind_commitment.rs:50-57 | a non-empty nonce is hashed and stored |
| BlindCommitment.SetNonceBytes | src/bbs_blind_commitment.rs:50-57 | a non-empty nonce is hashed and stored |
| BlindCommitment.SetNoncePrehashed | src/bbs_blind_commitment.rs:50-57 | a non-empty nonce that decodes is stored |
| BlindCommitment.FinishBody | src/bbs_blind_commitment.rs:66-91 | the first missing of nonce, public key, messages; on success blinding-factor bytes followed by context bytes, at least 80 bytes |
| BlindCommitment.SplitOutput | src/bbs_blind_commitment.rs:95-99 | blinding factor followed by out-context is the whole, and the commitment is the first 48 bytes of out-context |
| BlindCommitment.SplitRecoversParts | src/bbs_blind_commitment.rs:84-99 | the split recovers the blinding factor and the context that were concatenated |
| BlindCommitment.Finish | src/bbs_blind_commitment.rs:60-106 | on success the three buffers hold the parts and the handle is removed; on failure nothing changes |
| BlindSign.BlindingFactorSize | src/bbs_blind_sign.rs:23-25 | 32 |
| BlindSign.Init | src/bbs_blind_sign.rs:28-35 | a fresh handle holding an empty record |
| BlindSign.InsertMessage | src/bbs_blind_sign.rs:37-43 | the index gains the message, other indices unchanged |
| BlindSign.AddMessage | src/bbs_blind_sign.rs:37-43 | success exactly for a non-empty message on a live handle |
| BlindSign.AddMessagePrehashed | src/bbs_blind_sign.rs:37-43 | as `AddMessage`, also requiring the scalar to decode |
| BlindSign.SetPublicKey | src/bbs_blind_sign.rs:45-50 | success exactly for a non-empty key that decodes |
| BlindSign.SetSecretKey | src/bbs_blind_sign.rs:52-57 | success exactly for a non-empty key that decodes |
| BlindSign.SetCommitment | src/bbs_blind_sign.rs:59-64 | success exactly for a non-empty commitment that decodes |
| BlindSign.FinishBody | src/bbs_blind_sign.rs:75-96 | the first missing of commitment, secret key, public key, messages; success exactly when blind signing succeeds |
| BlindSign.Finish | src/bbs_blind_sign.rs:67-106 | on success the blinded signature is written and the handle removed; on failure both are untouched |
| BlindSign.UnblindBody | src/bbs_blind_sign.rs:115-122 | the blind signature is decoded first, then the blinding factor; success is the unblinded signature's bytes |
| BlindSign.UnblindSignature | src/bbs_blind_sign.rs:109-125 | always returns 0; the output buffer is overwritten, with the signature or with nothing |
| BlindSign.UnblindWithHoldersFactor | src/bbs_blind_sign.rs:23-25 | the holder's 32-byte blinding factor and the signer's blind signature unblind |
| VerifySignProof.Init | src/bbs_verify_sign_proof.rs:23-33 | a fresh handle holding an empty record |
| VerifySignProof.InsertBlinded | src/bbs_verify_sign_proof.rs:40-43 | the blinded set gains the index; nothing else changes |
| VerifySignProof.InsertBlindedCommutes | src/bbs_verify_sign_proof.rs:40-43 | adding indices commutes and repeating one changes nothing |
| VerifySignProof.AddBlinded | src/bbs_verify_sign_proof.rs:35-44 | success exactly on a live handle, then the index is added |
| VerifySignProof.SetCommitment | src/bbs_verify_sign_proof.rs:46-51 | success exactly for a non-empty commitment that decodes |
| VerifySignProof.SetChallengeHash | src/bbs_verify_sign_proof.rs:53-58 | success exactly for a non-empty challenge that decodes |
| VerifySignProof.SetPublicKey | src/bbs_verify_sign_proof.rs:60-65 | success exactly for a non-empty key that decodes |
| VerifySignProof.SetNonceString | src/bbs_verify_sign_proof.rs:67-74 | a non-empty nonce is hashed and stored |
| VerifySignProof.SetNonceBytes | src/bbs_verify_sign_proof.rs:67-74 | a non-empty nonce is hashed and stored |
| VerifySignProof.SetNoncePrehashed | src/bbs_verify_sign_proof.rs:67-74 | a non-empty nonce that decodes is stored |
| VerifySignProof.SetProof | src/bbs_verify_sign_proof.rs:76-81 | success exactly for a non-empty proof that decodes |
| VerifySignProof.FinishBody | src/bbs_verify_sign_proof.rs:86-121 | the first missing of blinded set, commitment, challenge hash, nonce, proof, public key; 200 exactly when it verifies, 401 exactly when it does not |
| VerifySignProof.Finish | src/bbs_verify_sign_proof.rs:84-133 | on success the status is returned and the handle removed; on failure the error code and the handle kept |
| VerifySignProof.StatusDistinguishesOutcomes | src/bbs_verify_sign_proof.rs:116-131 | a status can never be mistaken for an error code, nor an error for a status |
| Jni.TotalMessagesCount | src/java.rs:1087-1098 | -1 exactly for an unreadable array or one shorter than 2 bytes; otherwise the big-endian `u16` header |
| Jni.TotalMessagesCountOfEnvelope | src/java.rs:1087-1098 | reading an envelope's count gives the number of proof messages mod 2^16 |
| Jni.TypeOfCode | src/java.rs:891-904 | codes 1, 2, 3 name a type; any other code names none |
| Jni.TypeOfCodeInvertsCode | src/java.rs:891-904 | the Java codes and the enum's discriminants invert each other |
| Jni.AsWrittenReportsSuccessForNothing | src/java.rs:895-897 | code 3 with an unreadable blinding factor returns 0 without forwarding |
| Jni.DispatchAsWritten | src/java.rs:884-904 | the switch as written: it returns early exactly for an unreadable message, an unknown type code or type 3 with an unreadable blinding factor, and it returns the success code 0 exactly in that last case |
| Jni.DispatchProofMessage | src/java.rs:884-904 | an early return is never 0; unreadable message 1; unknown code 2; otherwise the message, type and blinding factor are forwarded |
| Jni.DispatchDiffersOnlyThere | src/java.rs:884-904 | the correction changes only the unreadable-blinding-factor case |
| Jni.AddProofMessageBytes | src/java.rs:876-912 | built on the corrected switch `Jni.DispatchProofMessage`, so type 3 with an unreadable blinding factor returns 1 where src/java.rs:896 returns 0; 0 exactly when the switch forwards, the create-proof precheck passes and the handle is live, and then one tagged proof message was pushed; any other outcome leaves the table unchanged |
| Jni.LengthPrecheck | src/java.rs:314-316 | 1 for an unreadable array, 2 for a wrong length, otherwise forward |
| Jni.SignSetSecretKey | src/java.rs:305-320 | unreadable 1, length other than 32 gives 2, both with the table unchanged; otherwise the sign setter |
| Jni.BlindSignSetSecretKey | src/java.rs:637-652 | the same checks for the blind signer |
| Jni.VerifySetSignature | src/java.rs:466-481 | unreadable 1, shorter than 48 bytes gives 2, both with the table unchanged; otherwise the verify setter |
| Jni.GetSecretKey | src/java.rs:1072-1083 | `Err(0)` exactly for an unreadable or non-32-byte array; otherwise the key from those bytes |
| Jni.BlsPublicKeyToBbsKey | src/java.rs:255-292 | an unreadable or non-96-byte key, a failed expansion or a failed validation gives the empty array; a readable 96-byte key that expands and validates gives the expanded key's bytes |

## Left out

- The BBS+ and BLS12-381 cryptography of the `bbs` crate. Signing, verifying, proofs of knowledge, blind signatures, key expansion, hashing to a scalar and every `to_bytes`/`try_from` of a crypto value are opaque functions on opaque values in `Crypto.Library`.
- Concurrency of the `ConcurrentHandleMap` and `lazy_static` tables: the model is a sequential map per protocol.
- `ffi_support`'s panic catching, `ExternError` ownership and `ByteBuffer` destructors. A panic is the value `Ffi.Panic`, and the error codes -1000 and -1 stand in for that crate's.
- The debug file write in `try_from` (src/bbs_verify_proof.rs:40): it is file I/O, which this model does not have. Its `.unwrap()` panics whenever the write fails, so `VerifyProof.TryFrom`, with success exactly when the proof body decodes, presumes the write succeeds.
- A panic inside a closure that mutates a record (for example `VerifyProof.SetProof` on a 2-byte value, whose `try_from` slicing panics at src/bbs_verify_proof.rs:37 and 40) is modelled as leaving the record unchanged and usable. How `ffi_support` treats the entry's lock after a panic is not part of this model, so this is an assumption.
- `Crypto.FrBytes` and `Crypto.ContextBytes` assume that the crate's compressed scalars are 32 bytes and its blind-signature contexts at least 48 bytes. That assumption is what rules out the slicing panic after the closure at src/bbs_blind_commitment.rs:95-97.
- u64 handle wrap-around: handles are unbounded naturals issued from a counter. The JNI `jlong`-to-`u64` cast of handles is left out for the same reason.
- `usize` overflow in the size estimate; only the final `as i32` truncation is modelled.
- The unreachable `(_, _)` arms of the finish matches (src/bbs_sign.rs:78, 155; src/bbs_blind_commitment.rs:89): the preceding checks rule them out.
- The iteration order of `BTreeSet`/`BTreeMap` in the encoder: the result does not depend on it.
- The serde `Serialize`/`Deserialize` impls (src/bbs_verify_proof.rs:75-109): they only delegate to `to_bytes`/`try_from`.
- src/bls.rs, src/android.rs and the rest of src/java.rs: copying into JNI arrays, `LAST_ERROR` and key generation. They are marshalling only.
- The verify-context delegates (src/bbs_sign.rs:92-130) forward to the sign members. They are the same members here: `Sign.Init`, `Sign.AddMessage`, `Sign.AddMessagePrehashed` and `Sign.SetPublicKey`.
- C-string decoding of the `_string` variants (UTF-8 checks in `FfiStr`): the model takes the string's bytes.
- `CreateProof.RevealedToBitvector` requires every revealed index to fit the buffer; an index beyond it makes the source panic on the array index, and the model does not represent that panic.
- `VerifyProof.EnvelopeRoundTrip` requires fewer than 65536 messages: the header is `len as u16`, so a longer list is announced modulo 2^16 and cannot be parsed back.
- `Jni.BlsPublicKeyToBbsKey` does not model a failure to allocate the Java result array (`new_byte_array(..).unwrap()`).
- The Java, .NET, Python, Scala and Objective-C wrappers and the C headers are not part of this model. The Java wrapper reads 0 from verify as "verified", whereas `Sign.VerifyFinish` returns 1 for a verified signature.

## Findings

| source | as written | input that shows it | evidently intended | confidence | as-written member | corrected member |
|---|---|---|---|---|---|---|
| src/java.rs:895-897 | with type code 3, an unreadable blinding-factor array returns 0, the success code, and no proof message is added | a readable message, `xtype` 3 and a blinding factor the JNI environment cannot read | a non-zero error code, as for the unreadable message (1) | medium, not executed | Jni.AsWrittenReportsSuccessForNothing | Jni.DispatchProofMessage |
