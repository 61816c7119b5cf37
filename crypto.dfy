/** The external BBS+ library, seen only through its interface: opaque value types, the
    fixed compressed sizes, and every operation the bindings call, as an uninterpreted and
    possibly failing function. A `Library` value is one fixed choice of all of them; every
    operation of the model takes it as a parameter, so nothing proved here depends on how
    the pairing arithmetic behaves. */
module Crypto {
  import opened Prelude

  // Compressed sizes (bytes) of the BLS12-381 encodings used by the library.
  const FR_COMPRESSED_SIZE: nat := 32
  const G1_COMPRESSED_SIZE: nat := 48
  const G2_COMPRESSED_SIZE: nat := 96
  const SIGNATURE_COMPRESSED_SIZE: nat := 112
  /** A deterministic public key is one compressed G2 element. */
  const DETERMINISTIC_PUBLIC_KEY_COMPRESSED_SIZE: nat := G2_COMPRESSED_SIZE

  /** `SignatureMessage`: a message scalar. */
  type SignatureMessage(==, !new)
  type SecretKey(!new)
  type PublicKey(!new)
  type DeterministicPublicKey(!new)
  type Signature(!new)
  type ProofNonce(==, !new)
  type ProofChallenge(!new)
  type Commitment(!new)
  /** The proof of knowledge of the committed messages sent with a blind-signature request. */
  type ProofG1(!new)
  /** A prover's transcript (`PoKOfSignature`) between `init` and `gen_proof`. */
  type PoKOfSignature(!new)
  type PoKOfSignatureProof(!new)
  type BlindSignature(!new)
  /** `SignatureBlinding`: the holder's blinding factor, a scalar. */
  type SignatureBlinding(!new)
  /** The holder's `BlindSignatureContext`: commitment, challenge and proof of hidden messages. */
  type BlindSignatureContext(!new)

  datatype HiddenMessage =
    | ProofSpecificBlinding(message: SignatureMessage)
    | ExternalBlinding(message: SignatureMessage, blinding: ProofNonce)

  /** `ProofMessage`: a message of a selective-disclosure proof, revealed or hidden. */
  datatype ProofMessage = Revealed(message: SignatureMessage) | Hidden(hidden: HiddenMessage)

  /** `PoKOfSignatureProofStatus`, the library's verification verdict. */
  datatype PoKOfSignatureProofStatus = Success | BadSignature | BadHiddenMessage | BadRevealedMessage

  /** `Result<T, BBSError>` (or `PoKVCError`): a value, or the error's debug text. */
  datatype LibResult<T> = Done(value: T) | LibError(debug: string)

  /** The compressed form of a scalar: exactly `FR_COMPRESSED_SIZE` bytes. */
  type FrBytes = s: seq<Byte> | |s| == FR_COMPRESSED_SIZE
    witness seq(FR_COMPRESSED_SIZE, _ => 0 as bv8)

  /** The compressed form of a `BlindSignatureContext`, which starts with its G1 commitment. */
  type ContextBytes = s: seq<Byte> | |s| >= G1_COMPRESSED_SIZE
    witness seq(G1_COMPRESSED_SIZE, _ => 0 as bv8)

  type DpkBytes = s: seq<Byte> | |s| == DETERMINISTIC_PUBLIC_KEY_COMPRESSED_SIZE
    witness seq(DETERMINISTIC_PUBLIC_KEY_COMPRESSED_SIZE, _ => 0 as bv8)

  datatype Library = Library(
    // SignatureMessage::hash and SignatureMessage::try_from (prehashed scalar)
    hashMessage: seq<Byte> -> SignatureMessage,
    decodeMessage: seq<Byte> -> LibResult<SignatureMessage>,
    // ProofNonce::hash, ProofNonce::try_from, to_bytes_compressed_form
    hashNonce: seq<Byte> -> ProofNonce,
    decodeNonce: seq<Byte> -> LibResult<ProofNonce>,
    nonceBytes: ProofNonce -> seq<Byte>,
    // try_from of the remaining byte-encoded values
    decodeSecretKey: seq<Byte> -> LibResult<SecretKey>,
    decodePublicKey: seq<Byte> -> LibResult<PublicKey>,
    decodeSignature: seq<Byte> -> LibResult<Signature>,
    decodeCommitment: seq<Byte> -> LibResult<Commitment>,
    decodeChallenge: seq<Byte> -> LibResult<ProofChallenge>,
    decodeProofG1: seq<Byte> -> LibResult<ProofG1>,
    // Signature::new, Signature::verify, to_bytes_compressed_form
    sign: (seq<SignatureMessage>, SecretKey, PublicKey) -> LibResult<Signature>,
    verify: (seq<SignatureMessage>, Signature, PublicKey) -> LibResult<bool>,
    signatureBytes: Signature -> seq<Byte>,
    // Prover::new_blind_signature_context and the compressed forms of its two results
    newBlindSignatureContext: (PublicKey, map<nat, SignatureMessage>, ProofNonce)
                              -> LibResult<(BlindSignatureContext, SignatureBlinding)>,
    blindingBytes: SignatureBlinding -> FrBytes,
    contextBytes: BlindSignatureContext -> ContextBytes,
    // BlindSignatureContext { .. }.verify(blinded, public_key, nonce)
    verifyBlindContext: (Commitment, ProofChallenge, ProofG1, set<nat>, PublicKey, ProofNonce)
                        -> LibResult<bool>,
    // BlindSignature::new, its compressed form, decoding, and to_unblinded
    blindSign: (Commitment, map<nat, SignatureMessage>, SecretKey, PublicKey) -> LibResult<BlindSignature>,
    blindSignatureBytes: BlindSignature -> seq<Byte>,
    decodeBlindSignature: seq<Byte> -> LibResult<BlindSignature>,
    decodeBlinding: seq<Byte> -> LibResult<SignatureBlinding>,
    unblind: (BlindSignature, SignatureBlinding) -> Signature,
    // PoKOfSignature::init, to_bytes, ProofChallenge::hash, gen_proof
    pokInit: (Signature, PublicKey, seq<ProofMessage>) -> LibResult<PoKOfSignature>,
    pokTranscript: PoKOfSignature -> seq<Byte>,
    hashChallenge: seq<Byte> -> ProofChallenge,
    genProof: (PoKOfSignature, ProofChallenge) -> LibResult<PoKOfSignatureProof>,
    // PoKOfSignatureProof: compressed form, try_from, get_bytes_for_challenge, verify
    proofBytes: PoKOfSignatureProof -> seq<Byte>,
    decodeProof: seq<Byte> -> LibResult<PoKOfSignatureProof>,
    challengeBytes: (PoKOfSignatureProof, set<nat>, PublicKey) -> seq<Byte>,
    verifyProof: (PoKOfSignatureProof, PublicKey, map<nat, SignatureMessage>, ProofChallenge)
                 -> LibResult<PoKOfSignatureProofStatus>,
    // SecretKey::from([u8; 32]), DeterministicPublicKey::from([u8; 96]), to_public_key,
    // PublicKey::validate and its compressed form
    secretKeyFromArray: FrBytes -> SecretKey,
    dpkFromArray: DpkBytes -> DeterministicPublicKey,
    toPublicKey: (DeterministicPublicKey, nat) -> LibResult<PublicKey>,
    validatePublicKey: PublicKey -> LibResult<()>,
    publicKeyBytes: PublicKey -> seq<Byte>
  )
}
