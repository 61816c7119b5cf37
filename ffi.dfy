/** The C-boundary types of the library: the `ByteArray` view of caller memory, the
    numeric enums exchanged with callers, and the error value every entry point fills in. */
module Ffi {
  import opened Prelude
  import Crypto

  // ---------------------------------------------------------------------------
  // ByteArray

  /** A `ByteArray` as received from C: a length and a data pointer. `data` is `None` for a
      null pointer and otherwise holds the bytes readable from the pointer onwards. */
  datatype ByteArray = ByteArray(length: nat, data: Option<seq<Byte>>)

  /** What the unsafe `slice::from_raw_parts` demands of the caller: a non-null pointer
      can be read for `length` bytes. */
  predicate Readable(a: ByteArray) {
    a.data.Some? ==> a.length <= |a.data.value|
  }

  /** `ByteArray::to_vec`: a null pointer or a zero length both read as the empty vector;
      otherwise a copy of the first `length` bytes. */
  function ToVec(a: ByteArray): (v: seq<Byte>)
    requires Readable(a)
    ensures |v| == (if a.data.None? then 0 else a.length)
    ensures a.data.Some? ==> v <= a.data.value
  {
    if a.data.None? || a.length == 0 then [] else a.data.value[..a.length]
  }

  /** `ByteArray::to_opt_vec`: unlike `to_vec` it tells a null pointer (`None`) from a
      non-null empty buffer (`Some([])`). */
  function ToOptVec(a: ByteArray): (v: Option<seq<Byte>>)
    requires Readable(a)
    ensures v.None? <==> a.data.None?
    ensures v.Some? ==> |v.value| == a.length && v.value <= a.data.value
  {
    if a.data.None? then None
    else if a.length == 0 then Some([])
    else Some(a.data.value[..a.length])
  }

  /** `ByteArray::from_slice`: the length is the slice's length and the pointer is non-null
      (Rust slices never have a null data pointer, even when empty). */
  function FromSlice(d: seq<Byte>): (a: ByteArray)
    ensures Readable(a) && a.length == |d|
  {
    ByteArray(|d|, Some(d))
  }

  /** `to_vec` and `to_opt_vec` agree except that `to_vec` flattens null to empty. */
  lemma ToVecFlattensToOptVec(a: ByteArray)
    requires Readable(a)
    ensures ToVec(a) == (match ToOptVec(a) case None => [] case Some(v) => v)
  {
  }

  /** Wrapping a slice and reading it back gives the slice again, through either reader. */
  lemma FromSliceRoundTrip(d: seq<Byte>)
    ensures ToVec(FromSlice(d)) == d
    ensures ToOptVec(FromSlice(d)) == Some(d)
  {
  }

  /** The only difference between the two readers: a null pointer and a non-null empty
      buffer are the same to `to_vec` and different to `to_opt_vec`. */
  lemma NullAndEmptyDiffer()
    ensures ToVec(ByteArray(0, None)) == ToVec(ByteArray(0, Some([])))
    ensures ToOptVec(ByteArray(0, None)) != ToOptVec(ByteArray(0, Some([])))
  {
  }

  // ---------------------------------------------------------------------------
  // Numeric enums

  /** `ProofMessageType`, passed by value from C. */
  datatype ProofMessageType = Revealed | HiddenProofSpecificBlinding | HiddenExternalBlinding
  {
    /** The `#[repr(C)]` discriminant. */
    function Code(): (c: int)
      ensures 1 <= c <= 3
    {
      match this
      case Revealed => 1
      case HiddenProofSpecificBlinding => 2
      case HiddenExternalBlinding => 3
    }
  }

  /** Distinct proof-message types have distinct codes. */
  lemma ProofMessageTypeCodeInjective(s: ProofMessageType, t: ProofMessageType)
    ensures s.Code() == t.Code() ==> s == t
  {
  }

  /** `SignatureProofStatus`, returned to C as an `i32`. */
  datatype SignatureProofStatus = Success | BadSignature | BadHiddenMessage | BadRevealedMessage
  {
    function Code(): (c: int)
      ensures c == 200 <==> this == Success
      ensures c in {200, 400, 401, 402}
    {
      match this
      case Success => 200
      case BadSignature => 400
      case BadHiddenMessage => 401
      case BadRevealedMessage => 402
    }
  }

  /** `impl From<PoKOfSignatureProofStatus> for SignatureProofStatus`: each library verdict
      becomes the status of the same name. */
  function FromPoKStatus(s: Crypto.PoKOfSignatureProofStatus): (r: SignatureProofStatus)
    ensures r.Success? <==> s.Success?
    ensures r.BadSignature? <==> s.BadSignature?
    ensures r.BadHiddenMessage? <==> s.BadHiddenMessage?
    ensures r.BadRevealedMessage? <==> s.BadRevealedMessage?
  {
    match s
    case Success => Success
    case BadSignature => BadSignature
    case BadHiddenMessage => BadHiddenMessage
    case BadRevealedMessage => BadRevealedMessage
  }

  /** The mapping is one-to-one: composed with `Code`, no two library verdicts share a code. */
  lemma {:induction false} FromPoKStatusInjective(s: Crypto.PoKOfSignatureProofStatus, t: Crypto.PoKOfSignatureProofStatus)
    ensures FromPoKStatus(s).Code() == FromPoKStatus(t).Code() ==> s == t
  {
    SignatureProofStatusCodeInjective(FromPoKStatus(s), FromPoKStatus(t));
  }

  /** Distinct statuses have distinct codes, so a caller can tell every outcome apart. */
  lemma SignatureProofStatusCodeInjective(s: SignatureProofStatus, t: SignatureProofStatus)
    ensures s.Code() == t.Code() ==> s == t
  {
  }

  // ---------------------------------------------------------------------------
  // Errors

  /** `ExternError`: the error code and message written into the caller's `err`. */
  datatype ExternError = ExternError(code: int, message: string)

  const SUCCESS_CODE: int := 0

  /** The error code ffi-support reserves for an unknown, stale or removed handle. The
      value belongs to ffi-support, which is not part of this model; what matters is that it
      differs from success and from the code 1 used for library errors. */
  const INVALID_HANDLE_CODE: int := -1000

  /** The error code ffi-support reports for a panic it caught (for example a slice index
      out of bounds); outside this model like the one above. */
  const PANIC_CODE: int := -1

  /** `ExternError::success()`. */
  function ExternSuccess(): (e: ExternError)
    ensures e.code == SUCCESS_CODE
  {
    ExternError(SUCCESS_CODE, "")
  }

  function InvalidHandle(): (e: ExternError)
    ensures e.code != SUCCESS_CODE && e.code != 1
  {
    ExternError(INVALID_HANDLE_CODE, "Invalid handle")
  }

  function Panic(what: string): (e: ExternError)
    ensures e.code != SUCCESS_CODE && e.code != 1
  {
    ExternError(PANIC_CODE, what)
  }

  /** `BbsFfiError`: a message-only error. Library errors (`BBSError`, `PoKVCError`) become
      one through their debug text. */
  datatype BbsFfiError = BbsFfiError(message: string)

  /** `impl From<BbsFfiError> for ExternError`: always code 1, the message kept verbatim. */
  function ToExternError(e: BbsFfiError): (x: ExternError)
    ensures x.code == 1 && x.code != SUCCESS_CODE
    ensures x.message == e.message
  {
    ExternError(1, e.message)
  }

  /** The conversion loses nothing: different messages stay different errors. */
  lemma ToExternErrorInjective(e: BbsFfiError, f: BbsFfiError)
    ensures ToExternError(e) == ToExternError(f) ==> e == f
  {
  }

  /** The error of one of the context messages (`"Nonce must be set"`, ...). */
  function Error(message: string): ExternError {
    ToExternError(BbsFfiError(message))
  }

  /** The `Result<T, ExternError>` a closure run by the handle map produces. */
  datatype Outcome<T> = Ok(value: T) | Fail(error: ExternError)

  /** `?` on a library result inside a closure: `impl From<BBSError> for BbsFfiError` keeps
      the error's debug text, and the closure's error then becomes an `ExternError`. */
  function FromLib<T>(r: Crypto.LibResult<T>): (o: Outcome<T>)
    ensures o.Ok? <==> r.Done?
    ensures o.Ok? ==> o.value == r.value
    ensures o.Fail? ==> o.error == ToExternError(BbsFfiError(r.debug))
  {
    match r
    case Done(v) => Ok(v)
    case LibError(d) => Fail(Error(d))
  }

  /** A `ByteBuffer` out-parameter (`&mut ByteBuffer`) that a call may overwrite. */
  class ByteBuffer {
    var data: seq<Byte>

    constructor (initial: seq<Byte>)
      ensures data == initial
    {
      data := initial;
    }
  }
}
