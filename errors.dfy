/** Machine integer widths used by the storage API of the device. */
module Common {
  const U32_MAX: int := 0xFFFF_FFFF

  /** `usize` on the device's 32-bit core. */
  const USIZE_MAX: int := U32_MAX

  newtype u32 = x: int | 0 <= x <= 0xFFFF_FFFF
  newtype u64 = x: int | 0 <= x <= 0xFFFF_FFFF_FFFF_FFFF
  newtype i64 = x: int | -0x8000_0000_0000_0000 <= x <= 0x7FFF_FFFF_FFFF_FFFF
  newtype usize = x: int | 0 <= x <= 0xFFFF_FFFF

  type u8 = bv8
}

/**
  The stream and file-system error type and its bijection with the
  firmware's `FS_Error` status codes. The ten native codes are not visible,
  so they are a parameter `FsCodes`; `Distinct` says they are ten different
  numbers.
 */
module Errors {
  import opened Common

  datatype Error =
    | Ok
    | NotReady
    | Exists
    | NotExists
    | InvalidParameter
    | Denied
    | InvalidName
    | Internal
    | NotImplemented
    | AlreadyOpen

  /** `Result<T, Error>`; the constructors are not named `Ok`/`Err` because `Error` has a variant `Ok`. */
  datatype Result<T> = Success(value: T) | Failure(error: Error) {
    predicate IsFailure() { Failure? }

    function PropagateFailure<U>(): Result<U>
      requires Failure?
    {
      Failure(error)
    }

    function Extract(): T
      requires Success?
    {
      value
    }
  }

  /** The firmware constants FSE_OK ... FSE_ALREADY_OPEN. */
  datatype FsCodes = FsCodes(
    ok: u32, notReady: u32, exist: u32, notExist: u32, invalidParameter: u32,
    denied: u32, invalidName: u32, internal: u32, notImplemented: u32, alreadyOpen: u32)

  /** The ten codes, in the order the variants are declared. */
  function Table(c: FsCodes): seq<u32> {
    [c.ok, c.notReady, c.exist, c.notExist, c.invalidParameter,
     c.denied, c.invalidName, c.internal, c.notImplemented, c.alreadyOpen]
  }

  /** The firmware gives the ten status values ten different codes. */
  predicate Distinct(c: FsCodes) {
    forall i, j :: 0 <= i < j < |Table(c)| ==> Table(c)[i] != Table(c)[j]
  }

  /** The codes `from_sys` recognises; on any other it aborts. */
  predicate Known(code: u32, c: FsCodes) {
    code in Table(c)
  }

  /** Position of a variant in the declaration order. */
  function Ordinal(e: Error): (i: nat)
    ensures i < 10
  {
    match e
    case Ok => 0
    case NotReady => 1
    case Exists => 2
    case NotExists => 3
    case InvalidParameter => 4
    case Denied => 5
    case InvalidName => 6
    case Internal => 7
    case NotImplemented => 8
    case AlreadyOpen => 9
  }

  /** `Error::to_sys`: total, and always lands on a code `from_sys` accepts. */
  function ToSys(e: Error, c: FsCodes): (code: u32)
    ensures Known(code, c)
    ensures code == Table(c)[Ordinal(e)]
  {
    match e
    case Ok => c.ok
    case NotReady => c.notReady
    case Exists => c.exist
    case NotExists => c.notExist
    case InvalidParameter => c.invalidParameter
    case Denied => c.denied
    case InvalidName => c.invalidName
    case Internal => c.internal
    case NotImplemented => c.notImplemented
    case AlreadyOpen => c.alreadyOpen
  }

  /**
    `Error::from_sys`: the arms are tried in the source's order. An unknown
    code reaches `unimplemented!()`, a panic, so the model demands a known
    code of its caller.
   */
  function FromSys(code: u32, c: FsCodes): (e: Error)
    requires Known(code, c)
    ensures ToSys(e, c) == code
  {
    if code == c.ok then Ok
    else if code == c.notReady then NotReady
    else if code == c.exist then Exists
    else if code == c.notExist then NotExists
    else if code == c.invalidParameter then InvalidParameter
    else if code == c.denied then Denied
    else if code == c.invalidName then InvalidName
    else if code == c.internal then Internal
    else if code == c.notImplemented then NotImplemented
    else if code == c.alreadyOpen then AlreadyOpen
    else assert false; Ok
  }

  /** With distinct firmware codes no two variants share a code. */
  lemma ToSysInjective(e1: Error, e2: Error, c: FsCodes)
    requires Distinct(c)
    ensures ToSys(e1, c) == ToSys(e2, c) <==> e1 == e2
  {
  }

  /** `from_sys(to_sys(e)) == e` for every variant. */
  lemma FromSysToSys(e: Error, c: FsCodes)
    requires Distinct(c)
    ensures FromSys(ToSys(e, c), c) == e
  {
  }

  /** `to_sys(from_sys(code)) == code` for every known code, and no other code has a variant. */
  lemma KnownIsImage(code: u32, c: FsCodes)
    ensures Known(code, c) <==> exists e :: ToSys(e, c) == code
    ensures Known(code, c) ==> ToSys(FromSys(code, c), c) == code
  {
    if Known(code, c) {
      var e := FromSys(code, c);
      assert ToSys(e, c) == code;
    }
  }
}
