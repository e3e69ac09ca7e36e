/**
  `OpenOptions`: an immutable builder of two `u8` bit fields, the access
  mode (read, write) and the open mode (open-existing, open-always,
  open-append, create-new, create-always). The native masks are not
  visible, so they are a parameter `ModeBits`.
 */
module Options {
  import opened Common
  import opened Errors

  datatype OpenOptions = OpenOptions(accessMode: u8, openMode: u8)

  /** The firmware constants FSAM_READ, FSAM_WRITE and FSOM_*. */
  datatype ModeBits = ModeBits(
    read: u8, write: u8,
    openExisting: u8, openAlways: u8, openAppend: u8, createNew: u8, createAlways: u8)

  predicate SingleBit(m: u8) {
    m != 0 && m & (m - 1) == 0
  }

  /** Every mask is one bit, and masks of the same field are different bits. */
  predicate ValidBits(b: ModeBits) {
    (forall f :: SingleBit(Mask(f, b))) &&
    (forall f: Flag, g: Flag :: f != g && f.IsAccess() == g.IsAccess() ==> Mask(f, b) != Mask(g, b))
  }

  /** `OpenOptions::new()`, the derived `Default`. */
  function New(): (o: OpenOptions)
    ensures forall f, b :: !Has(o, f, b)
  {
    OpenOptions(0, 0)
  }

  /** `field` is `before` with the `mask` bits set when `on` and cleared otherwise. */
  predicate Decides(field: u8, before: u8, mask: u8, on: bool) {
    field & mask == (if on then mask else 0) && field & !mask == before & !mask
  }

  /** `field | mask` when `on`, `field & !mask` otherwise. */
  function SetBit(field: u8, mask: u8, on: bool): u8 {
    if on then field | mask else field & !mask
  }

  /** `OpenOptions::read`. */
  function Read(o: OpenOptions, on: bool, b: ModeBits): (r: OpenOptions)
    ensures Decides(r.accessMode, o.accessMode, b.read, on)
    ensures r.openMode == o.openMode
  {
    SetBitSpec(o.accessMode, b.read, on);
    OpenOptions(SetBit(o.accessMode, b.read, on), o.openMode)
  }

  /** `OpenOptions::write`. */
  function Write(o: OpenOptions, on: bool, b: ModeBits): (r: OpenOptions)
    ensures Decides(r.accessMode, o.accessMode, b.write, on)
    ensures r.openMode == o.openMode
  {
    SetBitSpec(o.accessMode, b.write, on);
    OpenOptions(SetBit(o.accessMode, b.write, on), o.openMode)
  }

  /** `OpenOptions::open_existing`. */
  function OpenExisting(o: OpenOptions, on: bool, b: ModeBits): (r: OpenOptions)
    ensures Decides(r.openMode, o.openMode, b.openExisting, on)
    ensures r.accessMode == o.accessMode
  {
    SetBitSpec(o.openMode, b.openExisting, on);
    OpenOptions(o.accessMode, SetBit(o.openMode, b.openExisting, on))
  }

  /** `OpenOptions::open_always`. */
  function OpenAlways(o: OpenOptions, on: bool, b: ModeBits): (r: OpenOptions)
    ensures Decides(r.openMode, o.openMode, b.openAlways, on)
    ensures r.accessMode == o.accessMode
  {
    SetBitSpec(o.openMode, b.openAlways, on);
    OpenOptions(o.accessMode, SetBit(o.openMode, b.openAlways, on))
  }

  /** `OpenOptions::open_append`. */
  function OpenAppend(o: OpenOptions, on: bool, b: ModeBits): (r: OpenOptions)
    ensures Decides(r.openMode, o.openMode, b.openAppend, on)
    ensures r.accessMode == o.accessMode
  {
    SetBitSpec(o.openMode, b.openAppend, on);
    OpenOptions(o.accessMode, SetBit(o.openMode, b.openAppend, on))
  }

  /** `OpenOptions::create_new`. */
  function CreateNew(o: OpenOptions, on: bool, b: ModeBits): (r: OpenOptions)
    ensures Decides(r.openMode, o.openMode, b.createNew, on)
    ensures r.accessMode == o.accessMode
  {
    SetBitSpec(o.openMode, b.createNew, on);
    OpenOptions(o.accessMode, SetBit(o.openMode, b.createNew, on))
  }

  /** `OpenOptions::create_always`. */
  function CreateAlways(o: OpenOptions, on: bool, b: ModeBits): (r: OpenOptions)
    ensures Decides(r.openMode, o.openMode, b.createAlways, on)
    ensures r.accessMode == o.accessMode
  {
    SetBitSpec(o.openMode, b.createAlways, on);
    OpenOptions(o.accessMode, SetBit(o.openMode, b.createAlways, on))
  }

  /** Names the seven flags, so that properties of all setters can be stated once. */
  datatype Flag =
    | AccessRead | AccessWrite
    | ModeOpenExisting | ModeOpenAlways | ModeOpenAppend | ModeCreateNew | ModeCreateAlways
  {
    predicate IsAccess() { AccessRead? || AccessWrite? }
  }

  function Mask(f: Flag, b: ModeBits): u8 {
    match f
    case AccessRead => b.read
    case AccessWrite => b.write
    case ModeOpenExisting => b.openExisting
    case ModeOpenAlways => b.openAlways
    case ModeOpenAppend => b.openAppend
    case ModeCreateNew => b.createNew
    case ModeCreateAlways => b.createAlways
  }

  /** The field a flag lives in. */
  function Field(o: OpenOptions, f: Flag): u8 {
    if f.IsAccess() then o.accessMode else o.openMode
  }

  /** Whether the flag's bit is set. */
  predicate Has(o: OpenOptions, f: Flag, b: ModeBits) {
    Field(o, f) & Mask(f, b) != 0
  }

  /** The setter for a flag. */
  function Set(o: OpenOptions, f: Flag, on: bool, b: ModeBits): OpenOptions {
    match f
    case AccessRead => Read(o, on, b)
    case AccessWrite => Write(o, on, b)
    case ModeOpenExisting => OpenExisting(o, on, b)
    case ModeOpenAlways => OpenAlways(o, on, b)
    case ModeOpenAppend => OpenAppend(o, on, b)
    case ModeCreateNew => CreateNew(o, on, b)
    case ModeCreateAlways => CreateAlways(o, on, b)
  }

  /** `o` with the field that `f` lives in replaced by `v`. */
  function With(o: OpenOptions, f: Flag, v: u8): OpenOptions {
    if f.IsAccess() then o.(accessMode := v) else o.(openMode := v)
  }

  /** Every setter rewrites its own field with `SetBit` and keeps the other one. */
  lemma SetIsWith(o: OpenOptions, f: Flag, on: bool, b: ModeBits)
    ensures Set(o, f, on, b) == With(o, f, SetBit(Field(o, f), Mask(f, b), on))
  {
  }

  /** Distinct single bits do not overlap. */
  lemma SingleBitsDisjoint(m: u8, n: u8)
    requires SingleBit(m) && SingleBit(n) && m != n
    ensures m & n == 0
  {
  }

  /** Two different flags of the same field have non-overlapping masks. */
  lemma MasksDisjoint(f: Flag, g: Flag, b: ModeBits)
    requires ValidBits(b) && f != g && f.IsAccess() == g.IsAccess()
    ensures Mask(f, b) & Mask(g, b) == 0
  {
    SingleBitsDisjoint(Mask(f, b), Mask(g, b));
  }

  // Facts about `SetBit`, first for each literal value of the flag, where
  // they are plain bit-vector identities, then for any flag by cases.

  lemma SetBitOn(x: u8, m: u8, n: u8)
    ensures SetBit(x, m, true) & m == m
    ensures SetBit(x, m, true) & !m == x & !m
    ensures m & n == 0 ==> SetBit(x, m, true) & n == x & n
  {
  }

  lemma SetBitOff(x: u8, m: u8, n: u8)
    ensures SetBit(x, m, false) & m == 0
    ensures SetBit(x, m, false) & !m == x & !m
    ensures m & n == 0 ==> SetBit(x, m, false) & n == x & n
  {
  }

  lemma SetBitSpec(x: u8, m: u8, on: bool)
    ensures Decides(SetBit(x, m, on), x, m, on)
  {
    if on { SetBitOn(x, m, 0); } else { SetBitOff(x, m, 0); }
  }

  lemma SetBitDecides(x: u8, m: u8, on: bool)
    requires m != 0
    ensures (SetBit(x, m, on) & m != 0) == on
  {
    if on { SetBitOn(x, m, 0); } else { SetBitOff(x, m, 0); }
  }

  lemma SetBitKeepsDisjoint(x: u8, m: u8, n: u8, on: bool)
    requires m & n == 0
    ensures SetBit(x, m, on) & n == x & n
  {
    if on { SetBitOn(x, m, n); } else { SetBitOff(x, m, n); }
  }

  lemma SetAfterAny(x: u8, m: u8)
    ensures SetBit(SetBit(x, m, true), m, true) == SetBit(x, m, true)
    ensures SetBit(SetBit(x, m, false), m, true) == SetBit(x, m, true)
  {
  }

  lemma ClearAfterAny(x: u8, m: u8)
    ensures SetBit(SetBit(x, m, true), m, false) == SetBit(x, m, false)
    ensures SetBit(SetBit(x, m, false), m, false) == SetBit(x, m, false)
  {
  }

  lemma SetBitLast(x: u8, m: u8, s1: bool, s2: bool)
    ensures SetBit(SetBit(x, m, s1), m, s2) == SetBit(x, m, s2)
  {
    if s2 { SetAfterAny(x, m); } else { ClearAfterAny(x, m); }
  }

  lemma SetSet(x: u8, m: u8, n: u8)
    ensures SetBit(SetBit(x, m, true), n, true) == SetBit(SetBit(x, n, true), m, true)
  {
  }

  lemma SetClear(x: u8, m: u8, n: u8)
    requires m & n == 0
    ensures SetBit(SetBit(x, m, true), n, false) == SetBit(SetBit(x, n, false), m, true)
  {
  }

  lemma ClearClear(x: u8, m: u8, n: u8)
    ensures SetBit(SetBit(x, m, false), n, false) == SetBit(SetBit(x, n, false), m, false)
  {
  }

  lemma SetBitsCommute(x: u8, m: u8, n: u8, s: bool, t: bool)
    requires m & n == 0
    ensures SetBit(SetBit(x, m, s), n, t) == SetBit(SetBit(x, n, t), m, s)
  {
    if s && t { SetSet(x, m, n); }
    else if s { SetClear(x, m, n); }
    else if t { SetClear(x, n, m); }
    else { ClearClear(x, m, n); }
  }

  lemma SetBitWithin(x: u8, m: u8, u: u8, on: bool)
    requires x & !u == 0 && m & !u == 0
    ensures SetBit(x, m, on) & !u == 0
  {
    if on { SetWithin(x, m, u); } else { ClearWithin(x, m, u); }
  }

  lemma SetWithin(x: u8, m: u8, u: u8)
    requires x & !u == 0 && m & !u == 0
    ensures SetBit(x, m, true) & !u == 0
  {
  }

  lemma ClearWithin(x: u8, m: u8, u: u8)
    requires x & !u == 0
    ensures SetBit(x, m, false) & !u == 0
  {
  }

  /** A setter decides its own flag. */
  lemma SetDecidesFlag(o: OpenOptions, f: Flag, on: bool, b: ModeBits)
    requires ValidBits(b)
    ensures Has(Set(o, f, on, b), f, b) == on
  {
    SetIsWith(o, f, on, b);
    SetBitDecides(Field(o, f), Mask(f, b), on);
  }

  /** A setter leaves every other flag as it was. */
  lemma SetKeepsOtherFlags(o: OpenOptions, f: Flag, g: Flag, on: bool, b: ModeBits)
    requires ValidBits(b) && f != g
    ensures Has(Set(o, f, on, b), g, b) == Has(o, g, b)
  {
    if f.IsAccess() == g.IsAccess() {
      MasksDisjoint(f, g, b);
      DisjointSetKeeps(o, f, g, on, b);
    } else {
      SetIsWith(o, f, on, b);
    }
  }

  lemma DisjointSetKeeps(o: OpenOptions, f: Flag, g: Flag, on: bool, b: ModeBits)
    requires Mask(f, b) & Mask(g, b) == 0
    ensures Field(Set(o, f, on, b), g) & Mask(g, b) == Field(o, g) & Mask(g, b)
  {
    SetIsWith(o, f, on, b);
    SetBitKeepsDisjoint(Field(o, g), Mask(f, b), Mask(g, b), on);
  }

  /** A setter leaves the other field as it was. */
  lemma SetKeepsOtherField(o: OpenOptions, f: Flag, on: bool, b: ModeBits)
    ensures f.IsAccess() ==> Set(o, f, on, b).openMode == o.openMode
    ensures !f.IsAccess() ==> Set(o, f, on, b).accessMode == o.accessMode
  {
    SetIsWith(o, f, on, b);
  }

  /**
    The last call for a flag decides it whatever came before; with equal
    arguments this is idempotence.
   */
  lemma LastSetWins(o: OpenOptions, f: Flag, s1: bool, s2: bool, b: ModeBits)
    ensures Set(Set(o, f, s1, b), f, s2, b) == Set(o, f, s2, b)
  {
    var x := Set(o, f, s1, b);
    SetIsWith(o, f, s1, b);
    SetIsWith(x, f, s2, b);
    SetIsWith(o, f, s2, b);
    SetBitLast(Field(o, f), Mask(f, b), s1, s2);
  }


  /** Setters of different flags commute. */
  lemma SettersCommute(o: OpenOptions, f: Flag, g: Flag, s: bool, t: bool, b: ModeBits)
    requires ValidBits(b) && f != g
    ensures Set(Set(o, f, s, b), g, t, b) == Set(Set(o, g, t, b), f, s, b)
  {
    SetIsWith(o, f, s, b);
    SetIsWith(o, g, t, b);
    SetIsWith(Set(o, f, s, b), g, t, b);
    SetIsWith(Set(o, g, t, b), f, s, b);
    if f.IsAccess() == g.IsAccess() {
      MasksDisjoint(f, g, b);
      SetBitsCommute(Field(o, f), Mask(f, b), Mask(g, b), s, t);
    }
  }


  /** One call in a chain of setters, `.read(true)` say. */
  datatype Setting = Setting(flag: Flag, on: bool)

  /** The builder chain `o.s1(..).s2(..)...`. */
  function ApplyAll(o: OpenOptions, chain: seq<Setting>, b: ModeBits): OpenOptions {
    if chain == [] then o
    else
      var last := chain[|chain| - 1];
      Set(ApplyAll(o, chain[..|chain| - 1], b), last.flag, last.on, b)
  }

  datatype Option<T> = None | Some(value: T)

  /** The argument of the last setting for `f` in the chain, if any. */
  function LastSetting(chain: seq<Setting>, f: Flag): Option<bool> {
    if chain == [] then None
    else if chain[|chain| - 1].flag == f then Some(chain[|chain| - 1].on)
    else LastSetting(chain[..|chain| - 1], f)
  }

  /** In a chain of setters, each flag is decided by its last setter; an unset flag keeps its value. */
  lemma {:induction false} ChainLastWins(o: OpenOptions, chain: seq<Setting>, f: Flag, b: ModeBits)
    requires ValidBits(b)
    ensures Has(ApplyAll(o, chain, b), f, b) ==
            match LastSetting(chain, f)
            case Some(on) => on
            case None => Has(o, f, b)
  {
    if chain != [] {
      var init, last := chain[..|chain| - 1], chain[|chain| - 1];
      if last.flag == f {
        SetDecidesFlag(ApplyAll(o, init, b), f, last.on, b);
      } else {
        ChainLastWins(o, init, f, b);
        SetKeepsOtherFlags(ApplyAll(o, init, b), last.flag, f, last.on, b);
      }
    }
  }

  /** The bits of all masks of the field a flag lives in. */
  function FieldMasks(f: Flag, b: ModeBits): u8 {
    if f.IsAccess() then b.read | b.write
    else b.openExisting | b.openAlways | b.openAppend | b.createNew | b.createAlways
  }

  lemma MaskWithinField(f: Flag, b: ModeBits)
    ensures Mask(f, b) & !FieldMasks(f, b) == 0
  {
  }

  /** Every bit outside the masks stays clear in a chain started from `new()`. */
  lemma {:induction false} ChainFromNewHasNoStrayBits(chain: seq<Setting>, f: Flag, b: ModeBits)
    ensures Field(ApplyAll(New(), chain, b), f) & !FieldMasks(f, b) == 0
  {
    if chain != [] {
      var init, last := chain[..|chain| - 1], chain[|chain| - 1];
      ChainFromNewHasNoStrayBits(init, f, b);
      SetStaysWithin(ApplyAll(New(), init, b), last.flag, f, last.on, b);
    }
  }

  lemma SetStaysWithin(x: OpenOptions, g: Flag, f: Flag, on: bool, b: ModeBits)
    requires Field(x, f) & !FieldMasks(f, b) == 0
    ensures Field(Set(x, g, on, b), f) & !FieldMasks(f, b) == 0
  {
    SetIsWith(x, g, on, b);
    if g.IsAccess() == f.IsAccess() {
      MaskWithinField(g, b);
      assert FieldMasks(g, b) == FieldMasks(f, b);
      SetBitWithin(Field(x, f), Mask(g, b), FieldMasks(f, b), on);
    }
  }

  /** A chain started from `new()` sets exactly the flags whose last setter passed `true`. */
  lemma ChainFromNew(chain: seq<Setting>, f: Flag, b: ModeBits)
    requires ValidBits(b)
    ensures Has(ApplyAll(New(), chain, b), f, b) <==> LastSetting(chain, f) == Some(true)
  {
    ChainLastWins(New(), chain, f, b);
  }

  /**
    The result of `OpenOptions::open` given the native open's verdict and,
    when it fails, the code `storage_file_get_error` reports on the handle.
   */
  function OpenResult(succeeded: bool, lastError: u32, c: FsCodes): (r: Result<()>)
    requires succeeded || Known(lastError, c)
    ensures r.Success? <==> succeeded
    ensures r.Failure? ==> ToSys(r.error, c) == lastError
  {
    if succeeded then Success(()) else Failure(FromSys(lastError, c))
  }
}
