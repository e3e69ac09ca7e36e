/**
  `SeekFrom`, the translation `File::seek` makes of it into the native
  (offset, from-start) pair, and the default methods of the `Seek` trait
  (`rewind`, `stream_position`, `stream_len`) over an abstract stream.
 */
module Seeking {
  import opened Common
  import opened Errors

  datatype SeekFrom = Start(start: u64) | End(fromEnd: i64) | Current(fromCurrent: i64)

  /** The number a `SeekFrom` carries. */
  function Offset(p: SeekFrom): int {
    match p
    case Start(n) => n as int
    case End(n) => n as int
    case Current(n) => n as int
  }

  /**
    Where a seek lands under the meaning `std::io::SeekFrom` gives its
    variants, which the `Seek` trait mirrors: from the start, from the end,
    from the current position.
   */
  function StdTarget(p: SeekFrom, pos: int, len: int): int {
    match p
    case Start(n) => n as int
    case End(n) => len + n as int
    case Current(n) => pos + n as int
  }

  /** The arguments of `storage_file_seek`: a `u32` offset and the from-start flag. */
  datatype NativeSeek = NativeSeek(offset: u32, fromStart: bool)

  /** Where `storage_file_seek` moves: to the offset, or forward from the current position. */
  function NativeTarget(a: NativeSeek, pos: nat): nat {
    if a.fromStart then a.offset as nat else pos + a.offset as nat
  }

  /**
    The translation at the head of `File::seek`: `Start` seeks from the
    start, `End` and `Current` both from the current position, and an offset
    that does not fit `u32` (every negative one included) is
    `InvalidParameter`.
   */
  function NativeSeekArgs(p: SeekFrom): (r: Result<NativeSeek>)
    ensures r.Success? <==> 0 <= Offset(p) <= U32_MAX
    ensures r.Success? ==> r.value.offset as int == Offset(p) && (r.value.fromStart <==> p.Start?)
    ensures r.Failure? ==> r.error == InvalidParameter
  {
    match p
    case Start(n) =>
      if n as int <= U32_MAX then Success(NativeSeek(n as int as u32, true)) else Failure(InvalidParameter)
    case End(n) =>
      if 0 <= n as int <= U32_MAX then Success(NativeSeek(n as int as u32, false)) else Failure(InvalidParameter)
    case Current(n) =>
      if 0 <= n as int <= U32_MAX then Success(NativeSeek(n as int as u32, false)) else Failure(InvalidParameter)
  }

  /** `End` and `Current` are translated alike, and neither can seek backwards. */
  lemma EndTranslatedAsCurrent(n: i64)
    ensures NativeSeekArgs(End(n)) == NativeSeekArgs(Current(n))
    ensures n < 0 ==> NativeSeekArgs(End(n)) == Failure(InvalidParameter)
  {
  }

  /** For `Start` and `Current` the native seek lands where `std::io::SeekFrom` says. */
  lemma StartAndCurrentLandOnStdTarget(p: SeekFrom, pos: nat, len: nat)
    requires !p.End? && NativeSeekArgs(p).Success?
    ensures NativeTarget(NativeSeekArgs(p).value, pos) == StdTarget(p, pos, len)
  {
  }

  /**
    As written, `End(n)` lands at `pos + n`, which is where `std::io::SeekFrom`
    puts it only when the position already is the end; `End(0)` at position
    0 of a 5-byte file stays at 0 instead of moving to 5.
   */
  lemma EndLandsOffTarget(n: i64, pos: nat, len: nat)
    requires NativeSeekArgs(End(n)).Success?
    ensures NativeTarget(NativeSeekArgs(End(n)).value, pos) == pos + n as int
    ensures NativeTarget(NativeSeekArgs(End(n)).value, pos) == StdTarget(End(n), pos, len) <==> pos == len
    ensures NativeTarget(NativeSeekArgs(End(0)).value, 0) == 0 != StdTarget(End(0), 0, 5)
  {
  }

  /**
    The translation with `End` corrected: with the file size at hand (the
    native size query), `End(n)` becomes the absolute offset `size + n`.
   */
  function CorrectedSeekArgs(p: SeekFrom, size: nat): (r: Result<NativeSeek>)
    ensures r.Success? <==> 0 <= (if p.End? then size + Offset(p) else Offset(p)) <= U32_MAX
    ensures r.Failure? ==> r.error == InvalidParameter
    ensures !p.End? ==> r == NativeSeekArgs(p)
  {
    match p
    case End(n) =>
      var t := size + n as int;
      if 0 <= t <= U32_MAX then Success(NativeSeek(t as u32, true)) else Failure(InvalidParameter)
    case _ => NativeSeekArgs(p)
  }

  /** Every seek the corrected translation accepts lands where `std::io::SeekFrom` says. */
  lemma CorrectedSeekLandsOnStdTarget(p: SeekFrom, pos: nat, size: nat)
    requires CorrectedSeekArgs(p, size).Success?
    ensures NativeTarget(CorrectedSeekArgs(p, size).value, pos) == StdTarget(p, pos, size)
  {
    if !p.End? {
      StartAndCurrentLandOnStdTarget(p, pos, size);
    }
  }

  /** The seeks the default `stream_len` issues when none fails. */
  function StreamLenSeeks(start: usize, len: usize): seq<SeekFrom> {
    [Current(0), End(0)] + if start != len then [Start(start as int as u64)] else []
  }

  /**
    A stream for the `Seek` trait's default methods. Its `Seek` stands for
    the implementor's `seek`: it follows `std::io::SeekFrom`, fails with the
    error `faults` scripts for the call of that index, and logs every call
    in `seeks`.
   */
  class SeekStream {
    var pos: usize
    var len: usize
    var seeks: seq<SeekFrom>
    const faults: map<nat, Error>

    constructor (len: usize, faults: map<nat, Error>)
      ensures this.pos == 0 && this.len == len && this.seeks == [] && this.faults == faults
    {
      this.pos := 0;
      this.len := len;
      this.seeks := [];
      this.faults := faults;
    }

    /** `Seek::seek`, the primitive the defaults are built on. */
    method Seek(p: SeekFrom) returns (r: Result<usize>)
      modifies this
      ensures len == old(len)
      ensures seeks == old(seeks) + [p]
      ensures r.Success? <==> |old(seeks)| !in faults && 0 <= StdTarget(p, old(pos) as int, len as int) <= USIZE_MAX
      ensures r.Success? ==> r.value as int == StdTarget(p, old(pos) as int, len as int) && pos == r.value
      ensures r.Failure? ==> pos == old(pos)
      ensures r.Failure? ==> r.error == if |old(seeks)| in faults then faults[|old(seeks)|] else InvalidParameter
    {
      var k := |seeks|;
      seeks := seeks + [p];
      var target := StdTarget(p, pos as int, len as int);
      if k in faults {
        r := Failure(faults[k]);
      } else if 0 <= target <= USIZE_MAX {
        pos := target as usize;
        r := Success(pos);
      } else {
        r := Failure(InvalidParameter);
      }
    }

    /** `Seek::rewind`: `seek(Start(0))` with the position dropped. */
    method Rewind() returns (r: Result<()>)
      modifies this
      ensures len == old(len)
      ensures seeks == old(seeks) + [Start(0)]
      ensures r.Success? <==> |old(seeks)| !in faults
      ensures r.Success? ==> pos == 0
      ensures r.Failure? ==> pos == old(pos) && r.error == faults[|old(seeks)|]
    {
      var _ :- Seek(Start(0));
      r := Success(());
    }

    /** `Seek::stream_position`: `seek(Current(0))`, which moves nothing. */
    method StreamPosition() returns (r: Result<usize>)
      modifies this
      ensures pos == old(pos) && len == old(len)
      ensures seeks == old(seeks) + [Current(0)]
      ensures r == if |old(seeks)| in faults then Failure(faults[|old(seeks)|]) else Success(pos)
    {
      r := Seek(Current(0));
    }

    /**
      `Seek::stream_len`: read the position, seek to the end, and seek back
      only when the position was not already the end. The first failing
      seek ends it; when the seek back fails the position stays at the end.
     */
    method StreamLen() returns (r: Result<usize>)
      modifies this
      ensures len == old(len)
      ensures |old(seeks)| < |seeks| <= |old(seeks)| + |StreamLenSeeks(old(pos), len)|
      ensures seeks == old(seeks) + StreamLenSeeks(old(pos), len)[..|seeks| - |old(seeks)|]
      ensures forall i :: |old(seeks)| <= i < |seeks| - 1 ==> i !in faults
      ensures r.Success? <==>
              |seeks| == |old(seeks)| + |StreamLenSeeks(old(pos), len)| && |seeks| - 1 !in faults
      ensures r.Success? ==> r.value == len && pos == old(pos)
      ensures r.Failure? ==> |seeks| - 1 in faults && r.error == faults[|seeks| - 1]
      ensures r.Failure? ==> pos == if |seeks| == |old(seeks)| + 3 then len else old(pos)
    {
      var oldPos :- StreamPosition();
      var end :- Seek(End(0));
      if oldPos != end {
        // `usize` is narrower than `u64`, so the source's `try_into` here cannot fail.
        var _ :- Seek(Start(oldPos as int as u64));
      }
      r := Success(end);
    }
  }
}
