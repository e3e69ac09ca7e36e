/**
  `File` and its own implementations of `Seek` and `Write::flush`. The
  native file is a position and a size; `storage_file_seek` is modelled by
  `NativeTarget`, and `failures` scripts, per native seek call, the
  `FS_Error` code `storage_file_get_error` then reports.
 */
module Files {
  import opened Common
  import opened Errors
  import opened Seeking

  class File {
    var pos: nat
    var size: nat
    /** Every `storage_file_seek` call made, in order. */
    var nativeSeeks: seq<NativeSeek>
    const failures: map<nat, u32>
    const codes: FsCodes

    /** The firmware only reports codes `from_sys` knows. */
    ghost predicate Valid() {
      forall code :: code in failures.Values ==> Known(code, codes)
    }

    constructor (size: nat, failures: map<nat, u32>, codes: FsCodes)
      requires forall code :: code in failures.Values ==> Known(code, codes)
      ensures Valid()
      ensures this.pos == 0 && this.size == size && this.nativeSeeks == []
      ensures this.failures == failures && this.codes == codes
    {
      this.pos := 0;
      this.size := size;
      this.nativeSeeks := [];
      this.failures := failures;
      this.codes := codes;
    }

    /**
      `File::seek`: an offset that does not fit is refused before any native
      call; otherwise one native seek, reporting the new position or the
      handle's error. `End(n)` moves like `Current(n)`, from the current
      position (see `EndLandsOffTarget`).
     */
    method Seek(p: SeekFrom) returns (r: Result<nat>)
      requires Valid()
      modifies this
      ensures size == old(size)
      ensures NativeSeekArgs(p).Failure? ==>
                r == Failure(InvalidParameter) && nativeSeeks == old(nativeSeeks) && pos == old(pos)
      ensures NativeSeekArgs(p).Success? ==> nativeSeeks == old(nativeSeeks) + [NativeSeekArgs(p).value]
      ensures NativeSeekArgs(p).Success? && |old(nativeSeeks)| in failures ==>
                pos == old(pos) && r == Failure(FromSys(failures[|old(nativeSeeks)|], codes))
      ensures NativeSeekArgs(p).Success? && |old(nativeSeeks)| !in failures ==>
                pos == NativeTarget(NativeSeekArgs(p).value, old(pos)) && r == Success(pos)
      ensures r.Success? && !p.End? ==> pos == StdTarget(p, old(pos), size)
    {
      var args :- NativeSeekArgs(p);
      if !p.End? {
        StartAndCurrentLandOnStdTarget(p, pos, size);
      }
      var k := |nativeSeeks|;
      nativeSeeks := nativeSeeks + [args];
      if k in failures {
        assert failures[k] in failures.Values;
        r := Failure(FromSys(failures[k], codes));
      } else {
        pos := NativeTarget(args, pos);
        r := Success(pos);
      }
    }

    /**
      `File::seek` with `End` corrected: `End(n)` becomes the absolute
      offset `size + n`, so every accepted seek lands where
      `std::io::SeekFrom` says. Otherwise as `Seek`.
     */
    method SeekCorrected(p: SeekFrom) returns (r: Result<nat>)
      requires Valid()
      modifies this
      ensures size == old(size)
      ensures CorrectedSeekArgs(p, size).Failure? ==>
                r == Failure(InvalidParameter) && nativeSeeks == old(nativeSeeks) && pos == old(pos)
      ensures CorrectedSeekArgs(p, size).Success? ==> nativeSeeks == old(nativeSeeks) + [CorrectedSeekArgs(p, size).value]
      ensures CorrectedSeekArgs(p, size).Success? && |old(nativeSeeks)| in failures ==>
                pos == old(pos) && r == Failure(FromSys(failures[|old(nativeSeeks)|], codes))
      ensures CorrectedSeekArgs(p, size).Success? && |old(nativeSeeks)| !in failures ==>
                pos == StdTarget(p, old(pos), size) && r == Success(pos)
    {
      var args :- CorrectedSeekArgs(p, size);
      CorrectedSeekLandsOnStdTarget(p, pos, size);
      var k := |nativeSeeks|;
      nativeSeeks := nativeSeeks + [args];
      if k in failures {
        assert failures[k] in failures.Values;
        r := Failure(FromSys(failures[k], codes));
      } else {
        pos := NativeTarget(args, pos);
        r := Success(pos);
      }
    }

    /** `File::rewind`: one native seek to offset 0 from the start. */
    method Rewind() returns (r: Result<()>)
      requires Valid()
      modifies this
      ensures size == old(size)
      ensures nativeSeeks == old(nativeSeeks) + [NativeSeek(0, true)]
      ensures r.Success? <==> |old(nativeSeeks)| !in failures
      ensures r.Success? ==> pos == 0
      ensures r.Failure? ==> pos == old(pos) && ToSys(r.error, codes) == failures[|old(nativeSeeks)|]
    {
      var _ :- Seek(Start(0));
      r := Success(());
    }

    /** `File::stream_len`: the native size query, no seek. */
    method StreamLen() returns (r: Result<nat>)
      ensures r == Success(size)
    {
      r := Success(size);
    }

    /** `File::stream_position`: the native position query, no seek. */
    method StreamPosition() returns (r: Result<nat>)
      ensures r == Success(pos)
    {
      r := Success(pos);
    }

    /** `File::flush`: closing the file syncs it, so there is nothing to flush. */
    method Flush() returns (r: Result<()>)
      ensures r.Success?
    {
      r := Success(());
    }
  }
}
