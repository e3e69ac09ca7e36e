/**
  The default `Write::write_all` over an abstract `write`. The sink stands
  for the implementor: `replies` scripts what its successive `write` calls
  answer (accept at most `limit` bytes, or fail), and `chunks` records the
  prefix each successful call consumed, empty for an `Ok(0)`.
 */
module Writing {
  import opened Common
  import opened Errors

  datatype Reply = Accept(limit: nat) | Refuse(error: Error)

  /** The answer to call `k` on a buffer of `size` bytes; past the script everything is accepted. */
  function ReplyTo(replies: seq<Reply>, k: nat, size: nat): Reply {
    if k < |replies| then replies[k] else Accept(size)
  }

  /** Whether call `k` fails. */
  predicate Refuses(replies: seq<Reply>, k: int) {
    0 <= k < |replies| && replies[k].Refuse?
  }

  /** How many bytes a `write` accepting at most `limit` takes from a buffer of `size` bytes. */
  function Consumed(limit: nat, size: nat): (n: nat)
    ensures n <= size && n <= limit && (n == size || n == limit)
  {
    if limit < size then limit else size
  }

  /** The chunks joined in order. */
  function Flatten(chunks: seq<seq<u8>>): seq<u8> {
    if chunks == [] then [] else chunks[0] + Flatten(chunks[1..])
  }

  /** What a run of `write_all` does: the chunks consumed, the `write` calls made, the result. */
  datatype Run = Run(chunks: seq<seq<u8>>, calls: nat, result: Result<()>)

  /**
    The reference run of `write_all` on `rest` when the next `write` is call
    `k`: stop on an empty buffer, return the error of a refusal, drop the
    accepted prefix otherwise (nothing on `Ok(0)`) and go on. A script is
    finite and accepts everything past its end, so every run ends.
   */
  function Outcome(replies: seq<Reply>, k: nat, rest: seq<u8>): Run
    decreases |rest|, |replies| - k
  {
    if rest == [] then Run([], 0, Success(()))
    else
      match ReplyTo(replies, k, |rest|)
      case Refuse(e) => Run([], 1, Failure(e))
      case Accept(limit) =>
        var n := Consumed(limit, |rest|);
        var tail := Outcome(replies, k + 1, rest[n..]);
        Run([rest[..n]] + tail.chunks, tail.calls + 1, tail.result)
  }

  /** On success the consumed prefixes, in order, make up exactly the buffer. */
  lemma {:induction false} OutcomeSuccess(replies: seq<Reply>, k: nat, rest: seq<u8>)
    ensures Outcome(replies, k, rest).result.Success? ==> Flatten(Outcome(replies, k, rest).chunks) == rest
    decreases |rest|, |replies| - k
  {
    if rest != [] && ReplyTo(replies, k, |rest|).Accept? {
      var n := Consumed(ReplyTo(replies, k, |rest|).limit, |rest|);
      var tail := Outcome(replies, k + 1, rest[n..]);
      OutcomeSuccess(replies, k + 1, rest[n..]);
      assert ([rest[..n]] + tail.chunks)[1..] == tail.chunks;
      assert rest[..n] + rest[n..] == rest;
    }
  }

  /**
    On failure the last call made refused, and its error is the result;
    what was written before is a proper prefix of the buffer.
   */
  lemma {:induction false} OutcomeFailure(replies: seq<Reply>, k: nat, rest: seq<u8>)
    ensures var o := Outcome(replies, k, rest);
            o.result.Failure? ==>
              0 < o.calls && Refuses(replies, k + o.calls - 1) &&
              replies[k + o.calls - 1].error == o.result.error &&
              |Flatten(o.chunks)| < |rest| && Flatten(o.chunks) == rest[..|Flatten(o.chunks)|]
    decreases |rest|, |replies| - k
  {
    if rest != [] && ReplyTo(replies, k, |rest|).Accept? {
      var n := Consumed(ReplyTo(replies, k, |rest|).limit, |rest|);
      var tail := Outcome(replies, k + 1, rest[n..]);
      OutcomeFailure(replies, k + 1, rest[n..]);
      assert ([rest[..n]] + tail.chunks)[1..] == tail.chunks;
      if tail.result.Failure? {
        var d := Flatten(tail.chunks);
        assert rest[..n] + rest[n..][..|d|] == rest[..n + |d|];
      }
    }
  }

  /**
    Every call before the last one was accepted, and on success so was the
    last: the first refusal ends the run. A run makes no call exactly when
    the buffer is empty.
   */
  lemma {:induction false} OutcomeStopsAtFirstRefusal(replies: seq<Reply>, k: nat, rest: seq<u8>)
    ensures var o := Outcome(replies, k, rest);
            forall j :: k <= j < k + o.calls && (o.result.Success? || j < k + o.calls - 1) ==> !Refuses(replies, j)
    ensures Outcome(replies, k, rest).calls == 0 <==> rest == []
    decreases |rest|, |replies| - k
  {
    if rest != [] && ReplyTo(replies, k, |rest|).Accept? {
      var n := Consumed(ReplyTo(replies, k, |rest|).limit, |rest|);
      OutcomeStopsAtFirstRefusal(replies, k + 1, rest[n..]);
    }
  }

  /** A `write` that takes the whole buffer at once is the only call, and the run succeeds. */
  lemma OutcomeWholeAtOnce(replies: seq<Reply>, k: nat, rest: seq<u8>)
    requires rest != [] && ReplyTo(replies, k, |rest|).Accept? && ReplyTo(replies, k, |rest|).limit >= |rest|
    ensures Outcome(replies, k, rest) == Run([rest], 1, Success(()))
  {
    assert rest[|rest|..] == [];
    assert rest[..|rest|] == rest;
  }

  /** A `write` that takes two bytes, then one that fails: `write_all` fails after two bytes. */
  lemma OutcomeRefusalMidway()
    ensures Outcome([Accept(2), Refuse(Denied)], 0, [1, 2, 3, 4, 5]) == Run([[1, 2]], 2, Failure(Denied))
  {
    var buf: seq<u8> := [1, 2, 3, 4, 5];
    assert buf[..2] == [1, 2] && buf[2..] == [3, 4, 5];
  }

  /** The first step of a run whose next `write` fails. */
  lemma RefuseStep(replies: seq<Reply>, k: nat, rest: seq<u8>)
    requires rest != [] && ReplyTo(replies, k, |rest|).Refuse?
    ensures Outcome(replies, k, rest) == Run([], 1, Failure(ReplyTo(replies, k, |rest|).error))
  {
  }

  /** The first step of a run whose next `write` accepts. */
  lemma AcceptStep(replies: seq<Reply>, k: nat, rest: seq<u8>)
    requires rest != [] && ReplyTo(replies, k, |rest|).Accept?
    ensures var n := Consumed(ReplyTo(replies, k, |rest|).limit, |rest|);
            var tail := Outcome(replies, k + 1, rest[n..]);
            Outcome(replies, k, rest) == Run([rest[..n]] + tail.chunks, tail.calls + 1, tail.result)
  {
  }

  lemma AppendChunk(done: seq<seq<u8>>, c: seq<u8>, tail: seq<seq<u8>>)
    ensures done + ([c] + tail) == (done + [c]) + tail
  {
  }

  class Sink {
    var chunks: seq<seq<u8>>
    var calls: nat
    const replies: seq<Reply>

    constructor (replies: seq<Reply>)
      ensures this.chunks == [] && this.calls == 0 && this.replies == replies
    {
      this.chunks := [];
      this.calls := 0;
      this.replies := replies;
    }

    /** `Write::write`: consumes a prefix of at most `limit` bytes, or fails. */
    method Write(buf: seq<u8>) returns (r: Result<nat>)
      modifies this
      ensures calls == old(calls) + 1
      ensures match ReplyTo(replies, old(calls), |buf|)
              case Refuse(e) => r == Failure(e) && chunks == old(chunks)
              case Accept(limit) =>
                r == Success(Consumed(limit, |buf|)) && chunks == old(chunks) + [buf[..Consumed(limit, |buf|)]]
    {
      var reply := ReplyTo(replies, calls, |buf|);
      calls := calls + 1;
      match reply
      case Refuse(e) =>
        r := Failure(e);
      case Accept(limit) =>
        var n := Consumed(limit, |buf|);
        chunks := chunks + [buf[..n]];
        r := Success(n);
    }

    /**
      `Write::write_all`: writes the rest of the buffer until it is empty,
      retrying on `Ok(0)` and returning the first error. It makes exactly
      the calls, consumes exactly the chunks and returns exactly the result
      of the reference run `Outcome`.
     */
    method WriteAll(buf: seq<u8>) returns (r: Result<()>)
      modifies this
      ensures chunks == old(chunks) + Outcome(replies, old(calls), buf).chunks
      ensures calls == old(calls) + Outcome(replies, old(calls), buf).calls
      ensures r == Outcome(replies, old(calls), buf).result
    {
      var rest := buf;
      ghost var done: seq<seq<u8>> := [];
      ghost var whole := Outcome(replies, calls, buf);
      while rest != []
        invariant chunks == old(chunks) + done
        invariant old(calls) <= calls
        invariant whole.chunks == done + Outcome(replies, calls, rest).chunks
        invariant whole.calls == calls - old(calls) + Outcome(replies, calls, rest).calls
        invariant whole.result == Outcome(replies, calls, rest).result
        decreases |rest|, |replies| - calls
      {
        ghost var k := calls;
        var w := Write(rest);
        match w
        case Failure(e) =>
          RefuseStep(replies, k, rest);
          return Failure(e);
        case Success(n) =>
          AcceptStep(replies, k, rest);
          AppendChunk(done, rest[..n], Outcome(replies, k + 1, rest[n..]).chunks);
          done := done + [rest[..n]];
          if n == 0 {
            // The source's `Ok(0)` arm: nothing is consumed, and the loop calls `write` again.
            assert k < |replies| && rest[n..] == rest;
          } else {
            rest := rest[n..];
          }
      }
      r := Success(());
    }
  }
}
