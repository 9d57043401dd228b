/** The batching transmitter: encoded blocks are appended to an accumulator,
    and once more than 20 ms of wall-clock time have passed since the last
    flush the accumulator is flushed as one frame (when non-empty) and the
    timestamp is reset. The clock is a parameter, so a run of the batcher is
    a sequence of (block, now) ticks. */
module Batching {

  import opened Wrappers
  import AudioUtils

  type Sample = AudioUtils.int16

  /** The flush window, in milliseconds. */
  const RefreshRateMs: int := 20

  /** The accumulator and the time of the last flush. */
  datatype Batcher = Batcher(acc: seq<Sample>, lastFlush: int)

  /** One step: the new batcher, and the frame it hands to the sender. */
  datatype Step = Step(next: Batcher, frame: Option<seq<Sample>>)

  /** The flush condition: strictly more than the window has elapsed. */
  predicate WindowElapsed(b: Batcher, now: int)
  {
    now - b.lastFlush > RefreshRateMs
  }

  /** Steps 3 and 4 of processAudio: append the block, then flush if the
      window has elapsed. A flush empties the accumulator and restarts the
      window even when there was nothing to send. */
  function Accumulate(b: Batcher, block: seq<Sample>, now: int): (r: Step)
    // Nothing is lost, duplicated or reordered: what is sent, followed by
    // what is kept, is the old accumulator followed by the block.
    ensures (if r.frame.Some? then r.frame.value else []) + r.next.acc == b.acc + block
    // Empty frames are never sent, and nothing is kept after a send.
    ensures r.frame.Some? ==> r.frame.value != [] && r.next.acc == []
    // A frame goes out iff the window has elapsed and there is data.
    ensures r.frame.Some? <==> WindowElapsed(b, now) && b.acc + block != []
    // The timestamp only moves forward, and it moves iff the window elapsed,
    // to the current time.
    ensures b.lastFlush <= r.next.lastFlush
    ensures r.next.lastFlush != b.lastFlush <==> WindowElapsed(b, now)
    ensures r.next.lastFlush != b.lastFlush ==> r.next.lastFlush == now && r.next.acc == []
  {
    var data := b.acc + block;
    if WindowElapsed(b, now) then
      Step(Batcher([], now), if |data| > 0 then Some(data) else None)
    else
      Step(Batcher(data, b.lastFlush), None)
  }

  /** One call of processAudio that got as far as batching. */
  datatype Tick = Tick(block: seq<Sample>, now: int)

  /** A frame handed to the sender, with the time it was flushed. */
  datatype Frame = Frame(at: int, data: seq<Sample>)

  /** The batcher after a sequence of ticks, and the frames it flushed. */
  function Run(b: Batcher, ticks: seq<Tick>): (Batcher, seq<Frame>)
    decreases |ticks|
  {
    if ticks == [] then (b, [])
    else
      var (mid, frames) := Run(b, ticks[..|ticks| - 1]);
      var t := ticks[|ticks| - 1];
      var st := Accumulate(mid, t.block, t.now);
      (st.next, frames + if st.frame.Some? then [Frame(t.now, st.frame.value)] else [])
  }

  /** All samples of a sequence of frames, in order. */
  function FrameSamples(frames: seq<Frame>): seq<Sample>
  {
    if frames == [] then [] else FrameSamples(frames[..|frames| - 1]) + frames[|frames| - 1].data
  }

  /** All samples of a sequence of ticks, in order. */
  function TickSamples(ticks: seq<Tick>): seq<Sample>
  {
    if ticks == [] then [] else TickSamples(ticks[..|ticks| - 1]) + ticks[|ticks| - 1].block
  }

  /** The samples of one more frame follow those of the frames before it. */
  lemma FrameSamplesAppend(frames: seq<Frame>, f: Frame)
    ensures FrameSamples(frames + [f]) == FrameSamples(frames) + f.data
  {
    assert (frames + [f])[..|frames|] == frames;
  }

  /** Batching loses, duplicates and reorders nothing: the frames flushed,
      followed by what is still accumulated, are exactly what was
      accumulated at the start followed by every block, in order. */
  lemma {:induction false} RunPreservesOrder(b: Batcher, ticks: seq<Tick>)
    ensures FrameSamples(Run(b, ticks).1) + Run(b, ticks).0.acc == b.acc + TickSamples(ticks)
    decreases |ticks|
  {
    if ticks != [] {
      var init := ticks[..|ticks| - 1];
      var t := ticks[|ticks| - 1];
      RunPreservesOrder(b, init);
      var (mid, frames) := Run(b, init);
      var st := Accumulate(mid, t.block, t.now);
      var emitted := if st.frame.Some? then [Frame(t.now, st.frame.value)] else [];
      var sentPart := if st.frame.Some? then st.frame.value else [];
      assert Run(b, ticks) == (st.next, frames + emitted);
      assert TickSamples(ticks) == TickSamples(init) + t.block;
      if st.frame.Some? {
        FrameSamplesAppend(frames, Frame(t.now, st.frame.value));
      } else {
        assert frames + emitted == frames;
      }
      assert FrameSamples(frames + emitted) == FrameSamples(frames) + sentPart;
      Regroup(FrameSamples(frames), sentPart, st.next.acc, mid.acc, t.block);
      Assoc(b.acc, TickSamples(init), t.block);
    }
  }

  lemma Assoc<T>(a: seq<T>, b: seq<T>, c: seq<T>)
    ensures a + (b + c) == (a + b) + c
  {
  }

  /** Regrouping a concatenation: if s + n == m + k then a + s + n == (a + m) + k. */
  lemma Regroup<T>(a: seq<T>, s: seq<T>, n: seq<T>, m: seq<T>, k: seq<T>)
    requires s + n == m + k
    ensures a + s + n == (a + m) + k
  {
    assert a + s + n == a + (s + n);
  }

  /** No flushed frame is empty. */
  lemma {:induction false} RunFramesNonEmpty(b: Batcher, ticks: seq<Tick>)
    ensures forall k :: 0 <= k < |Run(b, ticks).1| ==> Run(b, ticks).1[k].data != []
    decreases |ticks|
  {
    if ticks != [] {
      RunFramesNonEmpty(b, ticks[..|ticks| - 1]);
    }
  }

  /** Flushes are spaced by more than the window, whatever the clock does:
      the first frame comes more than 20 ms after the initial timestamp,
      each later one more than 20 ms after the one before, and the last
      frame is never later than the batcher's timestamp. */
  lemma {:induction false} RunFramesSpaced(b: Batcher, ticks: seq<Tick>)
    ensures var (last, frames) := Run(b, ticks);
            && (forall k :: 0 <= k < |frames| ==> frames[k].at - b.lastFlush > RefreshRateMs)
            && (forall k :: 0 <= k < |frames| - 1 ==> frames[k + 1].at - frames[k].at > RefreshRateMs)
            && (frames != [] ==> frames[|frames| - 1].at <= last.lastFlush)
            && b.lastFlush <= last.lastFlush
    decreases |ticks|
  {
    if ticks != [] {
      RunFramesSpaced(b, ticks[..|ticks| - 1]);
    }
  }
}
