/**
 * The frame pollers: `create_streamed_frame_poller` over a readable stream whose state is held
 * abstractly (whether it is readable, and the chunks it has buffered in object mode), and
 * `create_length_tracking_poller`, which counts the milliseconds of audio polled through it.
 */
module Poller {
  import opened Bytes
  import opened Errors

  /** The milliseconds of audio in one polled frame. */
  const FrameMillis: nat := 20

  /** What the streamed `poll` returns for a stream in this state: `null`, or the next buffered chunk. */
  function StreamPoll(readable: bool, buffered: seq<seq<byte>>): (r: Option<seq<byte>>)
    ensures r.None? <==> !readable || |buffered| == 0
    ensures r.Some? ==> r.value == buffered[0]
  {
    if !readable || |buffered| == 0 then None else Some(buffered[0])
  }

  /** `create_streamed_frame_poller(readable)`, with the stream's `readable` flag and buffer as fields. */
  class StreamedFramePoller {
    /** The closure's `reading` flag: set by `poll`, cleared on `close`, and read by nobody. */
    var reading: bool
    var readable: bool
    var buffered: seq<seq<byte>>

    constructor (readable: bool, buffered: seq<seq<byte>>)
      ensures !reading && this.readable == readable && this.buffered == buffered
    {
      reading := false;
      this.readable := readable;
      this.buffered := buffered;
    }

    /**
     * `poll()`: sets `reading`, and returns `null` when the stream is not readable or holds nothing;
     * otherwise `readable.read()` takes the next chunk. What it returns does not depend on `reading`.
     */
    method Poll() returns (r: Option<seq<byte>>)
      modifies this
      ensures reading && readable == old(readable)
      ensures r == StreamPoll(old(readable), old(buffered))
      ensures buffered == if r.Some? then old(buffered)[1..] else old(buffered)
    {
      if !reading {
        reading := true;
      }
      if !readable || |buffered| == 0 {
        return None;
      }
      r := Some(buffered[0]);
      buffered := buffered[1..];
    }

    /** The stream's `close` event. */
    method OnClose()
      modifies this
      ensures !reading && readable == old(readable) && buffered == old(buffered)
    {
      reading := false;
    }

    /** `destroy()`: `readable.destroy()` leaves the stream no longer readable. */
    method Destroy()
      modifies this
      ensures !readable && reading == old(reading) && buffered == old(buffered)
    {
      readable := false;
    }
  }

  /** `create_length_tracking_poller(poller)` over the streamed poller, as `create_frame_sender` builds it. */
  class LengthTrackingPoller {
    const inner: StreamedFramePoller
    var position: nat
    /** The frames `poll` has returned so far. */
    ghost var polled: seq<seq<byte>>

    /** `position` is 20 ms per frame returned so far. */
    ghost predicate Valid()
      reads this
    {
      position == FrameMillis * |polled|
    }

    constructor (inner: StreamedFramePoller)
      ensures this.inner == inner && position == 0 && polled == []
      ensures Valid()
    {
      this.inner := inner;
      position := 0;
      polled := [];
    }

    /** `poll()`: the inner poller's frame, unchanged; a frame adds 20 to `position`, `null` adds nothing. */
    method Poll() returns (frame: Option<seq<byte>>)
      requires Valid()
      modifies this, inner
      ensures Valid()
      ensures frame == StreamPoll(old(inner.readable), old(inner.buffered))
      ensures inner.readable == old(inner.readable) && inner.reading
      ensures inner.buffered == if frame.Some? then old(inner.buffered)[1..] else old(inner.buffered)
      ensures position == old(position) + (if frame.Some? then FrameMillis else 0)
      ensures polled == if frame.Some? then old(polled) + [frame.value] else old(polled)
    {
      frame := inner.Poll();
      if frame.Some? {
        position := position + FrameMillis;
        polled := polled + [frame.value];
      }
    }

    /** `destroy()`: destroys the inner poller. */
    method Destroy()
      modifies inner
      ensures !inner.readable && inner.reading == old(inner.reading) && inner.buffered == old(inner.buffered)
    {
      inner.Destroy();
    }
  }

  /** The frames `n` streamed polls return in turn, and the stream's buffer afterwards. */
  function Drain(readable: bool, buffered: seq<seq<byte>>, n: nat): (r: (seq<seq<byte>>, seq<seq<byte>>))
    ensures r.0 + r.1 == buffered
  {
    if n == 0 || StreamPoll(readable, buffered).None? then ([], buffered)
    else
      var (fs, rest) := Drain(readable, buffered[1..], n - 1);
      assert [buffered[0]] + (fs + rest) == buffered;
      ([buffered[0]] + fs, rest)
  }

  /**
   * Polling a readable stream `n` times yields its first `min(n, |buffered|)` chunks in order, so a
   * length-tracking poller over it ends at `20 * min(n, |buffered|)`.
   */
  lemma {:induction false} DrainInOrder(buffered: seq<seq<byte>>, n: nat)
    ensures Drain(true, buffered, n).0 == buffered[..Min(n, |buffered|)]
  {
    if n > 0 && |buffered| > 0 {
      DrainInOrder(buffered[1..], n - 1);
      assert buffered[..Min(n, |buffered|)] == [buffered[0]] + buffered[1..][..Min(n - 1, |buffered| - 1)];
    }
  }
}
