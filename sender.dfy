/**
 * The pacing loop of `create_frame_sender(...).start`: each 20 ms tick polls one frame, keeps the
 * speaking state and the trailing-silence budget, provides and sends at most one packet, and sleeps
 * until the next absolute deadline. Time is an input: the nanoseconds elapsed when the tick sleeps.
 */
module Sender {
  import opened Bytes
  import opened Errors
  import opened Poly1305
  import opened PacketProvider
  import Rtp

  /** The 3-byte Opus silence frame `F8 FC FE`. */
  const SilentFrame: seq<byte> := [0xF8, 0xFC, 0xFE]

  /** How many silence frames follow the end of speech (`silence = 5`). */
  const SilenceBudget: nat := 5

  /** The deadline step: 20 ms in nanoseconds. */
  const FrameInterval: nat := 20_000_000

  /** The `d` of the op-5 gateway message `setSpeaking` sends. */
  datatype SpeakingPayload = SpeakingPayload(speaking: nat, delay: nat, ssrc: nat)

  /** The loop variables `speaking`, `silence` and `next`. */
  datatype PacingState = PacingState(speaking: bool, silence: nat, next: int)

  /** What one tick observes: the polled frame (or null), and `get_nano_time() - xd` when it sleeps. */
  datatype TickInput = TickInput(polled: Option<seq<byte>>, elapsed: int)

  /** What one tick does: an optional speaking notification, the frame handed to `provide`, the sleep. */
  datatype TickOutput = TickOutput(notify: Option<SpeakingPayload>, provided: Option<seq<byte>>, sleep: int)

  /**
   * The state before the first tick, with `next = performance.now()` given: not speaking, yet with a
   * full trailing-silence budget, so the first empty ticks still send silence.
   */
  function Start(next: int): (r: PacingState)
    ensures !r.speaking && r.silence == SilenceBudget && r.next == next
  {
    PacingState(false, SilenceBudget, next)
  }

  function Max(a: int, b: int): int {
    if a < b then b else a
  }

  /** `setSpeaking(state)`: a true state refills the budget; both send the notification. */
  function SetSpeaking(s: PacingState, state: bool, ssrc: nat): (r: (PacingState, SpeakingPayload))
    ensures r.0.speaking == state && r.0.next == s.next
    ensures r.0.silence == if state then SilenceBudget else s.silence
    ensures r.1.ssrc == ssrc && r.1.delay == 0 && (r.1.speaking != 0 <==> state)
  {
    (PacingState(state, if state then SilenceBudget else s.silence, s.next),
     SpeakingPayload(if state then 5 else 0, 0, ssrc))
  }

  /**
   * One iteration of the `while (started)` body. A frame is handed on iff one was polled or budget
   * remains, a polled frame is handed on unchanged, the budget never grows past its refill, and the
   * deadline always advances by one interval, the sleep never being negative.
   */
  function Tick(s: PacingState, input: TickInput, ssrc: nat): (r: (PacingState, TickOutput))
    ensures r.1.provided.Some? <==> input.polled.Some? || s.silence > 0
    ensures input.polled.Some? ==> r.1.provided == input.polled
    ensures input.polled.None? && r.1.provided.Some? ==> r.1.provided == Some(SilentFrame) && r.0.silence == s.silence - 1
    ensures r.1.notify.Some? <==> (input.polled.Some? && !s.speaking) || (input.polled.None? && s.speaking && s.silence == 0)
    ensures r.1.notify.Some? ==> r.0.speaking == input.polled.Some? && r.0.speaking != s.speaking
    ensures s.silence <= SilenceBudget ==> r.0.silence <= SilenceBudget
    ensures r.0.next == s.next + FrameInterval && r.1.sleep >= 0 && r.1.sleep >= r.0.next - input.elapsed
  {
    var frame := input.polled;
    var (s1, notify) :=
      if frame.Some? && !s.speaking then
        var (t, m) := SetSpeaking(s, true, ssrc); (t, Some(m))
      else if frame.None? && s.speaking && s.silence == 0 then
        var (t, m) := SetSpeaking(s, false, ssrc); (t, Some(m))
      else (s, None);
    var (frame', silence') :=
      if frame.None? && s1.silence > 0 then (Some(SilentFrame), s1.silence - 1) else (frame, s1.silence);
    var next := s1.next + FrameInterval;
    (PacingState(s1.speaking, silence', next), TickOutput(notify, frame', Max(0, next - input.elapsed)))
  }

  /** The state-machine facts of one tick. */
  lemma TickCases(s: PacingState, input: TickInput, ssrc: nat)
    ensures var (t, o) := Tick(s, input, ssrc);
      && (input.polled.Some? && !s.speaking ==>
            o.notify == Some(SpeakingPayload(5, 0, ssrc)) && t.speaking && t.silence == SilenceBudget)
      && (input.polled.None? && s.speaking && s.silence == 0 ==>
            o.notify == Some(SpeakingPayload(0, 0, ssrc)) && !t.speaking && t.silence == 0)
      && (input.polled.None? && s.silence > 0 ==>
            o.notify.None? && o.provided == Some(SilentFrame) && t.silence == s.silence - 1 && t.speaking == s.speaking)
      && (input.polled.Some? && s.speaking ==>
            o.notify.None? && o.provided == input.polled && t == PacingState(true, s.silence, s.next + FrameInterval))
      && (input.polled.None? && !s.speaking && s.silence == 0 ==> o.notify.None? && o.provided.None?)
      && (o.provided.Some? <==> input.polled.Some? || s.silence > 0)
      && (input.polled.Some? ==> o.provided == input.polled)
      && (s.silence <= SilenceBudget ==> t.silence <= SilenceBudget)
      && t.next == s.next + FrameInterval
      && o.sleep >= 0 && o.sleep >= t.next - input.elapsed
  {
  }

  /** The outputs of the ticks over `inputs`, from state `s`. */
  function Trace(s: PacingState, inputs: seq<TickInput>, ssrc: nat): (r: seq<TickOutput>)
    ensures |r| == |inputs|
    decreases |inputs|
  {
    if inputs == [] then [] else
      var (t, o) := Tick(s, inputs[0], ssrc);
      [o] + Trace(t, inputs[1..], ssrc)
  }

  /** The state after the ticks over `inputs`. */
  function After(s: PacingState, inputs: seq<TickInput>, ssrc: nat): PacingState
    decreases |inputs|
  {
    if inputs == [] then s else After(Tick(s, inputs[0], ssrc).0, inputs[1..], ssrc)
  }

  /** How many ticks hand a frame to `provide`. */
  function Provided(outs: seq<TickOutput>): nat {
    if outs == [] then 0 else (if outs[0].provided.Some? then 1 else 0) + Provided(outs[1..])
  }

  /** How many ticks send a speaking notification. */
  function Notifications(outs: seq<TickOutput>): nat {
    if outs == [] then 0 else (if outs[0].notify.Some? then 1 else 0) + Notifications(outs[1..])
  }

  lemma {:induction false} ProvidedAppend(outs: seq<TickOutput>, o: TickOutput)
    ensures Provided(outs + [o]) == Provided(outs) + (if o.provided.Some? then 1 else 0)
  {
    if outs != [] {
      assert (outs + [o])[0] == outs[0] && (outs + [o])[1..] == outs[1..] + [o];
      ProvidedAppend(outs[1..], o);
    }
  }

  lemma {:induction false} CountsConcat(a: seq<TickOutput>, b: seq<TickOutput>)
    ensures Provided(a + b) == Provided(a) + Provided(b)
    ensures Notifications(a + b) == Notifications(a) + Notifications(b)
  {
    if a != [] {
      var ab := a + b;
      assert ab[0] == a[0] && ab[1..] == a[1..] + b;
      CountsConcat(a[1..], b);
      assert Provided(ab) == (if a[0].provided.Some? then 1 else 0) + Provided(a[1..] + b);
      assert Notifications(ab) == (if a[0].notify.Some? then 1 else 0) + Notifications(a[1..] + b);
    } else {
      assert a + b == b;
    }
  }

  /** The deadline is absolute: after `k` ticks it is `next₀ + 20 000 000 k`, however long the ticks took. */
  lemma {:induction false} DeadlineAfter(s: PacingState, inputs: seq<TickInput>, ssrc: nat)
    ensures After(s, inputs, ssrc).next == s.next + FrameInterval * |inputs|
    decreases |inputs|
  {
    if inputs != [] {
      DeadlineAfter(Tick(s, inputs[0], ssrc).0, inputs[1..], ssrc);
    }
  }

  /** The silence budget never exceeds 5, and no tick sleeps a negative time. */
  lemma {:induction false} BudgetBounded(s: PacingState, inputs: seq<TickInput>, ssrc: nat)
    requires s.silence <= SilenceBudget
    ensures After(s, inputs, ssrc).silence <= SilenceBudget
    ensures forall i :: 0 <= i < |inputs| ==> Trace(s, inputs, ssrc)[i].sleep >= 0
    decreases |inputs|
  {
    if inputs != [] {
      TickCases(s, inputs[0], ssrc);
      BudgetBounded(Tick(s, inputs[0], ssrc).0, inputs[1..], ssrc);
    }
  }

  /** Every input polled null. */
  predicate AllEmpty(inputs: seq<TickInput>) {
    forall i :: 0 <= i < |inputs| ==> inputs[i].polled.None?
  }

  /** Once speech has ended and the budget is spent, empty ticks do nothing but sleep. */
  lemma {:induction false} QuietTail(s: PacingState, inputs: seq<TickInput>, ssrc: nat)
    requires !s.speaking && s.silence == 0 && AllEmpty(inputs)
    ensures Provided(Trace(s, inputs, ssrc)) == 0 && Notifications(Trace(s, inputs, ssrc)) == 0
    ensures var t := After(s, inputs, ssrc); !t.speaking && t.silence == 0
    decreases |inputs|
  {
    if inputs != [] {
      QuietTail(Tick(s, inputs[0], ssrc).0, inputs[1..], ssrc);
    }
  }

  /**
   * From any state that is not speaking, an always-empty source yields `min(k, silence)` silence frames
   * and never notifies; `EmptySourceFromStart` is the case of the start state.
   */
  lemma {:induction false} EmptySource(s: PacingState, inputs: seq<TickInput>, ssrc: nat)
    requires !s.speaking && AllEmpty(inputs)
    ensures Notifications(Trace(s, inputs, ssrc)) == 0
    ensures Provided(Trace(s, inputs, ssrc)) == if |inputs| < s.silence then |inputs| else s.silence
    ensures forall i :: 0 <= i < |inputs| && i < s.silence ==> Trace(s, inputs, ssrc)[i].provided == Some(SilentFrame)
    decreases |inputs|
  {
    if inputs != [] {
      EmptySource(Tick(s, inputs[0], ssrc).0, inputs[1..], ssrc);
    }
  }

  /** The starting state never notifies on a source that stays empty: exactly 5 silence packets. */
  lemma EmptySourceFromStart(next: int, inputs: seq<TickInput>, ssrc: nat)
    requires AllEmpty(inputs) && |inputs| >= SilenceBudget
    ensures Notifications(Trace(Start(next), inputs, ssrc)) == 0
    ensures Provided(Trace(Start(next), inputs, ssrc)) == SilenceBudget
  {
    EmptySource(Start(next), inputs, ssrc);
  }

  /**
   * Frames on ticks 1 to 3 and none after, over at least 9 ticks: `speaking: 5` on tick 1, silence frames
   * on ticks 4 to 8, `speaking: 0` on tick 9, and no other notification.
   */
  lemma ThreeFrames(next: int, inputs: seq<TickInput>, ssrc: nat)
    requires |inputs| >= 9
    requires forall i :: 0 <= i < 3 ==> inputs[i].polled.Some?
    requires forall i :: 3 <= i < |inputs| ==> inputs[i].polled.None?
    ensures var outs := Trace(Start(next), inputs, ssrc);
      && outs[0].notify == Some(SpeakingPayload(5, 0, ssrc))
      && (forall i :: 0 <= i < 3 ==> outs[i].provided == inputs[i].polled)
      && (forall i :: 3 <= i < 8 ==> outs[i].provided == Some(SilentFrame))
      && outs[8].notify == Some(SpeakingPayload(0, 0, ssrc))
      && (forall i :: 8 <= i < |inputs| ==> outs[i].provided.None?)
      && Notifications(outs) == 2
      && Provided(outs) == 8
  {
    var s0 := Start(next);
    var outs := Trace(s0, inputs, ssrc);
    // Tick 1 starts speaking; ticks 2 and 3 carry frames.
    var talk := inputs[..3];
    var rest := inputs[3..];
    assert inputs == talk + rest;
    TraceSplit(s0, talk, rest, ssrc);
    CountsConcat(Trace(s0, talk, ssrc), Trace(After(s0, talk, ssrc), rest, ssrc));
    TraceCons(s0, talk, ssrc);
    var s1 := Tick(s0, talk[0], ssrc).0;
    assert s1.speaking && s1.silence == SilenceBudget;
    SpeakingFrames(s1, talk[1..], ssrc);
    var s3 := After(s0, talk, ssrc);
    // Ticks 4 to 8 spend the silence budget.
    var quiet := rest[..5];
    var tail := rest[5..];
    assert rest == quiet + tail;
    TraceSplit(s3, quiet, tail, ssrc);
    CountsConcat(Trace(s3, quiet, ssrc), Trace(After(s3, quiet, ssrc), tail, ssrc));
    assert AllEmpty(quiet) by {
      forall i | 0 <= i < |quiet|
        ensures quiet[i].polled.None?
      {
        assert quiet[i] == inputs[3 + i];
      }
    }
    TrailingSilence(s3, quiet, ssrc);
    var s8 := After(s3, quiet, ssrc);
    // Tick 9 stops speaking; nothing happens after.
    TraceCons(s8, tail, ssrc);
    assert tail[0] == inputs[8];
    var s9 := Tick(s8, tail[0], ssrc).0;
    assert AllEmpty(tail[1..]) by {
      forall i | 0 <= i < |tail[1..]|
        ensures tail[1..][i].polled.None?
      {
        assert tail[1..][i] == inputs[9 + i];
      }
    }
    QuietTail(s9, tail[1..], ssrc);
    QuietTailNothing(s9, tail[1..], ssrc);
    assert outs == Trace(s0, talk, ssrc) + Trace(s3, quiet, ssrc) + Trace(s8, tail, ssrc);
    forall i | 8 <= i < |inputs|
      ensures outs[i].provided.None?
    {
      assert outs[i] == Trace(s8, tail, ssrc)[i - 8];
      if i > 8 {
        assert Trace(s8, tail, ssrc)[i - 8] == Trace(s9, tail[1..], ssrc)[i - 9];
      }
    }
  }

  /** The first tick of a trace, and the rest. */
  lemma TraceCons(s: PacingState, inputs: seq<TickInput>, ssrc: nat)
    requires inputs != []
    ensures var (t, o) := Tick(s, inputs[0], ssrc);
      && Trace(s, inputs, ssrc) == [o] + Trace(t, inputs[1..], ssrc)
      && After(s, inputs, ssrc) == After(t, inputs[1..], ssrc)
      && Provided(Trace(s, inputs, ssrc)) == (if o.provided.Some? then 1 else 0) + Provided(Trace(t, inputs[1..], ssrc))
      && Notifications(Trace(s, inputs, ssrc)) == (if o.notify.Some? then 1 else 0) + Notifications(Trace(t, inputs[1..], ssrc))
  {
    var (t, o) := Tick(s, inputs[0], ssrc);
    assert ([o] + Trace(t, inputs[1..], ssrc))[1..] == Trace(t, inputs[1..], ssrc);
  }

  /** While speaking, frames pass through unchanged and the budget stays. */
  lemma {:induction false} SpeakingFrames(s: PacingState, inputs: seq<TickInput>, ssrc: nat)
    requires s.speaking
    requires forall i :: 0 <= i < |inputs| ==> inputs[i].polled.Some?
    ensures forall i :: 0 <= i < |inputs| ==> Trace(s, inputs, ssrc)[i].provided == inputs[i].polled
    ensures Notifications(Trace(s, inputs, ssrc)) == 0 && Provided(Trace(s, inputs, ssrc)) == |inputs|
    ensures After(s, inputs, ssrc).speaking && After(s, inputs, ssrc).silence == s.silence
    decreases |inputs|
  {
    if inputs != [] {
      TraceCons(s, inputs, ssrc);
      SpeakingFrames(Tick(s, inputs[0], ssrc).0, inputs[1..], ssrc);
    }
  }

  /** After speech, each empty tick sends one silence frame until the budget is spent. */
  lemma {:induction false} TrailingSilence(s: PacingState, inputs: seq<TickInput>, ssrc: nat)
    requires s.speaking && AllEmpty(inputs) && |inputs| <= s.silence
    ensures forall i :: 0 <= i < |inputs| ==> Trace(s, inputs, ssrc)[i].provided == Some(SilentFrame)
    ensures Notifications(Trace(s, inputs, ssrc)) == 0 && Provided(Trace(s, inputs, ssrc)) == |inputs|
    ensures After(s, inputs, ssrc).speaking && After(s, inputs, ssrc).silence == s.silence - |inputs|
    decreases |inputs|
  {
    if inputs != [] {
      TraceCons(s, inputs, ssrc);
      TrailingSilence(Tick(s, inputs[0], ssrc).0, inputs[1..], ssrc);
    }
  }

  /** Ticks split at any point: the outputs concatenate and the state carries over. */
  lemma {:induction false} TraceSplit(s: PacingState, a: seq<TickInput>, b: seq<TickInput>, ssrc: nat)
    ensures Trace(s, a + b, ssrc) == Trace(s, a, ssrc) + Trace(After(s, a, ssrc), b, ssrc)
    ensures After(s, a + b, ssrc) == After(After(s, a, ssrc), b, ssrc)
    decreases |a|
  {
    if a != [] {
      var ab := a + b;
      assert ab[0] == a[0] && ab[1..] == a[1..] + b;
      var (t, o) := Tick(s, a[0], ssrc);
      TraceSplit(t, a[1..], b, ssrc);
      assert Trace(s, ab, ssrc) == [o] + Trace(t, a[1..] + b, ssrc);
      assert Trace(s, a, ssrc) == [o] + Trace(t, a[1..], ssrc);
      assert After(s, ab, ssrc) == After(t, a[1..] + b, ssrc);
    } else {
      assert a + b == b;
    }
  }

  /** In a quiet tail no tick provides a frame. */
  lemma {:induction false} QuietTailNothing(s: PacingState, inputs: seq<TickInput>, ssrc: nat)
    requires !s.speaking && s.silence == 0 && AllEmpty(inputs)
    ensures forall i :: 0 <= i < |inputs| ==> Trace(s, inputs, ssrc)[i].provided.None? && Trace(s, inputs, ssrc)[i].notify.None?
    decreases |inputs|
  {
    if inputs != [] {
      QuietTailNothing(Tick(s, inputs[0], ssrc).0, inputs[1..], ssrc);
    }
  }

  /** The `i`-th output is the tick from the state after the first `i` inputs. */
  lemma TraceStep(init: PacingState, inputs: seq<TickInput>, i: nat, ssrc: nat)
    requires i < |inputs|
    ensures Trace(init, inputs, ssrc)[i] == Tick(After(init, inputs[..i], ssrc), inputs[i], ssrc).1
    ensures After(init, inputs[..i + 1], ssrc) == Tick(After(init, inputs[..i], ssrc), inputs[i], ssrc).0
  {
    var s := After(init, inputs[..i], ssrc);
    assert inputs == inputs[..i] + inputs[i..];
    TraceSplit(init, inputs[..i], inputs[i..], ssrc);
    TraceCons(s, inputs[i..], ssrc);
    assert inputs[i..][0] == inputs[i];
    assert inputs[..i + 1] == inputs[..i] + [inputs[i]];
    TraceSplit(init, inputs[..i], [inputs[i]], ssrc);
    TraceCons(s, [inputs[i]], ssrc);
  }

  /** One tick of the loop: the pure tick, then `provide` when it yields a frame. */
  method RunTick(provider: PacketProvider, state: PacingState, input: TickInput, random: seq<byte>)
    returns (next: PacingState, out: TickOutput, rtp: Option<Result<seq<byte>>>)
    requires provider.Valid() && |random| == NonceSize
    modifies provider, provider.cursor, provider.cursor.data, provider.strategy, provider.strategy.nonceStrategy,
      provider.strategy.encryptNonce, provider.strategy.encryptNonce.data
    ensures (next, out) == Tick(state, input, provider.ssrc)
    ensures provider.Valid()
    ensures provider.cursor.data == old(provider.cursor.data) || fresh(provider.cursor.data)
    ensures provider.strategy.encryptNonce.data == old(provider.strategy.encryptNonce.data)
    ensures rtp.Some? <==> out.provided.Some?
    ensures provider.issued == old(provider.issued) + (if out.provided.Some? then 1 else 0)
    ensures rtp.Some? ==>
              var h := Rtp.HeaderAt(provider.rule, provider.ssrc, old(provider.issued));
              && (rtp.value.Ok? <==> Rtp.Encodable(h) && GenerateFits(provider.strategy.nonceStrategy.policy, h, provider.strategy.nonceStrategy.counter))
              && (rtp.value.Ok? ==> rtp.value.value == Packet(provider.strategy, h, provider.strategy.nonceStrategy.counter, out.provided.value, random))
    ensures rtp.None? ==>
              provider.State() == old(provider.State()) && provider.strategy.nonceStrategy.counter == old(provider.strategy.nonceStrategy.counter)
  {
    next, out := Tick(state, input, provider.ssrc).0, Tick(state, input, provider.ssrc).1;
    rtp := None;
    if out.provided.Some? {
      var r := provider.Provide(out.provided.value, random);
      rtp := Some(r);
    }
  }

  /**
   * The `while (started)` loop over the frames the poller yields, sending each provided packet.
   * `provide` throwing ends the loop (the exception rejects `start`), so the ticks run are a prefix
   * of the inputs, each tick provides at most one packet, and every tick before a failure sends its packet.
   */
  method Run(provider: PacketProvider, init: PacingState, inputs: seq<TickInput>, randoms: seq<seq<byte>>)
    returns (outs: seq<TickOutput>, sent: seq<seq<byte>>, failure: Option<Error>)
    requires provider.Valid()
    requires |randoms| == |inputs|
    requires forall i :: 0 <= i < |randoms| ==> |randoms[i]| == NonceSize
    modifies provider, provider.cursor, provider.cursor.data, provider.strategy, provider.strategy.nonceStrategy,
      provider.strategy.encryptNonce, provider.strategy.encryptNonce.data
    ensures provider.Valid()
    ensures |outs| <= |inputs| && outs == Trace(init, inputs, provider.ssrc)[..|outs|]
    ensures failure.None? ==> outs == Trace(init, inputs, provider.ssrc)
    ensures failure.Some? ==> |outs| > 0 && outs[|outs| - 1].provided.Some?
    ensures |sent| + (if failure.Some? then 1 else 0) == Provided(outs)
    ensures provider.issued == old(provider.issued) + Provided(outs)
  {
    var state := init;
    outs := [];
    sent := [];
    failure := None;
    var i := 0;
    while i < |inputs|
      invariant 0 <= i <= |inputs| && |outs| == i
      invariant provider.Valid()
      invariant provider.cursor.data == old(provider.cursor.data) || fresh(provider.cursor.data)
      invariant provider.strategy.encryptNonce.data == old(provider.strategy.encryptNonce.data)
      invariant outs == Trace(init, inputs, provider.ssrc)[..i]
      invariant state == After(init, inputs[..i], provider.ssrc)
      invariant |sent| == Provided(outs)
      invariant provider.issued == old(provider.issued) + Provided(outs)
    {
      TraceStep(init, inputs, i, provider.ssrc);
      var next, out, rtp := RunTick(provider, state, inputs[i], randoms[i]);
      ProvidedAppend(outs, out);
      state := next;
      outs := outs + [out];
      i := i + 1;
      if rtp.Some? {
        if rtp.value.Err? {
          failure := Some(rtp.value.error);
          return;
        }
        sent := sent + [rtp.value.value];
      }
    }
  }
}
