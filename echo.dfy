/**
 * `create_echoing_frame_poller`: the loopback test source. Each datagram received from the voice
 * server is filtered, its decrypted Opus payload stripped of an RTP header extension, and queued
 * (at most ten); `poll` hands the queued frames back in arrival order.
 */
module Echo {
  import opened Bytes
  import opened Errors

  /** Datagrams shorter than this are ignored. */
  const MinDatagram: nat := 13

  /** The only user whose audio is echoed. */
  const EchoUser: string := "396096412116320258"

  /** The queue holds at most this many frames. */
  const QueueCap: nat := 10

  /** The fields of the parsed RTP header `handle_message` consults. */
  datatype PacketInfo = PacketInfo(ssrc: nat, hasExtension: bool, marker: bool)

  /** The connection state it consults: `connection.remote?.ip` and `connection.speaking_map`. */
  datatype ConnectionView = ConnectionView(remoteIp: Option<string>, speakingMap: map<nat, string>)

  /** Whether the datagram passes the length, address and user filters. */
  predicate Admitted(data: seq<byte>, address: string, info: PacketInfo, conn: ConnectionView) {
    && |data| >= MinDatagram
    && conn.remoteIp == Some(address)
    && info.ssrc in conn.speakingMap
    && conn.speakingMap[info.ssrc] == EchoUser
  }

  /** The extension block's size: its 4-byte preamble plus the BE16 count of 32-bit words at offset 2. */
  function ExtensionShift(opus: seq<byte>): nat
    requires |opus| >= 4
  {
    4 + 4 * FromBigEndian(opus[2..4])
  }

  /**
   * The extension strip of `handle_message`: only when the header has the extension bit and no marker;
   * the BE16 read throws when the payload has fewer than 4 bytes; the block is dropped only when the
   * payload is longer than it.
   */
  function StripExtension(opus: seq<byte>, info: PacketInfo): (r: Result<seq<byte>>)
    ensures !(info.hasExtension && !info.marker) ==> r == Ok(opus)
    ensures r.Err? <==> info.hasExtension && !info.marker && |opus| < 4
    ensures r.Err? ==> r.error == OffsetOutOfRange
    ensures r.Ok? ==> |r.value| <= |opus| && r.value == opus[|opus| - |r.value|..]
    ensures r.Ok? && r.value != opus ==> |opus| > ExtensionShift(opus) && |r.value| == |opus| - ExtensionShift(opus)
  {
    if info.hasExtension && !info.marker then
      if |opus| < 4 then Err(OffsetOutOfRange)
      else
        var shift := ExtensionShift(opus);
        Ok(if |opus| > shift then opus[shift..] else opus)
    else Ok(opus)
  }

  /** A payload that starts with an extension block of `n` 32-bit words sheds exactly that block. */
  lemma ExtensionRoundTrip(profile: seq<byte>, n: nat, words: seq<byte>, payload: seq<byte>)
    requires |profile| == 2 && n < Pow256(2) && |words| == 4 * n && payload != []
    ensures StripExtension(profile + BigEndian(n, 2) + words + payload, PacketInfo(0, true, false)) == Ok(payload)
  {
    var head := profile + BigEndian(n, 2);
    var opus := head + words + payload;
    assert opus[2..4] == BigEndian(n, 2);
    BigEndianRoundTrip(n, 2);
    assert ExtensionShift(opus) == 4 + |words|;
    assert opus[4 + |words|..] == payload;
  }

  /** What a datagram contributes: nothing (`Ok(None)`), a frame to queue, or the exception of the extension read. */
  function Received(data: seq<byte>, address: string, info: PacketInfo, conn: ConnectionView, decrypted: Option<seq<byte>>)
    : (r: Result<Option<seq<byte>>>)
    ensures r == Ok(None) <==> !Admitted(data, address, info, conn) || decrypted.None?
    ensures r.Err? ==> Admitted(data, address, info, conn) && decrypted.Some? && StripExtension(decrypted.value, info).Err?
    ensures r.Ok? && r.value.Some? ==> decrypted.Some? && StripExtension(decrypted.value, info) == Ok(r.value.value)
  {
    if !Admitted(data, address, info, conn) || decrypted.None? then Ok(None)
    else
      match StripExtension(decrypted.value, info)
      case Ok(opus) => Ok(Some(opus))
      case Err(e) => Err(e)
  }

  /** The queue after `frames.length >= 10 && frames.pop()` and `frames.push(f)`. */
  function Enqueue(q: seq<seq<byte>>, f: seq<byte>): (r: seq<seq<byte>>)
    ensures |r| == if |q| < QueueCap then |q| + 1 else |q|
    ensures r[|r| - 1] == f
    ensures |q| < QueueCap ==> r[..|r| - 1] == q
    ensures |q| >= QueueCap ==> r[..|r| - 1] == q[..|q| - 1]
  {
    var kept := if |q| >= QueueCap then q[..|q| - 1] else q;
    assert (kept + [f])[..|kept|] == kept;
    kept + [f]
  }

  /** The queue after frames `fs` arrive in order. */
  function Arrivals(q: seq<seq<byte>>, fs: seq<seq<byte>>): seq<seq<byte>>
    decreases |fs|
  {
    if fs == [] then q else Arrivals(Enqueue(q, fs[0]), fs[1..])
  }

  lemma {:induction false} ArrivalsConcat(q: seq<seq<byte>>, a: seq<seq<byte>>, b: seq<seq<byte>>)
    ensures Arrivals(q, a + b) == Arrivals(Arrivals(q, a), b)
    decreases |a|
  {
    if a == [] {
      assert a + b == b;
    } else {
      assert (a + b)[0] == a[0] && (a + b)[1..] == a[1..] + b;
      ArrivalsConcat(Enqueue(q, a[0]), a[1..], b);
    }
  }

  /** Below the cap every arrival is queued behind the earlier ones. */
  lemma {:induction false} ArrivalsBelowCap(q: seq<seq<byte>>, fs: seq<seq<byte>>)
    requires |q| + |fs| <= QueueCap
    ensures Arrivals(q, fs) == q + fs
    decreases |fs|
  {
    if fs != [] {
      ArrivalsBelowCap(q + [fs[0]], fs[1..]);
      assert q + [fs[0]] + fs[1..] == q + fs;
    }
  }

  /** The queue never holds more than ten frames. */
  lemma {:induction false} ArrivalsBounded(q: seq<seq<byte>>, fs: seq<seq<byte>>)
    requires |q| <= QueueCap
    ensures |Arrivals(q, fs)| <= QueueCap
    decreases |fs|
  {
    if fs != [] {
      ArrivalsBounded(Enqueue(q, fs[0]), fs[1..]);
    }
  }

  /**
   * Once the queue is full, each arrival replaces the newest frame: the nine oldest stay and only the
   * latest arrival is kept behind them.
   */
  lemma {:induction false} ArrivalsWhenFull(q: seq<seq<byte>>, fs: seq<seq<byte>>)
    requires |q| == QueueCap && fs != []
    ensures Arrivals(q, fs) == q[..QueueCap - 1] + [fs[|fs| - 1]]
    decreases |fs|
  {
    var q' := Enqueue(q, fs[0]);
    assert q' == q[..QueueCap - 1] + [fs[0]];
    if |fs| > 1 {
      ArrivalsWhenFull(q', fs[1..]);
      assert q'[..QueueCap - 1] == q[..QueueCap - 1];
    }
  }

  /** Eleven frames into an empty queue: the tenth is lost and the eleventh takes its place. */
  lemma EleventhReplacesTenth(fs: seq<seq<byte>>)
    requires |fs| == QueueCap + 1
    ensures Arrivals([], fs) == fs[..QueueCap - 1] + [fs[QueueCap]]
  {
    assert fs == fs[..QueueCap] + fs[QueueCap..];
    ArrivalsConcat([], fs[..QueueCap], fs[QueueCap..]);
    ArrivalsBelowCap([], fs[..QueueCap]);
    assert [] + fs[..QueueCap] == fs[..QueueCap];
    ArrivalsWhenFull(fs[..QueueCap], fs[QueueCap..]);
  }

  class EchoFramePoller {
    /** The closure's `frames` array. */
    var frames: seq<seq<byte>>

    ghost predicate Valid()
      reads this
    {
      |frames| <= QueueCap
    }

    constructor ()
      ensures frames == [] && Valid()
    {
      frames := [];
    }

    /**
     * `handle_message(data, remote)`, given the parsed header fields and the result of `decrypt_rtp`:
     * the queue changes exactly by the frame the datagram contributes, and stays within the cap.
     */
    method HandleMessage(data: seq<byte>, address: string, info: PacketInfo, conn: ConnectionView, decrypted: Option<seq<byte>>)
      returns (r: Outcome)
      requires Valid()
      modifies this
      ensures Valid()
      ensures r.Err? <==> Received(data, address, info, conn, decrypted).Err?
      ensures frames == match Received(data, address, info, conn, decrypted)
                        case Ok(Some(f)) => Enqueue(old(frames), f)
                        case _ => old(frames)
    {
      r := Ok(());
      if |data| < MinDatagram {
        return;
      }
      if conn.remoteIp != Some(address) {
        return;
      }
      if info.ssrc !in conn.speakingMap || conn.speakingMap[info.ssrc] != EchoUser {
        return;
      }
      if decrypted.None? {
        return;
      }
      var opus := decrypted.value;
      ghost var stripped := StripExtension(opus, info);
      if info.hasExtension && !info.marker {
        if |opus| < 4 {
          return Err(OffsetOutOfRange);
        }
        var extensionLength := FromBigEndian(opus[2..4]);
        var shift := 4 + 4 * extensionLength;
        if |opus| > shift {
          opus := opus[shift..];
        }
      }
      assert stripped == Ok(opus);
      if |frames| >= QueueCap {
        frames := frames[..|frames| - 1];
      }
      frames := frames + [opus];
    }

    /** `poll()`: `frames.shift() ?? null`, the oldest queued frame. */
    method Poll() returns (r: Option<seq<byte>>)
      requires Valid()
      modifies this
      ensures Valid()
      ensures r == if old(frames) == [] then None else Some(old(frames)[0])
      ensures frames == if old(frames) == [] then [] else old(frames)[1..]
    {
      if frames == [] {
        return None;
      }
      r := Some(frames[0]);
      frames := frames[1..];
    }
  }
}
