/** The fixed 12-byte RTP header (section 5.1 of RFC 3550) and the per-session header counters. */
module Rtp {
  import opened Bytes
  import opened Errors
  import opened MutableCursor

  datatype RtpHeader = RtpHeader(sequence: nat, timestamp: nat, ssrc: nat)

  /** Samples per 20 ms Opus frame at 48 kHz: the timestamp step. */
  const FrameSamples: nat := 960

  /** Whether every field fits the width `write_rtp_header` gives it. */
  predicate Encodable(h: RtpHeader) {
    h.sequence < Pow256(2) && h.timestamp < Pow256(4) && h.ssrc < Pow256(4)
  }

  /** The bytes of `write_rtp_header`: V=2 with no padding, extension or CSRC, PT=0x78, then BE16, BE32, BE32. */
  function HeaderBytes(h: RtpHeader): (r: seq<byte>)
    ensures |r| == 12
  {
    [0x80, 0x78] + BigEndian(h.sequence, 2) + BigEndian(h.timestamp, 4) + BigEndian(h.ssrc, 4)
  }

  /** The header's fields can be read back from their offsets: the layout loses nothing. */
  lemma HeaderLayout(h: RtpHeader)
    requires Encodable(h)
    ensures HeaderBytes(h)[0] == 0x80 && HeaderBytes(h)[1] == 0x78
    ensures FromBigEndian(HeaderBytes(h)[2..4]) == h.sequence
    ensures FromBigEndian(HeaderBytes(h)[4..8]) == h.timestamp
    ensures FromBigEndian(HeaderBytes(h)[8..12]) == h.ssrc
  {
    var b := HeaderBytes(h);
    assert b[2..4] == BigEndian(h.sequence, 2);
    assert b[4..8] == BigEndian(h.timestamp, 4);
    assert b[8..12] == BigEndian(h.ssrc, 4);
    BigEndianRoundTrip(h.sequence, 2);
    BigEndianRoundTrip(h.timestamp, 4);
    BigEndianRoundTrip(h.ssrc, 4);
  }

  /** Two headers with the same bytes are the same header. */
  lemma HeaderBytesInjective(h: RtpHeader, g: RtpHeader)
    requires Encodable(h) && Encodable(g)
    requires HeaderBytes(h) == HeaderBytes(g)
    ensures h == g
  {
    HeaderLayout(h);
    HeaderLayout(g);
  }

  /**
   * `write_rtp_header(cursor, header)`: five cursor writes. It succeeds exactly when the fields fit and
   * 12 bytes of room remain; whatever happens, nothing outside those 12 bytes changes.
   */
  method WriteRtpHeader(c: BufferCursor, h: RtpHeader) returns (r: Outcome)
    modifies c, c.data
    ensures c.data == old(c.data)
    ensures r.Ok? <==> Encodable(h) && old(c.position) + 12 <= c.data.Length
    ensures r.Ok? ==> c.position == old(c.position) + 12
    ensures r.Ok? ==> c.data[..] == Splice(old(c.data[..]), old(c.position), HeaderBytes(h))
    ensures SameOutside(old(c.data[..]), c.data[..], old(c.position), old(c.position) + 12)
  {
    ghost var p := c.position;
    ghost var s := c.data[..];
    r := c.Write(0x80);
    if r.Err? {
      return;
    }
    ghost var w := [0x80];
    if p < c.data.Length {
      SpliceOne(s, p, 0x80);
    }
    assert SameOutside(s, c.data[..], p, p + 1);
    ghost var s1 := c.data[..];
    r := c.Write(0x78);
    if r.Err? {
      return;
    }
    if p + 1 < c.data.Length {
      SpliceOne(Splice(s, p, w), p + 1, 0x78);
      SpliceConcat(s, p, w, [0x78]);
    }
    w := w + [0x78];
    assert SameOutside(s1, c.data[..], p + 1, p + 2);
    SameOutsideTrans(s, s1, c.data[..], p, p + 1, p + 1, p + 2);
    r := WriteRtpFields(c, h);
    if r.Ok? {
      SpliceConcat(s, p, w, BigEndian(h.sequence, 2) + BigEndian(h.timestamp, 4) + BigEndian(h.ssrc, 4));
      assert w + (BigEndian(h.sequence, 2) + BigEndian(h.timestamp, 4) + BigEndian(h.ssrc, 4)) == HeaderBytes(h);
    }
  }

  /** The three integer fields of `write_rtp_header`: BE16 sequence, BE32 timestamp, BE32 ssrc. */
  method WriteRtpFields(c: BufferCursor, h: RtpHeader) returns (r: Outcome)
    modifies c, c.data
    ensures c.data == old(c.data)
    ensures r.Ok? <==> Encodable(h) && old(c.position) + 10 <= c.data.Length
    ensures r.Ok? ==> c.position == old(c.position) + 10
    ensures r.Ok? ==> c.data[..] == Splice(old(c.data[..]), old(c.position),
                                         BigEndian(h.sequence, 2) + BigEndian(h.timestamp, 4) + BigEndian(h.ssrc, 4))
    ensures SameOutside(old(c.data[..]), c.data[..], old(c.position), old(c.position) + 10)
  {
    ghost var p := c.position;
    ghost var s := c.data[..];
    r := c.WriteUint16BE(h.sequence);
    if r.Err? {
      return;
    }
    ghost var s1 := c.data[..];
    r := c.WriteUint32BE(h.timestamp);
    if r.Err? {
      return;
    }
    ghost var s2 := c.data[..];
    SameOutsideTrans(s, s1, s2, p, p + 2, p + 2, p + 6);
    SpliceConcat(s, p, BigEndian(h.sequence, 2), BigEndian(h.timestamp, 4));
    r := c.WriteUint32BE(h.ssrc);
    if r.Err? {
      return;
    }
    SameOutsideTrans(s, s2, c.data[..], p, p + 6, p + 6, p + 10);
    SpliceConcat(s, p, BigEndian(h.sequence, 2) + BigEndian(h.timestamp, 4), BigEndian(h.ssrc, 4));
  }

  /** The closure state of `create_packet_provider`. */
  datatype Counters = Counters(sequence: nat, timestamp: nat, roc: nat)

  /** Which header arithmetic a provider uses: the code as written, or the evidently intended one. */
  datatype CounterRule = AsWritten | Intended

  /** The wrap test of the code as written is `sequence > 65565`. */
  const SourceWrapLimit: nat := 65565

  /** The largest 16-bit sequence number. */
  const MaxSequence: nat := 65535

  /** 2^32: the timestamp modulus of the intended arithmetic. */
  const TimestampModulus: nat := 0x1_0000_0000

  predicate Wraps(rule: CounterRule, c: Counters) {
    c.sequence > (if rule.AsWritten? then SourceWrapLimit else MaxSequence)
  }

  /**
   * `get_rtp_header`: wrap the sequence (bumping the rollover counter) when it is past the limit,
   * hand out the sequence and timestamp, then advance them.
   */
  function NextHeader(rule: CounterRule, c: Counters, ssrc: nat): (r: (RtpHeader, Counters))
    ensures r.0.ssrc == ssrc && r.0.timestamp == c.timestamp
    ensures r.0.sequence == 0 || r.0.sequence == c.sequence
    ensures r.1.sequence == r.0.sequence + 1
    ensures r.1.roc == c.roc || r.1.roc == c.roc + 1
    ensures rule.Intended? ==> r.0.sequence <= MaxSequence && r.1.timestamp < TimestampModulus
  {
    var (sequence, roc) := if Wraps(rule, c) then (0, c.roc + 1) else (c.sequence, c.roc);
    var timestamp := if rule.AsWritten? then c.timestamp + FrameSamples else (c.timestamp + FrameSamples) % TimestampModulus;
    (RtpHeader(sequence, c.timestamp, ssrc), Counters(sequence + 1, timestamp, roc))
  }

  /** One step of `get_rtp_header`: the rollover counter rises by exactly one at a wrap and otherwise stays. */
  lemma NextHeaderStep(rule: CounterRule, c: Counters, ssrc: nat)
    ensures var (h, c') := NextHeader(rule, c, ssrc);
      && h.ssrc == ssrc
      && h.timestamp == c.timestamp
      && c'.sequence == h.sequence + 1
      && (Wraps(rule, c) ==> h.sequence == 0 && c'.roc == c.roc + 1)
      && (!Wraps(rule, c) ==> h.sequence == c.sequence && c'.roc == c.roc)
      && c'.roc >= c.roc
      && (rule.AsWritten? ==> c'.timestamp == c.timestamp + FrameSamples)
  {
  }

  const Initial: Counters := Counters(0, 0, 0)

  /** The counters after `k` headers. */
  function CountersAfter(rule: CounterRule, k: nat): Counters {
    if k == 0 then Initial else NextHeader(rule, CountersAfter(rule, k - 1), 0).1
  }

  /** The `k`-th header (0-based) of a provider with this `ssrc`. */
  function HeaderAt(rule: CounterRule, ssrc: nat, k: nat): RtpHeader {
    NextHeader(rule, CountersAfter(rule, k), ssrc).0
  }

  /** As written, the timestamp is 960 times the number of earlier headers, and the sequence counts up to the limit. */
  lemma {:induction false} AsWrittenCounters(k: nat)
    ensures CountersAfter(AsWritten, k).timestamp == FrameSamples * k
    ensures k <= SourceWrapLimit + 1 ==> CountersAfter(AsWritten, k) == Counters(k, FrameSamples * k, 0)
  {
    if k > 0 {
      AsWrittenCounters(k - 1);
    }
  }

  /** Before any wrap, the `k`-th header has sequence `k`, timestamp `960 k` and the provider's ssrc. */
  lemma AsWrittenHeaderAt(ssrc: nat, k: nat)
    requires k <= SourceWrapLimit
    ensures HeaderAt(AsWritten, ssrc, k) == RtpHeader(k, FrameSamples * k, ssrc)
  {
    AsWrittenCounters(k);
  }

  /** As written, header 65536 carries sequence 65536, which the BE16 write rejects. */
  lemma SequenceOverflowAsWritten(ssrc: nat)
    ensures HeaderAt(AsWritten, ssrc, 65536).sequence == 65536
    ensures !Encodable(HeaderAt(AsWritten, ssrc, 65536))
  {
    AsWrittenHeaderAt(ssrc, 65536);
  }

  /** As written, the timestamp never wraps: header 4473925 carries 4294968000, past the BE32 range. */
  lemma TimestampOverflowAsWritten(ssrc: nat)
    ensures HeaderAt(AsWritten, ssrc, 4473925).timestamp == 4294968000
    ensures !Encodable(HeaderAt(AsWritten, ssrc, 4473925))
  {
    AsWrittenCounters(4473925);
  }

  /**
   * With the intended arithmetic, after `k` headers the timestamp is `960 k mod 2^32`, the sequence has
   * counted past the last header's `(k - 1) mod 2^16`, and the rollover counter has counted one wrap
   * per 65536 headers.
   */
  lemma {:induction false} IntendedCounters(k: nat)
    ensures CountersAfter(Intended, k).roc == (if k == 0 then 0 else (k - 1) / 65536)
    ensures CountersAfter(Intended, k).timestamp == (FrameSamples * k) % TimestampModulus
    ensures CountersAfter(Intended, k).sequence == (if k > 0 && k % 65536 == 0 then 65536 else k % 65536)
  {
    if k > 0 {
      IntendedCounters(k - 1);
      TimestampStep(FrameSamples * (k - 1));
      SequenceStep(k - 1);
    }
  }

  /** One more header moves the sequence residue on by one and the wrap count by one at each multiple of 2^16. */
  lemma SequenceStep(j: nat)
    ensures (j + 1) % 65536 == if j % 65536 == 65535 then 0 else j % 65536 + 1
    ensures j > 0 ==> j / 65536 == (j - 1) / 65536 + (if j % 65536 == 0 then 1 else 0)
  {
    var q, r := j / 65536, j % 65536;
    assert j == 65536 * q + r;
    if r == 65535 {
      assert j + 1 == 65536 * (q + 1);
    } else {
      assert j + 1 == 65536 * q + (r + 1);
    }
    if j > 0 {
      if r == 0 {
        assert j - 1 == 65536 * (q - 1) + 65535;
      } else {
        assert j - 1 == 65536 * q + (r - 1);
      }
    }
  }

  /** Adding the step to the reduced timestamp and reducing again is reducing the sum. */
  lemma TimestampStep(x: nat)
    ensures (x % TimestampModulus + FrameSamples) % TimestampModulus == (x + FrameSamples) % TimestampModulus
  {
    var q := x / TimestampModulus;
    assert x == TimestampModulus * q + x % TimestampModulus;
  }

  /**
   * With the intended arithmetic the `k`-th header has sequence `k mod 2^16` and timestamp `960 k mod 2^32`,
   * is sent under rollover counter `k div 2^16`, and fits its fields, so the header write never fails on them.
   */
  lemma IntendedHeaderAt(ssrc: nat, k: nat)
    requires ssrc < Pow256(4)
    ensures HeaderAt(Intended, ssrc, k) == RtpHeader(k % 65536, (FrameSamples * k) % TimestampModulus, ssrc)
    ensures NextHeader(Intended, CountersAfter(Intended, k), ssrc).1.roc == k / 65536
    ensures Encodable(HeaderAt(Intended, ssrc, k))
  {
    IntendedCounters(k);
  }
}
