/** `create_packet_provider`: the per-session RTP counters and the assembly of one encrypted voice packet. */
module PacketProvider {
  import opened Bytes
  import opened Errors
  import opened MutableCursor
  import opened Rtp
  import opened Poly1305

  /** The size of the provider's scratch buffer, `Buffer.alloc(2048)`. */
  const ScratchSize: nat := 2048

  /** The room `provide` asks for beyond the header and the frame: the tag and the largest trailer. */
  const Overhead: nat := TagSize + NonceSize

  /** The packet `provide` returns for header `h` and the nonce counter the strategy used. */
  function Packet(s: Poly1305Strategy, h: RtpHeader, counter: nat, frame: seq<byte>, random: seq<byte>): (r: seq<byte>)
    requires |random| == NonceSize
    reads s, s.nonceStrategy
    ensures |r| == 12 + |frame| + TagSize + NonceLength(s.nonceStrategy.policy)
    ensures r[..12] == HeaderBytes(h)
  {
    var p := s.nonceStrategy.policy;
    var n := Nonce(p, h, counter, random);
    HeaderBytes(h) + s.seal(frame, n, s.secretKey) + Trailer(p, counter, n)
  }

  class PacketProvider {
    const ssrc: nat
    const rule: CounterRule
    const strategy: Poly1305Strategy
    const cursor: BufferCursor
    var sequence: nat
    var timestamp: nat
    var roc: nat
    /** How many headers `get_rtp_header` has handed out. */
    ghost var issued: nat

    function State(): Counters
      reads this
    {
      Counters(sequence, timestamp, roc)
    }

    /** The counters are those after `issued` headers, and the scratch buffer is the provider's own. */
    ghost predicate Valid()
      reads this, cursor, strategy, strategy.nonceStrategy, strategy.nonceStrategy.stripCursor,
        strategy.encryptNonce, strategy.encryptNonce.data
    {
      && strategy.Valid()
      && cursor != strategy.encryptNonce
      && cursor != strategy.nonceStrategy.stripCursor
      && cursor.data != strategy.encryptNonce.data
      && cursor.data.Length >= ScratchSize
      && State() == CountersAfter(rule, issued)
    }

    /** `create_packet_provider(ssrc, encryption_strategy)`; `rule` selects the header arithmetic. */
    constructor (ssrc: nat, strategy: Poly1305Strategy, rule: CounterRule)
      requires strategy.Valid()
      ensures this.ssrc == ssrc && this.strategy == strategy && this.rule == rule
      ensures fresh(cursor) && fresh(cursor.data)
      ensures issued == 0 && State() == Initial
      ensures Valid()
    {
      var buffer := new byte[ScratchSize](_ => 0);
      var c := new BufferCursor(buffer);
      this.ssrc := ssrc;
      this.rule := rule;
      this.strategy := strategy;
      cursor := c;
      sequence := 0;
      timestamp := 0;
      roc := 0;
      issued := 0;
    }

    /** `get_rtp_header()`: the next header, and the counters advance by one step. */
    method GetRtpHeader() returns (h: RtpHeader)
      modifies this
      ensures (h, State()) == NextHeader(rule, old(State()), ssrc)
      ensures issued == old(issued) + 1
      ensures old(State()) == CountersAfter(rule, old(issued)) ==>
                h == HeaderAt(rule, ssrc, old(issued)) && State() == CountersAfter(rule, issued)
    {
      if Wraps(rule, State()) {
        roc := roc + 1;
        sequence := 0;
      }
      var ts := timestamp;
      timestamp := if rule.AsWritten? then timestamp + FrameSamples else (timestamp + FrameSamples) % TimestampModulus;
      h := RtpHeader(sequence, ts, ssrc);
      sequence := sequence + 1;
      issued := issued + 1;
    }

    /** The first steps of `provide`: `reset()`, `data.fill(0)` and `resize(size)`. */
    method ClearScratch(size: nat)
      modifies cursor, cursor.data
      ensures cursor.position == 0 && cursor.data[..] == Zeros(cursor.data.Length)
      ensures cursor.data.Length >= old(cursor.data.Length) && cursor.data.Length >= size
      ensures cursor.data == old(cursor.data) || fresh(cursor.data)
    {
      cursor.Reset();
      forall i | 0 <= i < cursor.data.Length {
        cursor.data[i] := 0;
      }
      var _ := cursor.Resize(size, false);
    }

    /**
     * `provide(frame)`: clear and size the scratch buffer, write the next header, encrypt the frame
     * after it and return the bytes written. It fails exactly when the header fields or the nonce
     * counter do not fit their widths; the counters advance either way.
     */
    method Provide(frame: seq<byte>, random: seq<byte>) returns (r: Result<seq<byte>>)
      requires Valid()
      requires |random| == NonceSize
      modifies this, cursor, cursor.data, strategy, strategy.nonceStrategy, strategy.encryptNonce, strategy.encryptNonce.data
      ensures Valid()
      ensures issued == old(issued) + 1
      ensures cursor.data.Length >= old(cursor.data.Length) && cursor.data.Length >= 12 + |frame| + Overhead
      ensures cursor.data == old(cursor.data) || fresh(cursor.data)
      ensures strategy.encryptNonce.data == old(strategy.encryptNonce.data)
      ensures var h := HeaderAt(rule, ssrc, old(issued));
        && strategy.nonceStrategy.counter ==
             old(strategy.nonceStrategy.counter) + (if strategy.nonceStrategy.policy.Lite? && Encodable(h) then 1 else 0)
        && (r.Ok? <==> Encodable(h) && GenerateFits(strategy.nonceStrategy.policy, h, strategy.nonceStrategy.counter))
        && (r.Ok? ==> r.value == Packet(strategy, h, strategy.nonceStrategy.counter, frame, random))
        && strategy.lastRoc == if Encodable(h) then CountersAfter(rule, issued).roc else old(strategy.lastRoc)
    {
      ClearScratch(12 + |frame| + TagSize + NonceSize);
      var h := GetRtpHeader();
      r := Assemble(h, frame, random);
    }

    /** The rest of `provide`: `write_rtp_header`, `encrypt_rtp` and `view()` on the cleared scratch buffer. */
    method Assemble(h: RtpHeader, frame: seq<byte>, random: seq<byte>) returns (r: Result<seq<byte>>)
      requires strategy.Valid()
      requires |random| == NonceSize
      requires cursor != strategy.encryptNonce && cursor != strategy.nonceStrategy.stripCursor
      requires cursor.data != strategy.encryptNonce.data
      requires cursor.position == 0 && cursor.data[..] == Zeros(cursor.data.Length)
      requires cursor.data.Length >= 12 + |frame| + Overhead
      modifies cursor, cursor.data, strategy, strategy.nonceStrategy, strategy.encryptNonce, strategy.encryptNonce.data
      ensures strategy.Valid() && cursor.data == old(cursor.data)
      ensures strategy.lastRoc == if Encodable(h) then roc else old(strategy.lastRoc)
      ensures strategy.encryptNonce.data == old(strategy.encryptNonce.data)
      ensures strategy.nonceStrategy.counter ==
                old(strategy.nonceStrategy.counter) + (if strategy.nonceStrategy.policy.Lite? && Encodable(h) then 1 else 0)
      ensures r.Ok? <==> Encodable(h) && GenerateFits(strategy.nonceStrategy.policy, h, strategy.nonceStrategy.counter)
      ensures r.Ok? ==> r.value == Packet(strategy, h, strategy.nonceStrategy.counter, frame, random)
    {
      ghost var zeroed := cursor.data[..];
      var w := WriteRtpHeader(cursor, h);
      if w.Err? {
        return Err(w.error);
      }
      ghost var withHeader := cursor.data[..];
      var e := strategy.EncryptRtp(cursor, h, roc, frame, random);
      if e.Err? {
        return Err(e.error);
      }
      ghost var p := strategy.nonceStrategy.policy;
      ghost var n := Nonce(p, h, strategy.nonceStrategy.counter, random);
      ghost var out := strategy.seal(frame, n, strategy.secretKey) + Trailer(p, strategy.nonceStrategy.counter, n);
      assert cursor.data[..] == Splice(withHeader, 12, out);
      r := Ok(cursor.View(0, cursor.position));
      assert r.value == HeaderBytes(h) + out by {
        SpliceConcat(zeroed, 0, HeaderBytes(h), out);
        PrefixOfSplice(zeroed, HeaderBytes(h) + out);
      }
      assert Packet(strategy, h, strategy.nonceStrategy.counter, frame, random) == HeaderBytes(h) + out;
    }
  }

  /** Writing `b` at the start of `s` leaves `b` as the prefix. */
  lemma PrefixOfSplice(s: seq<byte>, b: seq<byte>)
    requires |b| <= |s|
    ensures Splice(s, 0, b)[..|b|] == b
  {
  }
}
