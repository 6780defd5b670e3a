/**
 * The xsalsa20-poly1305 encryption strategy and its three nonce policies. The secretbox cipher is
 * opaque: a `Sealer` is any function whose output is 16 bytes (the Poly1305 tag) longer than its input.
 */
module Poly1305 {
  import opened Bytes
  import opened Errors
  import opened MutableCursor
  import opened ReadonlyCursor
  import opened Rtp

  /** `XSALSA20_POLY1305_NONCE_LENGTH`. */
  const NonceSize: nat := 24

  /** The length of the Poly1305 tag `crypto_secretbox_easy` adds. */
  const TagSize: nat := 16

  /** `crypto_secretbox_easy(message, nonce, key)`. */
  type Sealer = f: (seq<byte>, seq<byte>, seq<byte>) -> seq<byte>
    | forall m, n, k :: |f(m, n, k)| == |m| + TagSize
    witness (m: seq<byte>, n: seq<byte>, k: seq<byte>) => m + Zeros(TagSize)

  /** `crypto_secretbox_open_easy(box, nonce, key)`: the message, or null when authentication fails. */
  type Opener = (seq<byte>, seq<byte>, seq<byte>) -> Option<seq<byte>>

  datatype NoncePolicy = Normal | Suffix | Lite

  /** The `name` of each nonce strategy object. */
  function PolicyName(p: NoncePolicy): string {
    match p
    case Normal => "normal"
    case Suffix => "suffix"
    case Lite => "lite"
  }

  /** The `nonce_length` of each policy: how many trailer bytes follow the ciphertext. */
  function NonceLength(p: NoncePolicy): nat {
    match p
    case Normal => 0
    case Suffix => NonceSize
    case Lite => 4
  }

  /**
   * The `name` of the encryption strategy. `+` binds tighter than `===`, so the test compares
   * `"xsalsa20_poly1305" + name` with `"normal"`, which never holds.
   */
  function StrategyName(p: NoncePolicy): (r: string)
    ensures r == "_" + PolicyName(p)
    ensures r != "xsalsa20_poly1305" + (if p.Normal? then "" else "_" + PolicyName(p))
  {
    var full := "xsalsa20_poly1305" + PolicyName(p);
    assert |full| > |"normal"|;
    if full == "normal" then "" else "_" + PolicyName(p)
  }

  /** What `generate` writes at the nonce cursor's position. */
  function NonceHead(p: NoncePolicy, h: RtpHeader, counter: nat, random: seq<byte>): seq<byte> {
    match p
    case Normal => HeaderBytes(h)
    case Suffix => random
    case Lite => LittleEndian(counter, 4)
  }

  /** Whether `generate` can write its bytes: the header fields fit, or the lite counter fits 32 bits. */
  predicate GenerateFits(p: NoncePolicy, h: RtpHeader, counter: nat) {
    match p
    case Normal => Encodable(h)
    case Suffix => true
    case Lite => counter < Pow256(4)
  }

  /** The 24-byte nonce buffer after `generate` on a reset, zero-tailed nonce cursor. */
  function Nonce(p: NoncePolicy, h: RtpHeader, counter: nat, random: seq<byte>): (n: seq<byte>)
    requires |random| == NonceSize
    ensures |n| == NonceSize
  {
    var head := NonceHead(p, h, counter, random);
    head + Zeros(NonceSize - |head|)
  }

  /** What `write` appends after the ciphertext, given the nonce buffer. */
  function Trailer(p: NoncePolicy, counter: nat, nonce: seq<byte>): (t: seq<byte>)
    ensures |nonce| == NonceSize ==> |t| == NonceLength(p)
  {
    match p
    case Normal => []
    case Suffix => nonce
    case Lite => LittleEndian(counter, 4)
  }

  /**
   * The trailer is what lets a receiver rebuild the nonce: the suffix trailer is the whole nonce,
   * the lite trailer is the nonce's first 4 bytes and decodes to the counter, and the normal
   * policy sends nothing because its nonce is the header already on the wire.
   */
  lemma TrailerCarriesNonce(p: NoncePolicy, h: RtpHeader, counter: nat, random: seq<byte>)
    requires |random| == NonceSize
    requires GenerateFits(p, h, counter)
    ensures var n := Nonce(p, h, counter, random);
      && |Trailer(p, counter, n)| == NonceLength(p)
      && (p.Normal? ==> n == HeaderBytes(h) + Zeros(12))
      && (p.Suffix? ==> Trailer(p, counter, n) == n && n == random)
      && (p.Lite? ==> n == Trailer(p, counter, n) + Zeros(20) && FromLittleEndian(Trailer(p, counter, n)) == counter)
  {
    if p.Lite? {
      LittleEndianRoundTrip(counter, 4);
    }
  }

  /** The `decrypt_rtp` nonce of the normal policy: the packet's first 12 bytes, then 12 zeros. */
  function NormalDecryptNonce(packet: seq<byte>): (n: seq<byte>)
    ensures |packet| >= 12 ==> |n| == NonceSize
  {
    Subarray(packet, 0, 12) + Zeros(12)
  }

  /** A packet that starts with the header's bytes yields, on decrypt, the nonce it was sealed under. */
  lemma NormalNonceRoundTrip(h: RtpHeader, rest: seq<byte>, counter: nat, random: seq<byte>)
    requires |random| == NonceSize
    ensures NormalDecryptNonce(HeaderBytes(h) + rest) == Nonce(Normal, h, counter, random)
  {
    var packet := HeaderBytes(h) + rest;
    assert packet[0..12] == HeaderBytes(h);
  }

  /** A nonce strategy object: its policy, the lite closure counter `seq`, and the closure cursor used by `strip`. */
  class NonceStrategy {
    const policy: NoncePolicy
    var counter: nat
    const stripCursor: BufferCursor

    ghost predicate Valid()
      reads this, stripCursor
    {
      stripCursor.data.Length == NonceSize
    }

    /** `create_poly1305_{normal,suffix,lite}_nonce_strategy()`. */
    constructor (policy: NoncePolicy)
      ensures this.policy == policy && counter == 0
      ensures fresh(stripCursor) && fresh(stripCursor.data)
      ensures stripCursor.data[..] == Zeros(NonceSize) && stripCursor.position == 0
      ensures Valid()
    {
      var cursor := BufferCursor.WithSize(NonceSize);
      this.policy := policy;
      counter := 0;
      stripCursor := cursor;
    }

    /**
     * `generate(cursor, header)`: the header (normal), 24 random bytes (suffix), or the pre-incremented
     * counter as LE32 (lite). With room at the cursor, it writes exactly `NonceHead` and nothing else.
     */
    method Generate(c: BufferCursor, h: RtpHeader, random: seq<byte>, randomIsBuffer: bool) returns (r: Outcome)
      requires |random| == NonceSize
      modifies this, c, c.data
      ensures c.data == old(c.data)
      ensures counter == if policy.Lite? then old(counter) + 1 else old(counter)
      ensures old(c.position) + |NonceHead(policy, h, counter, random)| <= c.data.Length ==>
                (r.Ok? <==> GenerateFits(policy, h, counter)) &&
                (r.Ok? ==> c.data[..] == Splice(old(c.data[..]), old(c.position), NonceHead(policy, h, counter, random)) &&
                           c.position == old(c.position) + |NonceHead(policy, h, counter, random)|) &&
                (r.Err? ==> SameOutside(old(c.data[..]), c.data[..], old(c.position), old(c.position) + |NonceHead(policy, h, counter, random)|))
    {
      match policy {
        case Normal =>
          r := WriteRtpHeader(c, h);
        case Suffix =>
          r := c.WriteBytes(random, 0, |random|, true, randomIsBuffer);
        case Lite =>
          counter := counter + 1;
          r := c.WriteUint32LE(counter);
      }
    }

    /** `write(cursor, nonce)`: nothing (normal), the nonce buffer (suffix), or the counter as LE32 (lite). */
    method Write(c: BufferCursor, nonce: seq<byte>) returns (r: Outcome)
      modifies c, c.data
      ensures c.data == old(c.data)
      ensures policy.Normal? ==> r.Ok? && c.position == old(c.position) && c.data[..] == old(c.data[..])
      ensures old(c.position) + |Trailer(policy, counter, nonce)| <= c.data.Length ==>
                (r.Ok? <==> (policy.Lite? ==> counter < Pow256(4))) &&
                (r.Ok? ==> c.data[..] == Splice(old(c.data[..]), old(c.position), Trailer(policy, counter, nonce)) &&
                           c.position == old(c.position) + |Trailer(policy, counter, nonce)|) &&
                (r.Err? ==> c.data[..] == old(c.data[..]) && c.position == old(c.position))
    {
      match policy {
        case Normal =>
          r := Ok(());
        case Suffix =>
          r := c.WriteBytes(nonce, 0, |nonce|, true, true);
        case Lite =>
          r := c.WriteUint32LE(counter);
      }
    }

    /**
     * `strip(packet, header)`. Normal resets its cursor and writes the header. Suffix and lite never
     * reset theirs: they copy `packet.data` from offset `cursor.data.length - 24`, which is 0, or its
     * last 4 bytes, at wherever the cursor stands, and return the whole 24-byte buffer.
     */
    method Strip(packet: ReadonlyBufferCursor, h: RtpHeader) returns (r: Result<seq<byte>>)
      requires Valid()
      modifies stripCursor, stripCursor.data
      ensures Valid() && stripCursor.data == old(stripCursor.data)
      ensures r.Ok? ==> r.value == stripCursor.data[..]
      ensures policy.Normal? ==>
                (r.Ok? <==> Encodable(h)) &&
                (r.Ok? ==> stripCursor.data[..] == Splice(old(stripCursor.data[..]), 0, HeaderBytes(h)) && stripCursor.position == 12)
      ensures !policy.Normal? ==>
                var tail := if policy.Suffix? then Subarray(packet.data, 0, |packet.data|)
                            else Subarray(packet.data, |packet.data| - 4, |packet.data|);
                var copied := CopyBytes(tail, old(stripCursor.data[..]), old(stripCursor.position), 0, |tail|);
                r.Ok? && copied.Ok? && stripCursor.data[..] == copied.value &&
                stripCursor.position == old(stripCursor.position) + |tail|
      ensures policy.Lite? && old(stripCursor.position) == 0 && |packet.data| >= 4 ==>
                r.Ok? && r.value[..4] == packet.data[|packet.data| - 4..]
      ensures policy.Suffix? && old(stripCursor.position) == 0 && |packet.data| <= NonceSize ==>
                r.Ok? && r.value == Splice(old(stripCursor.data[..]), 0, packet.data)
    {
      match policy {
        case Normal =>
          stripCursor.Reset();
          var o := WriteRtpHeader(stripCursor, h);
          if o.Err? {
            return Err(o.error);
          }
        case Suffix =>
          var tail := Subarray(packet.data, stripCursor.data.Length - NonceSize, |packet.data|);
          var _ := stripCursor.WriteBytes(tail, 0, |tail|, true, true);
        case Lite =>
          var tail := Subarray(packet.data, |packet.data| - 4, |packet.data|);
          var _ := stripCursor.WriteBytes(tail, 0, |tail|, true, true);
      }
      r := Ok(stripCursor.data[..]);
    }
  }

  /** The object `create_poly1305_encryption_strategy(secret_key, nonce_strategy)` returns. */
  class Poly1305Strategy {
    const secretKey: seq<byte>
    const nonceStrategy: NonceStrategy
    const encryptNonce: BufferCursor
    const seal: Sealer
    const open: Opener
    /** Whether the secretbox binding hands back Node `Buffer`s (the copy branch of `write_bytes`). */
    const sodiumBuffers: bool
    /** The rollover counter the last `encrypt_rtp` call was handed, which the secretbox ignores. */
    ghost var lastRoc: nat

    /**
     * The nonce cursor is 24 bytes, separate from the policy's own cursor, and zero past what
     * `generate` writes, so every nonce is `Nonce(...)`.
     */
    ghost predicate Valid()
      reads this, nonceStrategy, nonceStrategy.stripCursor, encryptNonce, encryptNonce.data
    {
      && nonceStrategy.Valid()
      && encryptNonce.data.Length == NonceSize
      && encryptNonce != nonceStrategy.stripCursor
      && encryptNonce.data != nonceStrategy.stripCursor.data
      && AllZero(encryptNonce.data[NonceHeadLength(nonceStrategy.policy)..])
    }

    constructor (secretKey: seq<byte>, nonceStrategy: NonceStrategy, seal: Sealer, open: Opener, sodiumBuffers: bool)
      requires nonceStrategy.Valid()
      ensures this.secretKey == secretKey && this.nonceStrategy == nonceStrategy
      ensures this.seal == seal && this.open == open && this.sodiumBuffers == sodiumBuffers
      ensures fresh(encryptNonce) && fresh(encryptNonce.data)
      ensures Valid()
    {
      var cursor := BufferCursor.WithSize(NonceSize);
      this.secretKey := secretKey;
      this.nonceStrategy := nonceStrategy;
      encryptNonce := cursor;
      this.seal := seal;
      this.open := open;
      this.sodiumBuffers := sodiumBuffers;
      lastRoc := 0;
    }

    /** The strategy's `name`. */
    function Name(): (r: string)
      reads this, nonceStrategy
      ensures r == "_" + PolicyName(nonceStrategy.policy)
    {
      StrategyName(nonceStrategy.policy)
    }

    /**
     * `encrypt_rtp(cursor, header, roc, payload)`: generate the nonce on the reset nonce cursor, size the
     * packet buffer, then write the secretbox of the payload and the policy's trailer. When the packet
     * buffer has room, it fails exactly when `generate` does, before the packet is touched, and otherwise
     * appends `seal(payload, nonce) ++ trailer`. The rollover counter is not used.
     */
    method EncryptRtp(c: BufferCursor, h: RtpHeader, roc: nat, payload: seq<byte>, random: seq<byte>) returns (r: Outcome)
      requires Valid()
      requires |random| == NonceSize
      requires c != encryptNonce && c != nonceStrategy.stripCursor && c.data != encryptNonce.data
      modifies this, nonceStrategy, encryptNonce, encryptNonce.data, c, c.data
      ensures Valid() && encryptNonce.data == old(encryptNonce.data)
      ensures lastRoc == roc
      ensures nonceStrategy.counter == if nonceStrategy.policy.Lite? then old(nonceStrategy.counter) + 1 else old(nonceStrategy.counter)
      ensures !GenerateFits(nonceStrategy.policy, h, nonceStrategy.counter) ==>
                r.Err? && c.data == old(c.data) && c.data[..] == old(c.data[..]) && c.position == old(c.position)
      ensures GenerateFits(nonceStrategy.policy, h, nonceStrategy.counter) &&
              old(c.position) + |payload| + TagSize + NonceLength(nonceStrategy.policy) <= old(c.data.Length) ==>
                var p := nonceStrategy.policy;
                var n := Nonce(p, h, nonceStrategy.counter, random);
                var out := seal(payload, n, secretKey) + Trailer(p, nonceStrategy.counter, n);
                r.Ok? && c.data == old(c.data) &&
                c.data[..] == Splice(old(c.data[..]), old(c.position), out) &&
                c.position == old(c.position) + |out|
    {
      lastRoc := roc;
      var g := GenerateNonce(h, random);
      if g.Err? {
        return g;
      }
      ghost var p0 := c.position;
      ghost var d0 := c.data[..];
      var _ := c.Resize(|payload| + NonceLength(nonceStrategy.policy) + TagSize, false);
      var nonce := encryptNonce.data[..];
      var sealed := seal(payload, nonce, secretKey);
      r := c.WriteBytes(sealed, 0, |sealed|, true, sodiumBuffers);
      if r.Err? {
        return;
      }
      ghost var d1 := c.data[..];
      r := nonceStrategy.Write(c, nonce);
      if r.Ok? && p0 + |payload| + TagSize + NonceLength(nonceStrategy.policy) <= |d0| {
        SpliceConcat(d0, p0, sealed, Trailer(nonceStrategy.policy, nonceStrategy.counter, nonce));
      }
    }

    /** The first two steps of `encrypt_rtp`: reset the nonce cursor and let the policy generate on it. */
    method GenerateNonce(h: RtpHeader, random: seq<byte>) returns (g: Outcome)
      requires Valid()
      requires |random| == NonceSize
      modifies nonceStrategy, encryptNonce, encryptNonce.data
      ensures Valid() && encryptNonce.data == old(encryptNonce.data)
      ensures nonceStrategy.counter == if nonceStrategy.policy.Lite? then old(nonceStrategy.counter) + 1 else old(nonceStrategy.counter)
      ensures g.Ok? <==> GenerateFits(nonceStrategy.policy, h, nonceStrategy.counter)
      ensures g.Ok? ==> encryptNonce.data[..] == Nonce(nonceStrategy.policy, h, nonceStrategy.counter, random)
    {
      encryptNonce.Reset();
      ghost var before := encryptNonce.data[..];
      g := nonceStrategy.Generate(encryptNonce, h, random, sodiumBuffers);
      ghost var headLen := NonceHeadLength(nonceStrategy.policy);
      assert |NonceHead(nonceStrategy.policy, h, nonceStrategy.counter, random)| == headLen;
      if g.Err? {
        assert AllZero(encryptNonce.data[headLen..]) by {
          forall i | headLen <= i < NonceSize
            ensures encryptNonce.data[i] == 0
          {
            assert before[headLen..][i - headLen] == 0;
          }
        }
        return;
      }
      NonceAfterGenerate(before, nonceStrategy.policy, h, nonceStrategy.counter, random);
    }

    /**
     * `decrypt_rtp(header, packet, encrypted)`: the normal policy rebuilds the nonce from the packet's first
     * 12 bytes; the others take whatever their `strip` returns, which never throws. The whole of
     * `encrypted.data` is opened.
     */
    method DecryptRtp(h: RtpHeader, packet: seq<byte>, encrypted: ReadonlyBufferCursor) returns (r: Option<seq<byte>>)
      requires Valid()
      modifies nonceStrategy.stripCursor, nonceStrategy.stripCursor.data
      ensures Valid()
      ensures nonceStrategy.policy.Normal? ==>
                r == open(encrypted.data, NormalDecryptNonce(packet), secretKey) &&
                nonceStrategy.stripCursor.position == old(nonceStrategy.stripCursor.position) &&
                nonceStrategy.stripCursor.data[..] == old(nonceStrategy.stripCursor.data[..])
      ensures !nonceStrategy.policy.Normal? ==>
                r == open(encrypted.data, nonceStrategy.stripCursor.data[..], secretKey)
      ensures !nonceStrategy.policy.Normal? ==>
                var tail := if nonceStrategy.policy.Suffix? then Subarray(encrypted.data, 0, |encrypted.data|)
                            else Subarray(encrypted.data, |encrypted.data| - 4, |encrypted.data|);
                var copied := CopyBytes(tail, old(nonceStrategy.stripCursor.data[..]), old(nonceStrategy.stripCursor.position), 0, |tail|);
                copied.Ok? && nonceStrategy.stripCursor.data[..] == copied.value &&
                nonceStrategy.stripCursor.position == old(nonceStrategy.stripCursor.position) + |tail|
    {
      if nonceStrategy.policy.Normal? {
        var nonce := Subarray(packet, 0, 12) + Zeros(12);
        return open(encrypted.data, nonce, secretKey);
      }
      var nonce := nonceStrategy.Strip(encrypted, h);
      assert nonce.Ok?;
      r := open(encrypted.data, nonce.value, secretKey);
    }
  }

  /** How many leading nonce bytes `generate` writes. */
  function NonceHeadLength(p: NoncePolicy): nat {
    match p
    case Normal => 12
    case Suffix => NonceSize
    case Lite => 4
  }

  /** On a zero-tailed 24-byte buffer, writing the head at 0 leaves exactly the policy's nonce. */
  lemma NonceAfterGenerate(before: seq<byte>, p: NoncePolicy, h: RtpHeader, counter: nat, random: seq<byte>)
    requires |random| == NonceSize && |before| == NonceSize
    requires AllZero(before[NonceHeadLength(p)..])
    ensures |NonceHead(p, h, counter, random)| == NonceHeadLength(p)
    ensures Splice(before, 0, NonceHead(p, h, counter, random)) == Nonce(p, h, counter, random)
  {
    var head := NonceHead(p, h, counter, random);
    var l := Splice(before, 0, head);
    var n := Nonce(p, h, counter, random);
    forall i | 0 <= i < NonceSize
      ensures l[i] == n[i]
    {
      if i >= |head| {
        assert before[NonceHeadLength(p)..][i - |head|] == 0;
      }
    }
  }
}
