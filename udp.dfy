/**
 * IP discovery ("hole-punch") for the voice UDP socket: the 74-byte request carrying the session's
 * ssrc, and the parse of the server's answer into the external address and port.
 */
module Udp {
  import opened Bytes
  import opened Errors
  import opened MutableCursor

  /** The size of the discovery request. */
  const DiscoverySize: nat := 74

  /** The request type (1) and the length of what follows the first four bytes (70). */
  const RequestType: nat := 1
  const RequestLength: nat := 70

  /** `Address`: the ip (its bytes; the UTF-8 decoding is not modelled) and the port. */
  datatype Address = Address(ip: seq<byte>, port: nat)

  /**
   * The `holepunch_packet` of `holepunch`: `with_size(74)`, then BE16 1, BE16 70 and the ssrc as BE32.
   * The write of an ssrc outside 32 bits throws; otherwise the packet is the type, the length, the
   * ssrc and 66 zero bytes.
   */
  method BuildHolepunchPacket(ssrc: int) returns (r: Result<seq<byte>>)
    ensures r.Ok? <==> 0 <= ssrc < Pow256(4)
    ensures r.Err? ==> r.error == ValueOutOfRange
    ensures r.Ok? ==> |r.value| == DiscoverySize
    ensures r.Ok? ==> FromBigEndian(r.value[0..2]) == RequestType && FromBigEndian(r.value[2..4]) == RequestLength
    ensures r.Ok? ==> FromBigEndian(r.value[4..8]) == ssrc
    ensures r.Ok? ==> r.value == BigEndian(RequestType, 2) + BigEndian(RequestLength, 2) + BigEndian(ssrc, 4) + Zeros(66)
  {
    var c := BufferCursor.WithSize(DiscoverySize);
    var w := c.WriteUint16BE(RequestType);
    assert w.Ok?;
    w := c.WriteUint16BE(RequestLength);
    assert w.Ok?;
    w := c.WriteUint32BE(ssrc);
    if w.Err? {
      return Err(w.error);
    }
    r := Ok(c.data[..]);
    assert r.value == BigEndian(RequestType, 2) + BigEndian(RequestLength, 2) + BigEndian(ssrc, 4) + Zeros(66);
    assert r.value[0..2] == BigEndian(RequestType, 2) && r.value[2..4] == BigEndian(RequestLength, 2);
    assert r.value[4..8] == BigEndian(ssrc, 4);
    BigEndianRoundTrip(RequestType, 2);
    BigEndianRoundTrip(RequestLength, 2);
    BigEndianRoundTrip(ssrc, 4);
  }

  /** `buf.indexOf(v, from)`: the first index at or after `from` holding `v`, or -1. */
  function IndexOf(s: seq<byte>, v: byte, from: nat): (r: int)
    ensures r == -1 <==> forall i :: from <= i < |s| ==> s[i] != v
    ensures r != -1 ==> from <= r < |s| && s[r] == v && forall i :: from <= i < r ==> s[i] != v
    decreases |s| - from
  {
    if from >= |s| then -1 else if s[from] == v then from else IndexOf(s, v, from + 1)
  }

  /**
   * The `message` handler of `holepunch`: the ip is `resp.slice(8, resp.indexOf(0, 8))` and the port
   * the BE16 of the last two bytes, whose read throws when the response is shorter than 2 bytes.
   */
  function ParseHolepunchResponse(resp: seq<byte>): (r: Result<Address>)
    ensures r.Err? <==> |resp| < 2
    ensures r.Err? ==> r.error == OffsetOutOfRange
    ensures r.Ok? ==> r.value.port == FromBigEndian(resp[|resp| - 2..]) && r.value.port < Pow256(2)
    ensures r.Ok? && IndexOf(resp, 0, 8) != -1 ==> r.value.ip == resp[8..IndexOf(resp, 0, 8)]
    ensures r.Ok? ==> forall i :: 0 <= i < |r.value.ip| ==> r.value.ip[i] != 0
  {
    var ip := Subarray(resp, 8, IndexOf(resp, 0, 8));
    if |resp| < 2 then Err(OffsetOutOfRange)
    else Ok(Address(ip, FromBigEndian(resp[|resp| - 2..])))
  }

  /**
   * Without a zero byte after offset 8 the end index is -1, which `slice` counts from the end: the ip
   * then runs to the second-last byte.
   */
  lemma NoTerminatorSlice(resp: seq<byte>)
    requires |resp| > 8 && IndexOf(resp, 0, 8) == -1
    ensures ParseHolepunchResponse(resp).value.ip == resp[8..|resp| - 1]
  {
  }

  /** A response `x[0..8) ++ ip ++ 0 ++ rest ++ BE16(port)` with a NUL-free ip parses to exactly that ip and port. */
  lemma ParseRoundTrip(prefix: seq<byte>, ip: seq<byte>, rest: seq<byte>, port: nat)
    requires |prefix| == 8 && port < Pow256(2)
    requires forall i :: 0 <= i < |ip| ==> ip[i] != 0
    ensures ParseHolepunchResponse(prefix + ip + [0] + rest + BigEndian(port, 2)) == Ok(Address(ip, port))
  {
    var resp := prefix + ip + [0] + rest + BigEndian(port, 2);
    IndexOfFirstZero(resp, 8 + |ip|);
    assert resp[8..8 + |ip|] == ip;
    assert resp[|resp| - 2..] == BigEndian(port, 2);
    BigEndianRoundTrip(port, 2);
  }

  /** `IndexOf` finds the zero at `k` when the bytes from 8 up to it hold none. */
  lemma IndexOfFirstZero(s: seq<byte>, k: nat)
    requires 8 <= k < |s| && s[k] == 0
    requires forall i :: 8 <= i < k ==> s[i] != 0
    ensures IndexOf(s, 0, 8) == k
  {
  }
}
