/**
 * The DCA container reader: the file header (the magic `DCA`, a version digit and, for DCA1, a
 * length-prefixed JSON metadata block) and the LE16 length-prefixed Opus packets that follow.
 */
module Dca {
  import opened Bytes
  import opened Errors
  import opened ReadonlyCursor

  /** `MAGIC_BYTES`: "DCA". */
  const Magic: seq<byte> := [68, 67, 65]

  /** The byte `'1'` that marks DCA1. */
  const VersionOneDigit: byte := 49

  /** `DcaPacket`: the length prefix and the bytes read for it. */
  datatype DcaPacket = DcaPacket(length: nat, bytes: seq<byte>)

  /** The header: `{dca: {version: 0}}` without the magic, or the raw DCA1 JSON metadata. */
  datatype DcaHeader = Version0 | Metadata(json: seq<byte>)

  /** `read_dca_packet` from `pos`: the result and the position after it. */
  function PacketRead(data: seq<byte>, pos: nat): (r: (Result<DcaPacket>, nat))
    ensures r.0.Ok? <==> pos + 2 <= |data|
    ensures r.0.Err? ==> r.0.error == NotEnoughBytes && r.1 == pos
    ensures r.0.Ok? ==> r.0.value.length == FromLittleEndian(data[pos..pos + 2])
    ensures r.0.Ok? ==> |r.0.value.bytes| == r.0.value.length && r.1 == pos + 2 + r.0.value.length
    ensures r.0.Ok? && r.1 <= |data| ==> r.0.value.bytes == data[pos + 2..r.1]
  {
    if |data| < pos + 2 then (Err(NotEnoughBytes), pos)
    else
      var length := FromLittleEndian(data[pos..pos + 2]);
      (Ok(DcaPacket(length, BytesRead(data, pos + 2, length).value)), pos + 2 + length)
  }

  /** `read_dca_packet(cursor)`: `read_uint_le(2)` for the length, then `read_bytes(length)`. */
  method ReadDcaPacket(c: ReadonlyBufferCursor) returns (r: Result<DcaPacket>)
    modifies c
    ensures c.data == old(c.data)
    ensures (r, c.position) == PacketRead(old(c.data), old(c.position))
  {
    var length := c.ReadUintLE(2);
    if length.Err? {
      return Err(length.error);
    }
    var bytes := c.ReadBytes(length.value);
    r := Ok(DcaPacket(length.value, bytes.value));
  }

  /**
   * A packet written at `p` as its LE16 length and its bytes reads back as itself, and the next
   * packet starts right after it.
   */
  lemma PacketRoundTrip(data: seq<byte>, p: nat, bytes: seq<byte>)
    requires |bytes| < Pow256(2) && p + 2 + |bytes| <= |data|
    requires data[p..p + 2] == LittleEndian(|bytes|, 2) && data[p + 2..p + 2 + |bytes|] == bytes
    ensures PacketRead(data, p) == (Ok(DcaPacket(|bytes|, bytes)), p + 2 + |bytes|)
  {
    LittleEndianRoundTrip(|bytes|, 2);
    PacketWithLength(data, p, bytes);
  }

  lemma PacketWithLength(data: seq<byte>, p: nat, bytes: seq<byte>)
    requires p + 2 + |bytes| <= |data| && FromLittleEndian(data[p..p + 2]) == |bytes|
    requires data[p + 2..p + 2 + |bytes|] == bytes
    ensures PacketRead(data, p) == (Ok(DcaPacket(|bytes|, bytes)), p + 2 + |bytes|)
  {
  }

  /**
   * `+String.fromCharCode(b)`: a decimal digit is its value, a lone JavaScript whitespace character is
   * 0, and anything else is `NaN` (here `None`).
   */
  function DcaVersionNumber(b: byte): (r: Option<nat>)
    ensures r == Some(1) <==> b == VersionOneDigit
    ensures r.Some? ==> r.value <= 9
    ensures 48 <= b <= 57 ==> r == Some(b - 48)
  {
    if 48 <= b <= 57 then Some(b - 48)
    else if b == 9 || b == 10 || b == 11 || b == 12 || b == 13 || b == 32 || b == 160 then Some(0)
    else None
  }

  /** `read_dca_header` from `pos`: the result and the position after it. */
  function HeaderRead(data: seq<byte>, pos: nat): (r: (Result<DcaHeader>, nat))
    ensures r.0.Err? ==> r.1 == pos || r.1 == pos + 4
    ensures r.0.Ok? ==> pos <= |data| && r.1 >= pos + 4
    ensures r.0.Ok? && r.0.value.Metadata? ==>
              pos + 8 <= |data| && data[pos..pos + 3] == Magic && data[pos + 3] == VersionOneDigit &&
              r.1 == pos + 8 + |r.0.value.json| && FromLittleEndian(data[pos + 4..pos + 8]) == |r.0.value.json|
  {
    var versionBytes := BytesRead(data, pos, 4);
    if versionBytes.Err? then (Err(versionBytes.error), pos)
    else if versionBytes.value[..3] != Magic then (Ok(Version0), pos + 4)
    else
      var version := DcaVersionNumber(versionBytes.value[3]);
      if version != Some(1) then (Err(UnknownDcaVersion(version)), pos + 4)
      else if |data| < pos + 8 then (Err(NotEnoughBytes), pos + 4)
      else
        var jsonLength := FromLittleEndian(data[pos + 4..pos + 8]);
        (Ok(Metadata(BytesRead(data, pos + 8, jsonLength).value)), pos + 8 + jsonLength)
  }

  /**
   * `read_dca_header(dca)`: `read_bytes(4)`, the magic compared byte by byte with an early
   * `{version: 0}`, then the version switch: DCA1 reads an LE32 length and that many bytes of JSON.
   */
  method ReadDcaHeader(dca: ReadonlyBufferCursor) returns (r: Result<DcaHeader>)
    modifies dca
    ensures dca.data == old(dca.data)
    ensures (r, dca.position) == HeaderRead(old(dca.data), old(dca.position))
  {
    var versionBytes := dca.ReadBytes(4);
    if versionBytes.Err? {
      return Err(versionBytes.error);
    }
    var bytes := versionBytes.value;
    for i := 0 to |Magic|
      invariant forall j :: 0 <= j < i ==> bytes[j] == Magic[j]
    {
      if bytes[i] != Magic[i] {
        return Ok(Version0);
      }
    }
    assert bytes[..3] == Magic;
    var version := DcaVersionNumber(bytes[3]);
    if version != Some(1) {
      return Err(UnknownDcaVersion(version));
    }
    var jsonLength := dca.ReadUintLE(4);
    if jsonLength.Err? {
      return Err(jsonLength.error);
    }
    var json := dca.ReadBytes(jsonLength.value);
    r := Ok(Metadata(json.value));
  }

  /** The header always consumes its 4 version bytes first, when the cursor is not past the end. */
  lemma HeaderConsumesVersionBytes(data: seq<byte>, pos: nat)
    ensures pos <= |data| <==> HeaderRead(data, pos).1 >= pos + 4
    ensures pos > |data| ==> HeaderRead(data, pos) == (Err(SourceStartOutOfRange), pos)
  {
  }

  /**
   * Without the magic the header is `{version: 0}` after exactly 4 bytes; this includes a buffer that
   * ends within the magic, whose missing bytes read as zeros.
   */
  lemma NoMagicIsVersion0(data: seq<byte>, pos: nat)
    requires pos <= |data|
    requires pos + 3 <= |data| ==> data[pos..pos + 3] != Magic
    ensures HeaderRead(data, pos) == (Ok(Version0), pos + 4)
  {
    var v := BytesRead(data, pos, 4).value;
    if pos + 3 <= |data| {
      assert v[..3] == data[pos..pos + 3];
    } else {
      assert v[2] == 0;
    }
  }

  /**
   * With the magic, the version is 1 exactly when the fourth byte is `'1'`; every other byte is an
   * unknown version (a digit or whitespace by its value, anything else as `NaN`).
   */
  lemma MagicVersion(data: seq<byte>, pos: nat)
    requires pos + 4 <= |data| && data[pos..pos + 3] == Magic
    ensures HeaderRead(data, pos).0.Ok? ==> data[pos + 3] == VersionOneDigit
    ensures data[pos + 3] != VersionOneDigit ==>
              HeaderRead(data, pos) == (Err(UnknownDcaVersion(DcaVersionNumber(data[pos + 3]))), pos + 4)
    ensures data[pos + 3] == VersionOneDigit && pos + 8 <= |data| ==> HeaderRead(data, pos).0.Ok?
  {
    assert BytesRead(data, pos, 4).value == data[pos..pos + 4];
    assert data[pos..pos + 4][..3] == data[pos..pos + 3];
  }

  /**
   * A DCA1 header written at `p` as `DCA1`, the LE32 length and the JSON reads back to that JSON,
   * and the packets start right after it.
   */
  lemma Dca1RoundTrip(data: seq<byte>, p: nat, json: seq<byte>)
    requires |json| < Pow256(4) && p + 8 + |json| <= |data|
    requires data[p..p + 4] == Magic + [VersionOneDigit]
    requires data[p + 4..p + 8] == LittleEndian(|json|, 4) && data[p + 8..p + 8 + |json|] == json
    ensures HeaderRead(data, p) == (Ok(Metadata(json)), p + 8 + |json|)
  {
    LittleEndianRoundTrip(|json|, 4);
    HeaderWithLength(data, p, json);
  }

  lemma HeaderWithLength(data: seq<byte>, p: nat, json: seq<byte>)
    requires p + 8 + |json| <= |data| && data[p..p + 4] == Magic + [VersionOneDigit]
    requires FromLittleEndian(data[p + 4..p + 8]) == |json| && data[p + 8..p + 8 + |json|] == json
    ensures HeaderRead(data, p) == (Ok(Metadata(json)), p + 8 + |json|)
  {
    var v := BytesRead(data, p, 4);
    assert v.value == Magic + [VersionOneDigit];
    assert v.value[..3] == Magic;
  }
}
