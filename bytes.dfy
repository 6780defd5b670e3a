/** Bytes, fixed-width integer encodings and the Node `Buffer` primitives the cursors rely on. */
module Bytes {
  import opened Errors

  type byte = b: int | 0 <= b < 256

  function Pow256(n: nat): (r: nat)
    ensures r > 0
  {
    if n == 0 then 1 else 256 * Pow256(n - 1)
  }

  /** `Buffer.alloc(n)`: a zero-filled buffer. */
  function Zeros(n: nat): (r: seq<byte>)
    ensures |r| == n
    ensures forall i :: 0 <= i < n ==> r[i] == 0
  {
    seq(n, _ => 0)
  }

  predicate AllZero(s: seq<byte>) {
    forall i :: 0 <= i < |s| ==> s[i] == 0
  }

  /** The `n` low bytes of `v`, most significant first (`writeUIntBE`). */
  function BigEndian(v: nat, n: nat): (r: seq<byte>)
    ensures |r| == n
  {
    if n == 0 then [] else BigEndian(v / 256, n - 1) + [v % 256]
  }

  /** The value of `s` read most significant byte first (`readUIntBE`). */
  function FromBigEndian(s: seq<byte>): (v: nat)
    ensures v < Pow256(|s|)
  {
    if s == [] then 0 else FromBigEndian(s[..|s| - 1]) * 256 + s[|s| - 1]
  }

  /** The `n` low bytes of `v`, least significant first (`writeUIntLE`). */
  function LittleEndian(v: nat, n: nat): (r: seq<byte>)
    ensures |r| == n
  {
    if n == 0 then [] else [v % 256] + LittleEndian(v / 256, n - 1)
  }

  /** The value of `s` read least significant byte first (`readUIntLE`). */
  function FromLittleEndian(s: seq<byte>): (v: nat)
    ensures v < Pow256(|s|)
  {
    if s == [] then 0 else s[0] + 256 * FromLittleEndian(s[1..])
  }

  lemma {:induction false} BigEndianRoundTrip(v: nat, n: nat)
    requires v < Pow256(n)
    ensures FromBigEndian(BigEndian(v, n)) == v
  {
    if n > 0 {
      var s := BigEndian(v, n);
      assert s[..n - 1] == BigEndian(v / 256, n - 1);
      BigEndianRoundTrip(v / 256, n - 1);
    }
  }

  lemma {:induction false} FromBigEndianRoundTrip(s: seq<byte>)
    ensures BigEndian(FromBigEndian(s), |s|) == s
  {
    if s != [] {
      var p := s[..|s| - 1];
      var v := FromBigEndian(s);
      assert v / 256 == FromBigEndian(p) && v % 256 == s[|s| - 1];
      FromBigEndianRoundTrip(p);
      assert s == p + [s[|s| - 1]];
    }
  }

  lemma {:induction false} LittleEndianRoundTrip(v: nat, n: nat)
    requires v < Pow256(n)
    ensures FromLittleEndian(LittleEndian(v, n)) == v
  {
    if n > 0 {
      var s := LittleEndian(v, n);
      assert s[1..] == LittleEndian(v / 256, n - 1);
      LittleEndianRoundTrip(v / 256, n - 1);
    }
  }

  lemma {:induction false} FromLittleEndianRoundTrip(s: seq<byte>)
    ensures LittleEndian(FromLittleEndian(s), |s|) == s
  {
    if s != [] {
      var v := FromLittleEndian(s);
      assert v / 256 == FromLittleEndian(s[1..]) && v % 256 == s[0];
      FromLittleEndianRoundTrip(s[1..]);
      assert s == [s[0]] + s[1..];
    }
  }

  /** `s` with `b` written over it from index `at`. */
  function Splice(s: seq<byte>, at: nat, b: seq<byte>): (r: seq<byte>)
    requires at + |b| <= |s|
    ensures |r| == |s|
    ensures forall i :: 0 <= i < |s| ==> r[i] == if at <= i < at + |b| then b[i - at] else s[i]
  {
    s[..at] + b + s[at + |b|..]
  }

  /** `b` differs from `a` at most in the index range `[lo, hi)`. */
  predicate SameOutside(a: seq<byte>, b: seq<byte>, lo: int, hi: int) {
    |a| == |b| && forall i :: 0 <= i < |a| && !(lo <= i < hi) ==> a[i] == b[i]
  }

  /** Changes confined to a range compose, and stay confined to any wider range. */
  lemma SameOutsideTrans(a: seq<byte>, b: seq<byte>, c: seq<byte>, lo: int, hi: int, lo': int, hi': int)
    requires SameOutside(a, b, lo, hi) && SameOutside(b, c, lo', hi')
    ensures SameOutside(a, c, Min(lo, lo'), if hi < hi' then hi' else hi)
  {
  }

  /** Two adjacent writes are one write of their concatenation. */
  lemma SpliceConcat(s: seq<byte>, at: nat, a: seq<byte>, b: seq<byte>)
    requires at + |a| + |b| <= |s|
    ensures Splice(Splice(s, at, a), at + |a|, b) == Splice(s, at, a + b)
  {
    var l := Splice(Splice(s, at, a), at + |a|, b);
    var r := Splice(s, at, a + b);
    assert forall i :: 0 <= i < |s| ==> l[i] == r[i];
  }

  /** Storing one byte is a one-byte write. */
  lemma SpliceOne(s: seq<byte>, at: nat, x: byte)
    requires at < |s|
    ensures s[at := x] == Splice(s, at, [x])
  {
    assert forall i :: 0 <= i < |s| ==> s[at := x][i] == Splice(s, at, [x])[i];
  }

  function Min(a: int, b: int): int {
    if a < b then a else b
  }

  /** How `TypedArray.prototype.subarray` normalises an index: negative counts from the end, then clamp. */
  function RelativeIndex(i: int, len: nat): (r: nat)
    ensures r <= len
    ensures 0 <= i <= len ==> r == i
    ensures i < 0 && len + i >= 0 ==> r == len + i
  {
    if i < 0 then (if len + i < 0 then 0 else len + i) else if i > len then len else i
  }

  /** `buf.subarray(start, end)` (and `buf.slice`), as a value. */
  function Subarray(s: seq<byte>, start: int, end: int): (r: seq<byte>)
    ensures |r| <= |s|
    ensures 0 <= start <= end <= |s| ==> r == s[start..end]
    ensures start > end >= 0 ==> r == []
  {
    var b := RelativeIndex(start, |s|);
    var e := RelativeIndex(end, |s|);
    if b <= e then s[b..e] else []
  }

  /** The element a typed array yields at index `i`, where `undefined` (out of range) is stored as 0. */
  function ByteAt(s: seq<byte>, i: nat): (b: byte)
    ensures i < |s| ==> b == s[i]
    ensures i >= |s| ==> b == 0
  {
    if i < |s| then s[i] else 0
  }

  /**
   * `target` after `source.copy(target, targetStart, sourceStart, sourceEnd)` (Node 18 semantics):
   * nothing is copied when the target start is past the end or the source range is empty; otherwise
   * a source start past the end throws; otherwise as many bytes are copied as fit in both buffers.
   */
  function CopyBytes(source: seq<byte>, target: seq<byte>, targetStart: nat, sourceStart: nat, sourceEnd: nat)
    : (r: Result<seq<byte>>)
    ensures r.Ok? ==> |r.value| == |target|
    ensures r.Err? <==> targetStart < |target| && sourceStart < sourceEnd && sourceStart > |source|
    ensures r.Err? ==> r.error == SourceStartOutOfRange
    ensures sourceStart <= sourceEnd <= |source| && targetStart + (sourceEnd - sourceStart) <= |target| ==>
              r == Ok(Splice(target, targetStart, source[sourceStart..sourceEnd]))
  {
    if targetStart >= |target| || sourceStart >= sourceEnd then
      assert sourceStart == sourceEnd && targetStart <= |target| ==> Splice(target, targetStart, []) == target;
      Ok(target)
    else if sourceStart > |source| then Err(SourceStartOutOfRange)
    else
      var n := Min(Min(sourceEnd - sourceStart, |target| - targetStart), |source| - sourceStart);
      Ok(Splice(target, targetStart, source[sourceStart..sourceStart + n]))
  }

  /** `newData` of `BufferCursor.resize`: the first min(|s|, n) bytes are kept, the rest is zero. */
  function Resized(s: seq<byte>, n: nat): (r: seq<byte>)
    ensures |r| == n
    ensures forall i :: 0 <= i < n ==> r[i] == if i < |s| then s[i] else 0
  {
    if n <= |s| then s[..n] else s + Zeros(n - |s|)
  }
}
