/** The abstract file every client path is measured against: a byte string with
    positional read, positional overlay and resize. */
module FileModel {
  import opened Common

  /** `file[offset .. min(offset + length, eof)]`, empty at or past end of file. */
  function Slice(file: Bytes, offset: nat, length: nat): (s: Bytes)
    ensures |s| == if offset >= |file| then 0 else Min(length, |file| - offset)
  {
    if offset >= |file| then [] else file[offset..Min(offset + length, |file|)]
  }

  function Zeros(n: nat): (z: Bytes)
    ensures |z| == n && forall i :: 0 <= i < n ==> z[i] == 0
  {
    seq(n, i => 0)
  }

  /** What a confirmed WRITE leaves behind: a gap before `offset` reads as zero. */
  function Overlay(file: Bytes, offset: nat, data: Bytes): (f: Bytes)
    ensures data != [] ==> |f| == Max(|file|, offset + |data|)
  {
    if data == [] then file
    else
      var padded := if |file| < offset then file + Zeros(offset - |file|) else file;
      padded[..offset] + data + (if offset + |data| <= |padded| then padded[offset + |data|..] else [])
  }

  /** What a confirmed SET_INFO(FileEndOfFileInformation) leaves behind. */
  function Resize(file: Bytes, length: nat): (f: Bytes)
    ensures |f| == length
  {
    if length <= |file| then file[..length] else file + Zeros(length - |file|)
  }

  /** Reading `m` more bytes after a full read of `n` is reading `n + m`. */
  lemma SliceJoin(file: Bytes, offset: nat, n: nat, m: nat)
    requires |Slice(file, offset, n)| == n
    ensures Slice(file, offset, n + m) == Slice(file, offset, n) + Slice(file, offset + n, m)
  {
    if offset < |file| {
      assert offset + n <= |file|;
    }
  }

  /** A slice that came back short already reaches the end of the file. */
  lemma SliceShort(file: Bytes, offset: nat, n: nat, m: nat)
    requires |Slice(file, offset, n)| < n <= m
    ensures Slice(file, offset, m) == Slice(file, offset, n)
  {}

  /** A full read of `n` followed by a short read of up to `m` ends at the end of the file. */
  lemma SliceJoinShort(file: Bytes, offset: nat, n: nat, m: nat, total: nat)
    requires |Slice(file, offset, n)| == n
    requires |Slice(file, offset + n, m)| < m && n + m <= total
    ensures Slice(file, offset, total) == Slice(file, offset, n) + Slice(file, offset + n, m)
  {
    SliceJoin(file, offset, n, m);
    SliceShort(file, offset, n + m, total);
  }

  /** The bytes of an overlay, position by position. */
  lemma OverlayAt(file: Bytes, offset: nat, data: Bytes, i: nat)
    requires data != [] && i < |Overlay(file, offset, data)|
    ensures Overlay(file, offset, data)[i] ==
            if offset <= i < offset + |data| then data[i - offset]
            else if i < |file| then file[i] else 0
  {}

  /** Writing a prefix and then the rest is writing everything, whatever the split. */
  lemma OverlaySplit(file: Bytes, offset: nat, data: Bytes, k: nat)
    requires k <= |data|
    ensures Overlay(Overlay(file, offset, data[..k]), offset + k, data[k..]) == Overlay(file, offset, data)
  {
    var a, b := data[..k], data[k..];
    if k == 0 {
      assert b == data;
    } else if k == |data| {
      assert a == data;
    } else {
      var mid := Overlay(file, offset, a);
      var split, whole := Overlay(mid, offset + k, b), Overlay(file, offset, data);
      assert |split| == |whole|;
      forall i: nat | i < |whole| ensures split[i] == whole[i] {
        OverlayAt(mid, offset + k, b, i);
        OverlayAt(file, offset, data, i);
        if i < |mid| {
          OverlayAt(file, offset, a, i);
        }
      }
    }
  }

  /** Read-after-write returns the data written; any window the write does not
      touch and that lay inside the file reads as before. */
  lemma ReadAfterWrite(file: Bytes, offset: nat, data: Bytes, at: nat, length: nat)
    ensures data != [] ==> Slice(Overlay(file, offset, data), offset, |data|) == data
    ensures at + length <= Min(offset, |file|) || (offset + |data| <= at && at + length <= |file|)
            ==> Slice(Overlay(file, offset, data), at, length) == Slice(file, at, length)
  {
    if data != [] {
      var f := Overlay(file, offset, data);
      forall i: nat | i < |data| ensures f[offset + i] == data[i] {
        OverlayAt(file, offset, data, offset + i);
      }
      assert Slice(f, offset, |data|) == data;
      if at + length <= Min(offset, |file|) || (offset + |data| <= at && at + length <= |file|) {
        forall i: nat | at <= i < at + length ensures f[i] == file[i] {
          OverlayAt(file, offset, data, i);
        }
        assert Slice(f, at, length) == Slice(file, at, length);
      }
    }
  }
}
