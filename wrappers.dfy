/** Failure-compatible wrappers used across the model: `Option` stands for a
    value that may be absent (`null` in TypeScript, `NULL` in C) and `Result`
    for an operation that either returns or throws. */
module Wrappers {

  datatype Option<+T> = None | Some(value: T)

  datatype Result<+R, +E> = Success(value: R) | Failure(error: E)
}

/** Flat memory as the model sees it: bytes, element-wise copies into a
    buffer, and the clamping slice of a typed array. */
module Memory {

  /** One element of a `Uint8Array` or an `unsigned char` buffer. */
  newtype byte = x: int | 0 <= x < 256

  /** `s` with `src` written over it from index `at` on: what `memcpy` into a
      buffer and `TypedArray.prototype.set` do to the target. */
  function WriteAt<T>(s: seq<T>, at: nat, src: seq<T>): (r: seq<T>)
    requires at + |src| <= |s|
    ensures |r| == |s|
    ensures forall k :: 0 <= k < |s| ==> r[k] == if at <= k < at + |src| then src[k - at] else s[k]
  {
    s[..at] + src + s[at + |src|..]
  }

  /** `TypedArray.prototype.subarray(begin, end)` for non-negative indices:
      both ends are clamped to the length, and an end before the begin gives
      an empty view. */
  function Subarray<T>(s: seq<T>, begin: nat, end: nat): (r: seq<T>)
    ensures begin <= end <= |s| ==> r == s[begin..end]
    ensures begin <= |s| <= end ==> r == s[begin..]
    ensures |s| <= begin || end < begin ==> r == []
  {
    var b := if begin <= |s| then begin else |s|;
    var e := if end <= |s| then end else |s|;
    if b <= e then s[b..e] else []
  }

  lemma AppendAssoc<T>(a: seq<T>, b: seq<T>, c: seq<T>)
    ensures (a + b) + c == a + (b + c)
  {
  }

  /** Copies `src` into `dst` from index `at` on, one element at a time. */
  method Blit<T>(dst: array<T>, at: nat, src: seq<T>)
    requires at + |src| <= dst.Length
    modifies dst
    ensures dst[..] == WriteAt(old(dst[..]), at, src)
  {
    var i := 0;
    while i < |src|
      invariant 0 <= i <= |src|
      invariant forall k :: 0 <= k < dst.Length ==> dst[k] == if at <= k < at + i then src[k - at] else old(dst[k])
    {
      dst[at + i] := src[i];
      i := i + 1;
    }
  }
}
