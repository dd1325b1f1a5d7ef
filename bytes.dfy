/** Bytes, and the Option/Result wrappers used throughout the model. */
module Bytes {

  /** One octet, as Python's `bytes` and Rust's `u8` hold it. */
  type Byte = x: int | 0 <= x < 256

  type Bytes = seq<Byte>

  datatype Option<+T> = None | Some(value: T)

  datatype Result<+T, +E> = Ok(value: T) | Err(error: E)

  /** The smaller of two integers (Python's slice clamping). */
  function Min(a: int, b: int): int
  {
    if a <= b then a else b
  }

  /** Python's slice `s[lo:hi]` for non-negative bounds: both bounds are clipped to the length. */
  function Slice<T>(s: seq<T>, lo: nat, hi: nat): (r: seq<T>)
    ensures |r| == if Min(hi, |s|) <= Min(lo, |s|) then 0 else Min(hi, |s|) - Min(lo, |s|)
    ensures Min(lo, |s|) <= Min(hi, |s|) ==> r == s[Min(lo, |s|)..Min(hi, |s|)]
  {
    var a := Min(lo, |s|);
    var b := Min(hi, |s|);
    if b <= a then [] else s[a..b]
  }

  /** Re-associates a concatenation, for the trace lemmas. */
  lemma AppendAssoc<T>(a: seq<T>, b: seq<T>, c: seq<T>)
    ensures a + b + c == a + (b + c)
  {
  }
}
