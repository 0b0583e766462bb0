/** Sequences that more than one component needs. */
module Seqs {
  import opened Words

  /** s without its element at k. */
  function Drop<T>(s: seq<T>, k: nat): (r: seq<T>)
    requires k < |s|
    ensures |r| == |s| - 1
  {
    s[..k] + s[k + 1..]
  }

  function Zeros(n: nat): (b: seq<U8>)
    ensures |b| == n
  {
    seq(n, _ => 0)
  }
}
