/**
 * The common record every source is normalised into, the optional value used
 * for fields a source may omit, and the sequence operations shared by the
 * adapters: truncation to a result cap and order-preserving subsequences.
 */
module Records {

  datatype Option<+T> = None | Some(value: T)

  /** A normalised job listing: the dictionary with keys `title`, `company`,
      `description` and `url` that every adapter emits. Each field is
      independently absent (`None` in the source). */
  datatype Listing = Listing(
    title: Option<string>,
    company: Option<string>,
    description: Option<string>,
    url: Option<string>)

  function Min(a: nat, b: nat): nat {
    if a <= b then a else b
  }

  /** `[f(x) for x in xs[:n]]`: the first `n` elements of `xs` (all of them
      when there are fewer), each mapped by `f`, in their original order. */
  function MapPrefix<A, B>(xs: seq<A>, n: nat, f: A -> B): (ys: seq<B>)
    ensures |ys| == Min(n, |xs|) && |ys| <= n && |ys| <= |xs|
    ensures forall i :: 0 <= i < |ys| ==> ys[i] == f(xs[i])
  {
    seq(Min(n, |xs|), i requires 0 <= i < Min(n, |xs|) => f(xs[i]))
  }

  /** `MapPrefix` is determined by its contract: any sequence of the right
      length whose elements are the mapped inputs is it. */
  lemma MapPrefixUnique<A, B>(xs: seq<A>, n: nat, f: A -> B, ys: seq<B>)
    requires |ys| == Min(n, |xs|)
    requires forall i :: 0 <= i < |ys| ==> ys[i] == f(xs[i])
    ensures ys == MapPrefix(xs, n, f)
  {
  }

  /** Elements past the cap are never looked at. */
  lemma MapPrefixIgnoresTail<A, B>(xs: seq<A>, extra: seq<A>, n: nat, f: A -> B)
    requires |xs| >= n
    ensures MapPrefix(xs + extra, n, f) == MapPrefix(xs, n, f)
  {
    var a := MapPrefix(xs + extra, n, f);
    var b := MapPrefix(xs, n, f);
    forall i | 0 <= i < |a| ensures a[i] == b[i] {
      assert (xs + extra)[i] == xs[i];
    }
  }

  /** `xs` is obtained from `ys` by deleting elements, without reordering. */
  ghost predicate IsSubsequence<T>(xs: seq<T>, ys: seq<T>)
    decreases |ys|
  {
    if xs == [] then true
    else if ys == [] then false
    else (xs[0] == ys[0] && IsSubsequence(xs[1..], ys[1..])) || IsSubsequence(xs, ys[1..])
  }

  /** A subsequence is never longer than the sequence it is taken from, and
      keeps only elements of it. */
  lemma {:induction false} SubsequenceBounds<T>(xs: seq<T>, ys: seq<T>)
    requires IsSubsequence(xs, ys)
    ensures |xs| <= |ys|
    ensures forall x :: x in xs ==> x in ys
    decreases |ys|
  {
    if xs != [] {
      if xs[0] == ys[0] && IsSubsequence(xs[1..], ys[1..]) {
        SubsequenceBounds(xs[1..], ys[1..]);
        assert xs == [xs[0]] + xs[1..];
        assert ys == [ys[0]] + ys[1..];
      } else {
        SubsequenceBounds(xs, ys[1..]);
        assert ys == [ys[0]] + ys[1..];
      }
    }
  }
}
