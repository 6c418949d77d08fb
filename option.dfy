/** Optional values, and keeping the present ones of a list: the shape of
    Python's `[f(x) for x in xs if cond(x)]` once `f` and `cond` are folded
    into one function returning an option. */
module NdfOption {

  datatype Option<T> = None | Some(value: T)

  /** The present values of `xs`, in order. */
  function Somes<T>(xs: seq<Option<T>>): (r: seq<T>)
    ensures |r| <= |xs|
  {
    if xs == [] then []
    else
      var pre := Somes(xs[..|xs| - 1]);
      match xs[|xs| - 1]
      case Some(x) => pre + [x]
      case None => pre
  }

  /** Keeping the present values distributes over concatenation. */
  lemma {:induction false} SomesConcat<T>(a: seq<Option<T>>, b: seq<Option<T>>)
    ensures Somes(a + b) == Somes(a) + Somes(b)
    decreases |b|
  {
    if b != [] {
      assert (a + b)[..|a + b| - 1] == a + b[..|b| - 1];
      SomesConcat(a, b[..|b| - 1]);
    } else {
      assert a + b == a;
    }
  }

  /** The values of a list whose entries are all present. */
  function Values<T>(xs: seq<Option<T>>): (r: seq<T>)
    requires forall k :: 0 <= k < |xs| ==> xs[k].Some?
    ensures |r| == |xs|
  {
    seq(|xs|, k requires 0 <= k < |xs| => xs[k].value)
  }

  /** When every entry is present, keeping the present ones keeps them all. */
  lemma {:induction false} SomesAllPresent<T>(xs: seq<Option<T>>)
    requires forall k :: 0 <= k < |xs| ==> xs[k].Some?
    ensures Somes(xs) == Values(xs)
  {
    if xs != [] {
      var pre := xs[..|xs| - 1];
      SomesAllPresent(pre);
      assert Values(xs) == Values(pre) + [xs[|xs| - 1].value];
    }
  }

  /** The number of present values of `xs`. */
  function CountSome<T>(xs: seq<Option<T>>): nat
  {
    if xs == [] then 0 else CountSome(xs[..|xs| - 1]) + (if xs[|xs| - 1].Some? then 1 else 0)
  }

  /** One output per present value: nothing is invented or merged. */
  lemma {:induction false} SomesLength<T>(xs: seq<Option<T>>)
    ensures |Somes(xs)| == CountSome(xs)
  {
    if xs != [] {
      SomesLength(xs[..|xs| - 1]);
    }
  }
}
