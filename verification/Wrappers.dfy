// What may be missing: a NULL pointer, an absent entry.
module Wrappers {
  datatype Option<+T> = None | Some(value: T)

  // The first n of a series, if none is missing.
  function All<T>(n: nat, get: nat -> Option<T>): (r: Option<seq<T>>)
    ensures r.Some? ==> |r.value| == n
  {
    if n == 0 then Some([])
    else if All(n - 1, get).None? || get(n - 1).None? then None
    else Some(All(n - 1, get).value + [get(n - 1).value])
  }

  lemma AllNext<T>(n: nat, get: nat -> Option<T>, xs: seq<T>, x: T)
    requires All(n, get) == Some(xs) && get(n) == Some(x)
    ensures All(n + 1, get) == Some(xs + [x])
  {
  }

  lemma {:induction false} AllNone<T>(n: nat, get: nat -> Option<T>, i: nat)
    requires i < n && get(i) == None
    ensures All(n, get) == None
  {
    if i < n - 1 {
      AllNone(n - 1, get, i);
    }
  }

  lemma {:induction false} AllAt<T>(n: nat, get: nat -> Option<T>, xs: seq<T>, i: nat)
    requires All(n, get) == Some(xs) && i < n
    ensures get(i) == Some(xs[i])
  {
    if i < n - 1 {
      AllAt(n - 1, get, xs[..n - 1], i);
    }
  }
}
