/** Mapping and filtering sequences, and the size of sets. */
module Seqs {
  function Map<T, U>(f: T -> U, xs: seq<T>): (r: seq<U>)
    ensures |r| == |xs|
    ensures forall i :: 0 <= i < |xs| ==> r[i] == f(xs[i])
  {
    if xs == [] then [] else [f(xs[0])] + Map(f, xs[1..])
  }

  function Filter<T>(keep: T -> bool, xs: seq<T>): seq<T> {
    if xs == [] then []
    else (if keep(xs[0]) then [xs[0]] else []) + Filter(keep, xs[1..])
  }

  lemma MapCons<T, U>(f: T -> U, x: T, xs: seq<T>)
    ensures Map(f, [x] + xs) == [f(x)] + Map(f, xs)
  {
    assert ([x] + xs)[1..] == xs;
  }

  lemma FilterCons<T>(keep: T -> bool, x: T, xs: seq<T>)
    ensures Filter(keep, [x] + xs) == (if keep(x) then [x] else []) + Filter(keep, xs)
  {
    assert ([x] + xs)[1..] == xs;
  }

  lemma {:induction false} FilterMember<T>(keep: T -> bool, xs: seq<T>, x: T)
    ensures x in Filter(keep, xs) <==> x in xs && keep(x)
  {
    if xs != [] {
      FilterMember(keep, xs[1..], x);
      assert x in xs <==> x == xs[0] || x in xs[1..];
    }
  }

  /** A map that does not change what is kept can be taken before or after. */
  lemma {:induction false} FilterMap<T>(keep: T -> bool, f: T -> T, xs: seq<T>)
    requires forall i :: 0 <= i < |xs| ==> keep(f(xs[i])) == keep(xs[i])
    ensures Filter(keep, Map(f, xs)) == Map(f, Filter(keep, xs))
  {
    if xs != [] {
      var x, rest := xs[0], xs[1..];
      FilterMap(keep, f, rest);
      assert xs == [x] + rest;
      MapCons(f, x, rest);
      FilterCons(keep, f(x), Map(f, rest));
      FilterCons(keep, x, rest);
      MapCons(f, x, Filter(keep, rest));
    }
  }

  /** Both sequences begin alike, and so do what they end in. */
  lemma Regroup<T>(whole: seq<T>, cut: seq<T>, rest: seq<T>, head: seq<T>, mid: seq<T>, tail: seq<T>)
    requires whole == head + rest && cut == head + mid && rest == mid + tail
    ensures whole == cut + tail
  {
  }

  /** Taking `head` off what remains and putting it on what is done. */
  lemma Advance<T>(whole: seq<T>, done: seq<T>, remaining: seq<T>, head: seq<T>, tail: seq<T>)
    requires whole == done + remaining && remaining == head + tail
    ensures whole == (done + head) + tail
  {
  }

  function JoinWith<T>(xs: seq<seq<T>>, sep: seq<T>): seq<T> {
    if xs == [] then [] else if |xs| == 1 then xs[0] else xs[0] + sep + JoinWith(xs[1..], sep)
  }

  lemma {:induction false} JoinSnoc<T>(xs: seq<seq<T>>, sep: seq<T>, x: seq<T>)
    ensures JoinWith(xs + [x], sep) == if xs == [] then x else JoinWith(xs, sep) + sep + x
  {
    var all := xs + [x];
    if xs == [] {
      assert all == [x];
    } else if |xs| == 1 {
      assert all[1..] == [x];
    } else {
      JoinSnoc(xs[1..], sep, x);
      assert all[1..] == xs[1..] + [x];
      var rest := JoinWith(xs[1..], sep);
      assert xs[0] + sep + (rest + sep + x) == (xs[0] + sep + rest) + sep + x;
    }
  }

  lemma {:induction false} MapSnoc<T, U>(f: T -> U, xs: seq<T>, x: T)
    ensures Map(f, xs + [x]) == Map(f, xs) + [f(x)]
  {
  }

  lemma SubsetSize<T>(a: set<T>, b: set<T>)
    requires a <= b
    ensures |a| <= |b|
  {
    assert b == a + (b - a);
  }
}
