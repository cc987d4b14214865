/**
  The ideal least-recently-used list that `ShapeCache` (src/session.rs:73-137)
  stands for: entries most recently used first.
*/
module Lru {
  import opened Wrappers
  import Seqs

  type Entry<V> = (string, V)

  function Find<V>(xs: seq<Entry<V>>, key: string): Option<V> {
    if xs == [] then None
    else if xs[0].0 == key then Some(xs[0].1)
    else Find(xs[1..], key)
  }

  function Without<V>(xs: seq<Entry<V>>, key: string): (r: seq<Entry<V>>)
    ensures |r| <= |xs|
  {
    if xs == [] then []
    else (if xs[0].0 == key then [] else [xs[0]]) + Without(xs[1..], key)
  }

  function DropLast<T>(xs: seq<T>): seq<T> { if xs == [] then [] else xs[..|xs| - 1] }

  /** A use of `key`: to the front, if it is there at all. */
  function Touch<V>(xs: seq<Entry<V>>, key: string): seq<Entry<V>> {
    match Find(xs, key)
    case None => xs
    case Some(v) => [(key, v)] + Without(xs, key)
  }

  /** A new value for `key`, dropping the coldest entry if a new key finds no room. */
  function Put<V>(xs: seq<Entry<V>>, key: string, value: V, limit: nat): seq<Entry<V>> {
    var room := if |xs| >= limit && Find(xs, key).None? then DropLast(xs) else xs;
    [(key, value)] + Without(room, key)
  }

  // -------------------------------------------------------------------------- runs

  datatype Op<V> = Get(key: string) | Insert(key: string, value: V) | Clear

  function Apply<V>(op: Op<V>, xs: seq<Entry<V>>, limit: nat): seq<Entry<V>> {
    match op
    case Get(key) => Touch(xs, key)
    case Insert(key, value) => Put(xs, key, value, limit)
    case Clear => []
  }

  function Run<V>(ops: seq<Op<V>>, xs: seq<Entry<V>>, limit: nat): seq<Entry<V>> {
    if ops == [] then xs else Run(ops[1..], Apply(ops[0], xs, limit), limit)
  }

  ghost predicate DistinctKeys<V>(xs: seq<Entry<V>>) {
    forall i, j :: 0 <= i < j < |xs| ==> xs[i].0 != xs[j].0
  }

  // ------------------------------------------------------------------- small facts

  lemma {:induction false} FindIs<V>(xs: seq<Entry<V>>, key: string)
    ensures Find(xs, key).None? <==> forall i :: 0 <= i < |xs| ==> xs[i].0 != key
    ensures Find(xs, key).Some? ==> exists i :: 0 <= i < |xs| && xs[i] == (key, Find(xs, key).value)
  {
    if xs != [] {
      FindIs(xs[1..], key);
      if xs[0].0 == key {
        assert xs[0] == (key, xs[0].1);
      } else {
        forall i | 0 <= i < |xs| && Find(xs, key).None? ensures xs[i].0 != key {
          assert i > 0 ==> xs[i] == xs[1..][i - 1];
        }
        if Find(xs, key).Some? {
          var i :| 0 <= i < |xs[1..]| && xs[1..][i] == (key, Find(xs, key).value);
          assert xs[i + 1] == xs[1..][i];
        } else {
          assert forall i :: 0 <= i < |xs[1..]| ==> xs[1..][i] == xs[i + 1];
        }
        if forall i :: 0 <= i < |xs| ==> xs[i].0 != key {
          assert forall i :: 0 <= i < |xs[1..]| ==> xs[1..][i] == xs[i + 1];
        }
      }
    }
  }

  lemma {:induction false} WithoutMember<V>(xs: seq<Entry<V>>, key: string, e: Entry<V>)
    ensures e in Without(xs, key) <==> e in xs && e.0 != key
  {
    if xs != [] {
      WithoutMember(xs[1..], key, e);
      assert e in xs <==> e == xs[0] || e in xs[1..];
    }
  }

  lemma {:induction false} WithoutDistinct<V>(xs: seq<Entry<V>>, key: string)
    requires DistinctKeys(xs)
    ensures DistinctKeys(Without(xs, key))
    ensures |Without(xs, key)| == if Find(xs, key).Some? then |xs| - 1 else |xs|
    ensures Find(xs, key).None? ==> Without(xs, key) == xs
  {
    if xs != [] {
      var rest := xs[1..];
      assert forall i :: 0 <= i < |rest| ==> rest[i] == xs[i + 1];
      WithoutDistinct(rest, key);
      if xs[0].0 == key {
        FindIs(rest, key);
      } else {
        var r := Without(rest, key);
        forall i | 0 <= i < |r| ensures r[i].0 != xs[0].0 {
          WithoutMember(rest, key, r[i]);
          assert r[i] in rest;
        }
        assert xs == [xs[0]] + rest;
      }
    }
  }

  lemma FrontDistinct<V>(xs: seq<Entry<V>>, key: string, value: V)
    requires DistinctKeys(xs)
    ensures DistinctKeys([(key, value)] + Without(xs, key))
  {
    WithoutDistinct(xs, key);
    var r := Without(xs, key);
    forall i | 0 <= i < |r| ensures r[i].0 != key {
      WithoutMember(xs, key, r[i]);
    }
  }

  /** Every operation keeps the keys distinct and the size within the limit. */
  lemma ApplyKeeps<V>(op: Op<V>, xs: seq<Entry<V>>, limit: nat)
    requires DistinctKeys(xs)
    ensures DistinctKeys(Apply(op, xs, limit))
    ensures limit >= 1 && |xs| <= limit ==> |Apply(op, xs, limit)| <= limit
  {
    match op {
      case Get(key) =>
        if Find(xs, key).Some? {
          FrontDistinct(xs, key, Find(xs, key).value);
          WithoutDistinct(xs, key);
        }
      case Insert(key, value) =>
        var room := if |xs| >= limit && Find(xs, key).None? then DropLast(xs) else xs;
        FrontDistinct(room, key, value);
        WithoutDistinct(room, key);
      case Clear =>
    }
  }

  lemma {:induction false} RunKeeps<V>(ops: seq<Op<V>>, xs: seq<Entry<V>>, limit: nat)
    requires DistinctKeys(xs)
    ensures DistinctKeys(Run(ops, xs, limit))
    ensures limit >= 1 && |xs| <= limit ==> |Run(ops, xs, limit)| <= limit
    decreases |ops|
  {
    if ops != [] {
      ApplyKeeps(ops[0], xs, limit);
      RunKeeps(ops[1..], Apply(ops[0], xs, limit), limit);
    }
  }

  /** No run from empty outgrows the limit, exactly when the limit is at least 1:
      a cache with no room still keeps its newest entry. */
  lemma LimitKept<V>(limit: nat, value: V)
    ensures limit >= 1 <==> forall ops: seq<Op<V>> :: |Run(ops, [], limit)| <= limit
  {
    if limit >= 1 {
      forall ops: seq<Op<V>> ensures |Run(ops, [], limit)| <= limit {
        RunKeeps(ops, [], limit);
      }
    } else {
      var ops := [Insert("k", value)];
      assert ops[1..] == [] && Run(ops, [], 0) == Put([], "k", value, 0);
      assert |Run(ops, [], 0)| == 1;
    }
  }

  // ------------------------------------------------------------- what is kept warm

  function Others<V>(ops: seq<Op<V>>, key: string): set<string> {
    set i | 0 <= i < |ops| && !ops[i].Clear? && ops[i].key != key :: ops[i].key
  }

  function Latest<V>(ops: seq<Op<V>>, key: string, value: V): V {
    if ops == [] then value
    else Latest(ops[1..], key, if ops[0].Insert? && ops[0].key == key then ops[0].value else value)
  }

  /** `key` stands at place `p` with `value`, and everything in front of it was used
      since: its key is among `used`. */
  ghost predicate WarmAt<V>(xs: seq<Entry<V>>, key: string, value: V, p: nat, used: set<string>) {
    && DistinctKeys(xs)
    && p < |xs| && xs[p] == (key, value)
    && forall i :: 0 <= i < p ==> xs[i].0 in used
  }

  lemma {:induction false} FindAt<V>(xs: seq<Entry<V>>, p: nat)
    requires DistinctKeys(xs) && p < |xs|
    ensures Find(xs, xs[p].0) == Some(xs[p].1)
  {
    if p > 0 {
      assert xs[0].0 != xs[p].0;
      assert forall i :: 0 <= i < |xs[1..]| ==> xs[1..][i] == xs[i + 1];
      FindAt(xs[1..], p - 1);
    }
  }

  lemma {:induction false} WithoutPlace<V>(xs: seq<Entry<V>>, other: string, p: nat)
    returns (q: nat)
    requires p < |xs| && xs[p].0 != other
    ensures q <= p && q < |Without(xs, other)| && Without(xs, other)[q] == xs[p]
    ensures forall i :: 0 <= i < q ==> exists j :: 0 <= j < p && Without(xs, other)[i] == xs[j]
  {
    var rest := xs[1..];
    if p == 0 {
      q := 0;
    } else {
      assert rest[p - 1] == xs[p];
      var q' := WithoutPlace(rest, other, p - 1);
      q := if xs[0].0 == other then q' else q' + 1;
      var r, w := Without(rest, other), Without(xs, other);
      forall i | 0 <= i < q ensures exists j :: 0 <= j < p && w[i] == xs[j] {
        if xs[0].0 != other && i == 0 {
          assert w[0] == xs[0];
        } else {
          var k := if xs[0].0 == other then i else i - 1;
          assert w[i] == r[k];
          var j :| 0 <= j < p - 1 && r[k] == rest[j];
          assert rest[j] == xs[j + 1];
        }
      }
    }
  }

  lemma PlaceBound<V>(xs: seq<Entry<V>>, p: nat, used: set<string>)
    requires DistinctKeys(xs) && p <= |xs|
    requires forall i :: 0 <= i < p ==> xs[i].0 in used
    ensures p <= |used|
  {
    if p > 0 {
      var last := xs[p - 1].0;
      PlaceBound(xs, p - 1, used - {last});
      assert |used - {last}| == |used| - 1;
    }
  }

  /** Using another key leaves a warm entry warm. */
  lemma WarmFront<V>(xs: seq<Entry<V>>, key: string, value: V, p: nat, used: set<string>, other: string, v: V)
    returns (q: nat)
    requires WarmAt(xs, key, value, p, used) && other != key
    ensures WarmAt([(other, v)] + Without(xs, other), key, value, q, used + {other})
  {
    var k := WithoutPlace(xs, other, p);
    FrontDistinct(xs, other, v);
    q := k + 1;
    var r := [(other, v)] + Without(xs, other);
    forall i | 0 <= i < q ensures r[i].0 in used + {other} {
      if i > 0 {
        var j :| 0 <= j < p && Without(xs, other)[i - 1] == xs[j];
        assert r[i] == Without(xs, other)[i - 1];
      }
    }
  }

  /** The warm entry is not the one dropped while fewer than `limit` other keys were
      used, the incoming one included. */
  lemma WarmSurvivesDrop<V>(xs: seq<Entry<V>>, key: string, value: V, p: nat, used: set<string>, other: string,
      limit: nat)
    requires WarmAt(xs, key, value, p, used)
    requires Find(xs, other).None? && |used + {other}| < limit <= |xs|
    ensures WarmAt(DropLast(xs), key, value, p, used)
  {
    FindIs(xs, other);
    PlaceBound(xs, p, used - {other});
    if other in used {
      assert |used - {other}| == |used| - 1 && used + {other} == used;
    } else {
      assert used - {other} == used && |used + {other}| == |used| + 1;
    }
  }

  lemma WarmStep<V>(op: Op<V>, xs: seq<Entry<V>>, key: string, value: V, p: nat, used: set<string>, limit: nat)
    returns (q: nat)
    requires WarmAt(xs, key, value, p, used)
    requires !op.Clear? && (op.key != key ==> |used + {op.key}| < limit)
    ensures WarmAt(Apply(op, xs, limit), key, if op.Insert? && op.key == key then op.value else value, q,
                   if op.key == key then used else used + {op.key})
  {
    FindAt(xs, p);
    if op.key == key {
      q := 0;
      FrontDistinct(xs, key, if op.Insert? then op.value else value);
    } else if op.Get? {
      if Find(xs, op.key).Some? {
        q := WarmFront(xs, key, value, p, used, op.key, Find(xs, op.key).value);
      } else {
        q := p;
      }
    } else {
      var room := if |xs| >= limit && Find(xs, op.key).None? then DropLast(xs) else xs;
      if |xs| >= limit && Find(xs, op.key).None? {
        WarmSurvivesDrop(xs, key, value, p, used, op.key, limit);
      }
      q := WarmFront(room, key, value, p, used, op.key, op.value);
    }
  }

  lemma OthersCons<V>(ops: seq<Op<V>>, key: string)
    requires ops != [] && !ops[0].Clear?
    ensures Others(ops, key) == Others(ops[1..], key) + if ops[0].key == key then {} else {ops[0].key}
  {
    assert forall i :: 0 < i < |ops| ==> ops[i] == ops[1..][i - 1];
    assert forall i :: 0 <= i < |ops[1..]| ==> ops[1..][i] == ops[i + 1];
  }

  lemma {:induction false} WarmRun<V>(ops: seq<Op<V>>, xs: seq<Entry<V>>, key: string, value: V, p: nat,
      used: set<string>, limit: nat)
    requires WarmAt(xs, key, value, p, used)
    requires forall i :: 0 <= i < |ops| ==> !ops[i].Clear?
    requires |used + Others(ops, key)| < limit
    ensures Find(Run(ops, xs, limit), key) == Some(Latest(ops, key, value))
    decreases |ops|
  {
    if ops == [] {
      FindAt(xs, p);
    } else {
      OthersCons(ops, key);
      var op := ops[0];
      var all := used + Others(ops, key);
      if op.key != key {
        Seqs.SubsetSize(used + {op.key}, all);
      }
      var q := WarmStep(op, xs, key, value, p, used, limit);
      var used' := if op.key == key then used else used + {op.key};
      assert used' + Others(ops[1..], key) == all;
      WarmRun(ops[1..], Apply(op, xs, limit), key,
        if op.Insert? && op.key == key then op.value else value, q, used', limit);
    }
  }

  /** A key just inserted, and followed by uses of fewer than `limit` other distinct
      keys and no clear, is still there with its latest value. */
  lemma RecentlyUsedStays<V>(before: seq<Entry<V>>, key: string, value: V, ops: seq<Op<V>>, limit: nat)
    requires DistinctKeys(before)
    requires forall i :: 0 <= i < |ops| ==> !ops[i].Clear?
    requires |Others(ops, key)| < limit
    ensures Find(Run(ops, Put(before, key, value, limit), limit), key) == Some(Latest(ops, key, value))
  {
    var room := if |before| >= limit && Find(before, key).None? then DropLast(before) else before;
    FrontDistinct(room, key, value);
    assert {} + Others(ops, key) == Others(ops, key);
    WarmRun(ops, Put(before, key, value, limit), key, value, 0, {}, limit);
  }

  /** So is a key that was just looked up and found. */
  lemma RecentlyFoundStays<V>(before: seq<Entry<V>>, key: string, ops: seq<Op<V>>, limit: nat)
    requires DistinctKeys(before) && Find(before, key).Some?
    requires forall i :: 0 <= i < |ops| ==> !ops[i].Clear?
    requires |Others(ops, key)| < limit
    ensures Find(Run(ops, Touch(before, key), limit), key) == Some(Latest(ops, key, Find(before, key).value))
  {
    var value := Find(before, key).value;
    FrontDistinct(before, key, value);
    assert {} + Others(ops, key) == Others(ops, key);
    WarmRun(ops, Touch(before, key), key, value, 0, {}, limit);
  }

  // --------------------------------------------------------------- a bigger cache

  predicate IsSubseq<T(==)>(a: seq<T>, b: seq<T>) {
    if a == [] then true
    else if b == [] then false
    else if a[0] == b[0] then IsSubseq(a[1..], b[1..])
    else IsSubseq(a, b[1..])
  }

  lemma {:induction false} SubseqRefl<T>(a: seq<T>)
    ensures IsSubseq(a, a)
  {
    if a != [] {
      SubseqRefl(a[1..]);
    }
  }

  lemma {:induction false} SubseqTail<T>(a: seq<T>, b: seq<T>)
    requires IsSubseq(a, b) && a != []
    ensures IsSubseq(a[1..], b)
  {
    if a[0] == b[0] {
      if |a| > 1 && a[1] != b[0] {
      } else if |a| > 1 {
        SubseqTail(a[1..], b[1..]);
      }
    } else {
      SubseqTail(a, b[1..]);
      SubseqWiden(a[1..], b);
    }
  }

  lemma {:induction false} SubseqWiden<T>(a: seq<T>, b: seq<T>)
    requires b != [] && IsSubseq(a, b[1..])
    ensures IsSubseq(a, b)
  {
    if a != [] && a[0] == b[0] {
      SubseqTail(a, b[1..]);
    }
  }

  lemma {:induction false} SubseqWithout<V>(a: seq<Entry<V>>, b: seq<Entry<V>>, key: string)
    requires IsSubseq(a, b)
    ensures IsSubseq(Without(a, key), Without(b, key))
  {
    if a == [] {
    } else if a[0] == b[0] {
      var ra, rb := Without(a[1..], key), Without(b[1..], key);
      SubseqWithout(a[1..], b[1..], key);
      if b[0].0 == key {
        assert Without(a, key) == ra && Without(b, key) == rb;
      } else {
        SubseqCons(a[0], ra, rb);
      }
    } else {
      SubseqWithout(a, b[1..], key);
      if b[0].0 == key {
        assert Without(b, key) == Without(b[1..], key);
      } else {
        assert Without(b, key)[1..] == Without(b[1..], key);
        SubseqWiden(Without(a, key), Without(b, key));
      }
    }
  }

  lemma {:induction false} SubseqDropLeft<T>(a: seq<T>, b: seq<T>)
    requires IsSubseq(a, b)
    ensures IsSubseq(DropLast(a), b)
  {
    if |a| > 1 {
      if a[0] == b[0] {
        SubseqDropLeft(a[1..], b[1..]);
        assert DropLast(a)[1..] == DropLast(a[1..]);
      } else {
        SubseqDropLeft(a, b[1..]);
      }
    }
  }

  lemma {:induction false} SubseqDropBoth<T>(a: seq<T>, b: seq<T>)
    requires IsSubseq(a, b)
    ensures IsSubseq(DropLast(a), DropLast(b))
  {
    if |a| > 1 {
      assert |b| > 1 by {
        SubseqLength(a, b);
      }
      assert DropLast(b)[1..] == DropLast(b[1..]);
      if a[0] == b[0] {
        SubseqDropBoth(a[1..], b[1..]);
        assert DropLast(a)[1..] == DropLast(a[1..]);
      } else {
        SubseqDropBoth(a, b[1..]);
      }
    }
  }

  lemma {:induction false} SubseqLength<T>(a: seq<T>, b: seq<T>)
    requires IsSubseq(a, b)
    ensures |a| <= |b|
  {
    if a != [] {
      SubseqLength(if a[0] == b[0] then a[1..] else a, b[1..]);
    }
  }

  lemma {:induction false} SubseqFind<V>(a: seq<Entry<V>>, b: seq<Entry<V>>, key: string)
    requires IsSubseq(a, b) && DistinctKeys(b) && Find(a, key).Some?
    ensures Find(b, key) == Find(a, key)
  {
    assert forall i :: 0 <= i < |b[1..]| ==> b[1..][i] == b[i + 1];
    if a[0] == b[0] {
      if a[0].0 != key {
        SubseqFind(a[1..], b[1..], key);
      }
    } else {
      SubseqFind(a, b[1..], key);
      FindIs(b[1..], key);
      var i :| 0 <= i < |b[1..]| && b[1..][i].0 == key;
      assert b[0].0 != b[i + 1].0;
    }
  }

  /** How a cache with limit `k` stands to one with limit `k + 1` after the same run. */
  ghost predicate Nested<V>(a: seq<Entry<V>>, b: seq<Entry<V>>, k: nat) {
    && DistinctKeys(a) && DistinctKeys(b)
    && IsSubseq(a, b)
    && |a| <= k && |b| <= k + 1
    && (|a| == k || a == b)
  }

  lemma NestedGet<V>(a: seq<Entry<V>>, b: seq<Entry<V>>, key: string, k: nat)
    requires Nested(a, b, k)
    ensures Nested(Touch(a, key), Touch(b, key), k)
  {
    SubseqWithout(a, b, key);
    WithoutDistinct(a, key);
    WithoutDistinct(b, key);
    if Find(a, key).Some? {
      SubseqFind(a, b, key);
      FrontDistinct(a, key, Find(a, key).value);
      FrontDistinct(b, key, Find(b, key).value);
    } else if Find(b, key).Some? {
      FrontDistinct(b, key, Find(b, key).value);
      var front := [(key, Find(b, key).value)] + Without(b, key);
      assert front[1..] == Without(b, key);
      SubseqWiden(a, front);
    }
  }

  lemma SubseqCons<T>(x: T, a: seq<T>, b: seq<T>)
    requires IsSubseq(a, b)
    ensures IsSubseq([x] + a, [x] + b)
  {
    assert ([x] + a)[1..] == a && ([x] + b)[1..] == b;
  }

  lemma NestedInsert<V>(a: seq<Entry<V>>, b: seq<Entry<V>>, key: string, value: V, k: nat)
    requires Nested(a, b, k) && k >= 1
    ensures Nested(Put(a, key, value, k), Put(b, key, value, k + 1), k)
  {
    var a' := if |a| >= k && Find(a, key).None? then DropLast(a) else a;
    var b' := if |b| >= k + 1 && Find(b, key).None? then DropLast(b) else b;
    if Find(a, key).Some? {
      SubseqFind(a, b, key);
    }
    if a' != a && b' != b {
      SubseqDropBoth(a, b);
    } else if a' != a {
      SubseqDropLeft(a, b);
    }
    assert IsSubseq(a', b');
    SubseqWithout(a', b', key);
    WithoutDistinct(a', key);
    WithoutDistinct(b', key);
    FrontDistinct(a', key, value);
    FrontDistinct(b', key, value);
    SubseqCons((key, value), Without(a', key), Without(b', key));
    FindDropLast(a, key);
    FindDropLast(b, key);
  }

  lemma FindDropLast<V>(xs: seq<Entry<V>>, key: string)
    ensures Find(xs, key).None? ==> Find(DropLast(xs), key).None?
  {
    FindIs(xs, key);
    FindIs(DropLast(xs), key);
  }

  lemma {:induction false} NestedRun<V>(ops: seq<Op<V>>, a: seq<Entry<V>>, b: seq<Entry<V>>, k: nat)
    requires Nested(a, b, k) && k >= 1
    ensures Nested(Run(ops, a, k), Run(ops, b, k + 1), k)
    decreases |ops|
  {
    if ops != [] {
      match ops[0] {
        case Get(key) => NestedGet(a, b, key, k);
        case Insert(key, value) => NestedInsert(a, b, key, value, k);
        case Clear =>
      }
      NestedRun(ops[1..], Apply(ops[0], a, k), Apply(ops[0], b, k + 1), k);
    }
  }

  /** After any run from empty, what a cache holds is, in order of use, part of what
      a cache with one more place holds; so whatever it answers, the bigger one
      answers alike. */
  lemma BiggerCacheHoldsMore<V>(ops: seq<Op<V>>, k: nat, key: string)
    requires k >= 1
    ensures IsSubseq(Run(ops, [], k), Run(ops, [], k + 1))
    ensures Find(Run(ops, [], k), key).Some? ==> Find(Run(ops, [], k + 1), key) == Find(Run(ops, [], k), key)
  {
    NestedRun<V>(ops, [], [], k);
    if Find(Run(ops, [], k), key).Some? {
      SubseqFind(Run(ops, [], k), Run(ops, [], k + 1), key);
    }
  }
}
