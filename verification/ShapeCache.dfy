/**
  `ShapeCache`, src/session.rs:73-137: a map and a logical clock, proved to behave as
  the ideal list of module `Lru`.
*/
module ShapeCache {
  import opened Wrappers
  import opened Lru

  datatype Cached<V> = Cached(shape: V, used: nat)

  /** `xs` lists the map's entries, latest use first; the ticks are all different
      and none is ahead of the clock. */
  ghost predicate Refines<V>(entries: map<string, Cached<V>>, clock: nat, xs: seq<Entry<V>>) {
    && DistinctKeys(xs)
    && (forall i :: 0 <= i < |xs| ==>
          xs[i].0 in entries && entries[xs[i].0].shape == xs[i].1 && entries[xs[i].0].used <= clock)
    && (forall key :: key in entries ==> Listed(xs, key))
    && (forall i, j :: 0 <= i < j < |xs| ==> entries[xs[j].0].used < entries[xs[i].0].used)
  }

  ghost predicate Listed<V>(xs: seq<Entry<V>>, key: string) {
    exists i :: 0 <= i < |xs| && xs[i].0 == key
  }

  lemma RefinesFind<V>(entries: map<string, Cached<V>>, clock: nat, xs: seq<Entry<V>>, key: string)
    requires Refines(entries, clock, xs)
    ensures Find(xs, key) == if key in entries then Some(entries[key].shape) else None
  {
    FindIs(xs, key);
    if key in entries {
      assert Listed(xs, key);
      var i :| 0 <= i < |xs| && xs[i].0 == key;
      FindAt(xs, i);
    }
  }

  /** The map has as many entries as the list. */
  lemma {:induction false} RefinesSize<V>(entries: map<string, Cached<V>>, xs: seq<Entry<V>>)
    requires DistinctKeys(xs)
    requires forall i :: 0 <= i < |xs| ==> xs[i].0 in entries
    requires forall key :: key in entries ==> Listed(xs, key)
    ensures |entries| == |xs|
  {
    if xs == [] {
      assert entries == map[];
    } else {
      var last := |xs| - 1;
      var key := xs[last].0;
      var fewer := entries - {key};
      forall k | k in fewer ensures Listed(xs[..last], k) {
        assert Listed(xs, k);
        var i :| 0 <= i < |xs| && xs[i].0 == k;
        assert xs[..last][i].0 == k;
      }
      RefinesSize(fewer, xs[..last]);
      assert entries.Keys == fewer.Keys + {key};
      assert |entries| == |entries.Keys| && |fewer| == |fewer.Keys|;
    }
  }

  /** Writing an entry with a fresh tick puts it in front of the list. */
  lemma RefinesUse<V>(entries: map<string, Cached<V>>, clock: nat, xs: seq<Entry<V>>, key: string, value: V)
    requires Refines(entries, clock, xs)
    ensures Refines(entries[key := Cached(value, clock + 1)], clock + 1, [(key, value)] + Without(xs, key))
  {
    hide Without;
    FrontDistinct(xs, key, value);
    WithoutOrdered(entries, xs, key);
    var w := Without(xs, key);
    var r := [(key, value)] + w;
    forall i | 0 <= i < |w| ensures w[i] in xs && w[i].0 != key {
      WithoutMember(xs, key, w[i]);
    }
    forall k | k in entries || k == key ensures Listed(r, k) {
      ListedFront(xs, key, value, k);
    }
  }

  lemma ListedFront<V>(xs: seq<Entry<V>>, key: string, value: V, k: string)
    requires k == key || Listed(xs, k)
    ensures Listed([(key, value)] + Without(xs, key), k)
  {
    var w := Without(xs, key);
    var r := [(key, value)] + w;
    if k == key {
      assert r[0].0 == key;
    } else {
      var i :| 0 <= i < |xs| && xs[i].0 == k;
      WithoutMember(xs, key, xs[i]);
      var j :| 0 <= j < |w| && w[j] == xs[i];
      assert r[j + 1].0 == k;
    }
  }

  ghost predicate Ordered<V>(entries: map<string, Cached<V>>, xs: seq<Entry<V>>) {
    && (forall i :: 0 <= i < |xs| ==> xs[i].0 in entries)
    && (forall i, j :: 0 <= i < j < |xs| ==> entries[xs[j].0].used < entries[xs[i].0].used)
  }

  lemma {:induction false} WithoutOrdered<V>(entries: map<string, Cached<V>>, xs: seq<Entry<V>>, key: string)
    requires Ordered(entries, xs)
    ensures Ordered(entries, Without(xs, key))
  {
    if xs != [] {
      var rest := xs[1..];
      assert forall i :: 0 <= i < |rest| ==> rest[i] == xs[i + 1];
      WithoutOrdered(entries, rest, key);
      var w := Without(rest, key);
      forall i | 0 <= i < |w| ensures entries[w[i].0].used < entries[xs[0].0].used {
        WithoutMember(rest, key, w[i]);
        var j :| 0 <= j < |rest| && rest[j] == w[i];
        assert xs[j + 1] == w[i];
      }
    }
  }

  /** The entry with the lowest tick is the end of the list. */
  lemma ColdestIsLast<V>(entries: map<string, Cached<V>>, clock: nat, xs: seq<Entry<V>>, key: string)
    requires Refines(entries, clock, xs) && key in entries
    requires forall k :: k in entries ==> entries[key].used <= entries[k].used
    ensures xs != [] && xs[|xs| - 1].0 == key
  {
    assert Listed(xs, key);
    var i :| 0 <= i < |xs| && xs[i].0 == key;
    assert xs[|xs| - 1].0 in entries;
  }

  lemma RefinesDrop<V>(entries: map<string, Cached<V>>, clock: nat, xs: seq<Entry<V>>, key: string)
    requires Refines(entries, clock, xs)
    requires xs != [] && xs[|xs| - 1].0 == key
    ensures Refines(entries - {key}, clock, DropLast(xs))
  {
    forall k | k in entries - {key} ensures Listed(DropLast(xs), k) {
      assert Listed(xs, k);
      var j :| 0 <= j < |xs| && xs[j].0 == k;
      assert DropLast(xs)[j].0 == k;
    }
  }

  class ShapeCache<V> {
    var entries: map<string, Cached<V>>
    const limit: nat
    var clock: nat
    /** What the cache holds, latest use first. */
    ghost var recency: seq<Entry<V>>

    ghost predicate Valid()
      reads this
    {
      Refines(entries, clock, recency)
    }

    constructor (limit: nat)
      ensures Valid() && recency == [] && this.limit == limit
    {
      this.limit := limit;
      entries, clock, recency := map[], 0, [];
    }

    method Get(sql: string) returns (r: Option<V>)
      requires Valid()
      modifies this
      ensures Valid()
      ensures recency == Touch(old(recency), sql)
      ensures r == Find(old(recency), sql)
    {
      RefinesFind(entries, clock, recency, sql);
      clock := clock + 1;
      if sql !in entries {
        return None;
      }
      var entry := entries[sql];
      RefinesUse(entries, clock - 1, recency, sql, entry.shape);
      entries := entries[sql := entry.(used := clock)];
      recency := Touch(recency, sql);
      return Some(entry.shape);
    }

    method Insert(sql: string, shape: V)
      requires Valid()
      modifies this
      ensures Valid()
      ensures recency == Put(old(recency), sql, shape, limit)
    {
      hide Find, Without;
      RefinesFind(entries, clock, recency, sql);
      RefinesSize(entries, recency);
      if |entries| >= limit && sql !in entries {
        EvictColdest();
      }
      clock := clock + 1;
      RefinesUse(entries, clock - 1, recency, sql, shape);
      entries := entries[sql := Cached(shape, clock)];
      recency := [(sql, shape)] + Without(recency, sql);
    }

    method EvictColdest()
      requires Valid()
      modifies this
      ensures Valid() && clock == old(clock)
      ensures recency == DropLast(old(recency))
    {
      RefinesSize(entries, recency);
      if |entries| > 0 {
        var coldest := Coldest();
        ColdestIsLast(entries, clock, recency, coldest);
        RefinesDrop(entries, clock, recency, coldest);
        entries := entries - {coldest};
        recency := DropLast(recency);
      }
    }

    /** The key with the lowest tick, in whatever order the map is walked. */
    method Coldest() returns (coldest: string)
      requires |entries| > 0
      ensures coldest in entries
      ensures forall k :: k in entries ==> entries[coldest].used <= entries[k].used
    {
      var todo := entries.Keys;
      coldest :| coldest in todo;
      todo := todo - {coldest};
      while todo != {}
        invariant todo <= entries.Keys && coldest in entries
        invariant forall k :: k in entries && k !in todo ==> entries[coldest].used <= entries[k].used
        decreases todo
      {
        var k :| k in todo;
        todo := todo - {k};
        if entries[k].used < entries[coldest].used {
          coldest := k;
        }
      }
    }

    method Clear()
      requires Valid()
      modifies this
      ensures Valid() && recency == []
    {
      entries := map[];
      recency := [];
    }

    method Len() returns (n: nat)
      requires Valid()
      ensures n == |recency|
    {
      RefinesSize(entries, recency);
      n := |entries|;
    }
  }
}
