/**
  The two-level shape cache: one store shared by the process and one cache for each
  session, src/session.rs:139-199 and src/session.rs:326-357.
*/
module Shapes {
  import opened Wrappers
  import Seqs
  import opened Lru
  import opened ShapeCache

  const SESSION_SHAPE_LIMIT := 512
  const SHARED_SHAPE_LIMIT := 4096

  // ------------------------------------------------- one operation on the two lists

  datatype Levels<V> = Levels(own: seq<Entry<V>>, store: seq<Entry<V>>)

  function Answer<V>(l: Levels<V>, sharing: bool, key: string): Option<V> {
    if Find(l.own, key).Some? then Find(l.own, key)
    else if sharing then Find(l.store, key)
    else None
  }

  function LookUp<V>(l: Levels<V>, sharing: bool, key: string): Levels<V> {
    Levels(Touch(l.own, key), if sharing && Find(l.own, key).None? then Touch(l.store, key) else l.store)
  }

  function Remember<V>(l: Levels<V>, sharing: bool, key: string, value: V, shareable: bool): Levels<V> {
    Levels(Put(l.own, key, value, SESSION_SHAPE_LIMIT),
      if shareable && sharing then Put(l.store, key, value, SHARED_SHAPE_LIMIT) else l.store)
  }

  class SharedShapes<V> {
    const entries: ShapeCache<V>
    const shared: bool

    constructor (shared: bool)
      ensures this.shared == shared && fresh(entries)
      ensures entries.Valid() && entries.recency == [] && entries.limit == SHARED_SHAPE_LIMIT == 4096
    {
      this.shared := shared;
      this.entries := new ShapeCache(SHARED_SHAPE_LIMIT);
    }

    method Get(sql: string) returns (r: Option<V>)
      requires entries.Valid()
      modifies entries
      ensures entries.Valid()
      ensures r == if shared then Find(old(entries.recency), sql) else None
      ensures entries.recency == if shared then Touch(old(entries.recency), sql) else old(entries.recency)
    {
      if !shared {
        return None;
      }
      r := entries.Get(sql);
    }

    method Insert(sql: string, shape: V)
      requires entries.Valid()
      modifies entries
      ensures entries.Valid()
      ensures entries.recency ==
        if shared then Put(old(entries.recency), sql, shape, entries.limit) else old(entries.recency)
    {
      if shared {
        entries.Insert(sql, shape);
      }
    }

    method Clear()
      requires entries.Valid()
      modifies entries
      ensures entries.Valid() && entries.recency == []
    {
      entries.Clear();
    }
  }

  /** The part of a session that remembers shapes. */
  class SessionShapes<V> {
    const describeCache: ShapeCache<V>
    const shapes: SharedShapes<V>

    ghost predicate Valid()
      reads describeCache, shapes.entries
    {
      && describeCache != shapes.entries
      && describeCache.Valid() && describeCache.limit == SESSION_SHAPE_LIMIT
      && shapes.entries.Valid() && shapes.entries.limit == SHARED_SHAPE_LIMIT
    }

    ghost function View(): Levels<V>
      reads describeCache, shapes.entries
    {
      Levels(describeCache.recency, shapes.entries.recency)
    }

    constructor (shapes: SharedShapes<V>)
      requires shapes.entries.Valid() && shapes.entries.limit == SHARED_SHAPE_LIMIT
      ensures Valid() && this.shapes == shapes && fresh(describeCache)
      ensures View() == Levels([], shapes.entries.recency)
    {
      this.shapes := shapes;
      this.describeCache := new ShapeCache(SESSION_SHAPE_LIMIT);
    }

    method CachedShape(sql: string) returns (r: Option<V>)
      requires Valid()
      modifies describeCache, shapes.entries
      ensures Valid()
      ensures r == Answer(old(View()), shapes.shared, sql)
      ensures View() == LookUp(old(View()), shapes.shared, sql)
    {
      r := describeCache.Get(sql);
      if r.None? {
        r := shapes.Get(sql);
      }
    }

    method CacheShape(sql: string, shape: V, shareable: bool)
      requires Valid()
      modifies describeCache, shapes.entries
      ensures Valid()
      ensures View() == Remember(old(View()), shapes.shared, sql, shape, shareable)
    {
      if shareable {
        shapes.Insert(sql, shape);
      }
      describeCache.Insert(sql, shape);
    }

    method ForgetShapes()
      requires Valid()
      modifies describeCache, shapes.entries
      ensures Valid()
      ensures View() == Levels([], [])
    {
      describeCache.Clear();
      shapes.Clear();
    }
  }

  // --------------------------------------------- any number of sessions, interleaved

  datatype Event<V> =
    | Lookup(session: nat, key: string)
    | Store(session: nat, key: string, value: V, shareable: bool)
    | Forget(session: nat)

  datatype World<V> = World(own: map<nat, seq<Entry<V>>>, store: seq<Entry<V>>)

  function OwnOf<V>(w: World<V>, s: nat): seq<Entry<V>> { if s in w.own then w.own[s] else [] }

  function Seen<V>(w: World<V>, s: nat): Levels<V> { Levels(OwnOf(w, s), w.store) }

  function With<V>(w: World<V>, s: nat, l: Levels<V>): World<V> { World(w.own[s := l.own], l.store) }

  function Step<V>(w: World<V>, e: Event<V>, sharing: bool): World<V> {
    match e
    case Lookup(s, key) => With(w, s, LookUp(Seen(w, s), sharing, key))
    case Store(s, key, value, shareable) => With(w, s, Remember(Seen(w, s), sharing, key, value, shareable))
    case Forget(s) => With(w, s, Levels([], []))
  }

  /** The caches after a run, which starts with a new process. */
  function After<V>(events: seq<Event<V>>, sharing: bool): World<V> {
    if events == [] then World(map[], [])
    else Step(After(events[..|events| - 1], sharing), events[|events| - 1], sharing)
  }

  // ------------------------------------------------------------- where shapes come from

  /** Event `i` gave session `s` this shape, and nothing since replaced or forgot it. */
  ghost predicate OwnSource<V>(events: seq<Event<V>>, s: nat, key: string, value: V, i: nat) {
    && i < |events|
    && events[i].Store? && events[i].session == s && events[i].key == key && events[i].value == value
    && forall j :: i < j < |events| && events[j].session == s ==>
         !events[j].Forget? && (events[j].Store? ==> events[j].key != key)
  }

  /** Event `i` shared this shape, and nothing since replaced it or cleared the store. */
  ghost predicate SharedSource<V>(events: seq<Event<V>>, key: string, value: V, i: nat) {
    && i < |events|
    && events[i].Store? && events[i].shareable && events[i].key == key && events[i].value == value
    && forall j :: i < j < |events| ==>
         !events[j].Forget? && (events[j].Store? && events[j].shareable ==> events[j].key != key)
  }

  lemma TouchMember<V>(xs: seq<Entry<V>>, key: string, e: Entry<V>)
    requires e in Touch(xs, key)
    ensures e in xs
  {
    FindIs(xs, key);
    if Find(xs, key).Some? {
      WithoutMember(xs, key, e);
    }
  }

  lemma PutMember<V>(xs: seq<Entry<V>>, key: string, value: V, limit: nat, e: Entry<V>)
    requires e in Put(xs, key, value, limit)
    ensures e == (key, value) || (e in xs && e.0 != key)
  {
    var room := if |xs| >= limit && Find(xs, key).None? then DropLast(xs) else xs;
    WithoutMember(room, key, e);
  }

  /** An entry of a session's cache was there before the step, which left its key
      alone, or is what the step stored. */
  lemma OwnStep<V>(w: World<V>, last: Event<V>, sharing: bool, s: nat, e: Entry<V>)
    requires e in OwnOf(Step(w, last, sharing), s)
    ensures (last.Store? && last.session == s && e == (last.key, last.value)) ||
      (e in OwnOf(w, s) && (last.session == s ==> !last.Forget? && (last.Store? ==> last.key != e.0)))
  {
    if last.session == s {
      match last {
        case Lookup(_, key) => TouchMember(OwnOf(w, s), key, e);
        case Store(_, key, value, _) => PutMember(OwnOf(w, s), key, value, SESSION_SHAPE_LIMIT, e);
        case Forget(_) =>
      }
    }
  }

  lemma OwnSourceExtends<V>(events: seq<Event<V>>, last: Event<V>, s: nat, key: string, value: V, i: nat)
    requires OwnSource(events, s, key, value, i)
    requires last.session == s ==> !last.Forget? && (last.Store? ==> last.key != key)
    ensures OwnSource(events + [last], s, key, value, i)
  {
  }

  lemma {:induction false} OwnEntriesHaveSource<V>(events: seq<Event<V>>, sharing: bool, s: nat, e: Entry<V>)
    returns (i: nat)
    requires e in OwnOf(After(events, sharing), s)
    ensures OwnSource(events, s, e.0, e.1, i)
  {
    var n := |events| - 1;
    var last := events[n];
    assert events == events[..n] + [last];
    OwnStep(After(events[..n], sharing), last, sharing, s, e);
    if last.Store? && last.session == s && e == (last.key, last.value) {
      i := n;
    } else {
      i := OwnEntriesHaveSource(events[..n], sharing, s, e);
      OwnSourceExtends(events[..n], last, s, e.0, e.1, i);
    }
  }

  lemma StoreStep<V>(w: World<V>, last: Event<V>, sharing: bool, e: Entry<V>)
    requires e in Step(w, last, sharing).store
    ensures (sharing && last.Store? && last.shareable && e == (last.key, last.value)) ||
      (e in w.store && !last.Forget? && (sharing && last.Store? && last.shareable ==> last.key != e.0))
  {
    match last {
      case Lookup(s, key) =>
        if sharing && Find(OwnOf(w, s), key).None? {
          TouchMember(w.store, key, e);
        }
      case Store(_, key, value, shareable) =>
        if shareable && sharing {
          PutMember(w.store, key, value, SHARED_SHAPE_LIMIT, e);
        }
      case Forget(_) =>
    }
  }

  lemma SharedSourceExtends<V>(events: seq<Event<V>>, last: Event<V>, key: string, value: V, i: nat)
    requires SharedSource(events, key, value, i)
    requires !last.Forget? && (last.Store? && last.shareable ==> last.key != key)
    ensures SharedSource(events + [last], key, value, i)
  {
  }

  lemma {:induction false} SharedEntriesHaveSource<V>(events: seq<Event<V>>, sharing: bool, e: Entry<V>)
    returns (i: nat)
    requires e in After(events, sharing).store
    ensures sharing && SharedSource(events, e.0, e.1, i)
  {
    if !sharing {
      DisabledStaysEmpty(events);
    }
    var n := |events| - 1;
    var last := events[n];
    assert events == events[..n] + [last];
    StoreStep(After(events[..n], sharing), last, sharing, e);
    if sharing && last.Store? && last.shareable && e == (last.key, last.value) {
      i := n;
    } else {
      i := SharedEntriesHaveSource(events[..n], sharing, e);
      SharedSourceExtends(events[..n], last, e.0, e.1, i);
    }
  }

  /** A store that does not share stays empty. */
  lemma {:induction false} DisabledStaysEmpty<V>(events: seq<Event<V>>)
    ensures After(events, false).store == []
  {
    if events != [] {
      DisabledStaysEmpty(events[..|events| - 1]);
    }
  }

  /** A shape a session is given is the latest it stored itself since it last forgot,
      or, failing that, the latest shareable one stored by anyone since the store was
      last cleared. */
  lemma AnswersHaveSource<V>(events: seq<Event<V>>, sharing: bool, s: nat, key: string, value: V)
    requires Answer(Seen(After(events, sharing), s), sharing, key) == Some(value)
    ensures var own := Find(OwnOf(After(events, sharing), s), key);
      if own.Some? then exists i :: OwnSource(events, s, key, value, i)
      else sharing && exists i :: SharedSource(events, key, value, i)
  {
    var w := After(events, sharing);
    if Find(OwnOf(w, s), key).Some? {
      FindIs(OwnOf(w, s), key);
      var i := OwnEntriesHaveSource(events, sharing, s, (key, value));
    } else {
      FindIs(w.store, key);
      var i := SharedEntriesHaveSource(events, sharing, (key, value));
    }
  }

  ghost predicate Stored<V>(events: seq<Event<V>>, i: nat, key: string, value: V) {
    i < |events| && events[i].Store? && events[i].key == key && events[i].value == value
  }

  /** What a session learned to keep to itself never reaches another session. */
  lemma PrivateStaysPrivate<V>(events: seq<Event<V>>, sharing: bool, s: nat, key: string, value: V)
    requires Answer(Seen(After(events, sharing), s), sharing, key) == Some(value)
    ensures exists i: nat ::
      Stored(events, i, key, value) && (events[i].session == s || (sharing && events[i].shareable))
  {
    AnswersHaveSource(events, sharing, s, key, value);
    if i: nat :| OwnSource(events, s, key, value, i) {
      assert Stored(events, i, key, value);
    } else {
      var i: nat :| SharedSource(events, key, value, i);
      assert Stored(events, i, key, value);
    }
  }

  /** Once a session has forgotten, every shape it is given was stored afterwards. */
  lemma ForgottenStaysForgotten<V>(events: seq<Event<V>>, sharing: bool, s: nat, f: nat, key: string, value: V)
    requires f < |events| && events[f] == Forget(s)
    requires Answer(Seen(After(events, sharing), s), sharing, key) == Some(value)
    ensures exists i: nat :: f < i && Stored(events, i, key, value)
  {
    AnswersHaveSource(events, sharing, s, key, value);
    if i: nat :| OwnSource(events, s, key, value, i) {
      assert i != f && Stored(events, i, key, value);
    } else {
      var i: nat :| SharedSource(events, key, value, i);
      assert i != f && Stored(events, i, key, value);
    }
  }

  // ------------------------------------------------------------- what is still answered

  /** The session's own events as operations on its cache. */
  function OwnOps<V>(events: seq<Event<V>>, s: nat): seq<Op<V>> {
    if events == [] then []
    else (if events[0].session == s then [OpOf(events[0])] else []) + OwnOps(events[1..], s)
  }

  function OpOf<V>(e: Event<V>): Op<V> {
    match e
    case Lookup(_, key) => Get(key)
    case Store(_, key, value, _) => Insert(key, value)
    case Forget(_) => Clear
  }

  lemma {:induction false} OwnOpsConcat<V>(a: seq<Event<V>>, b: seq<Event<V>>, s: nat)
    ensures OwnOps(a + b, s) == OwnOps(a, s) + OwnOps(b, s)
  {
    hide OpOf;
    if a == [] {
      assert a + b == b;
    } else {
      OwnOpsConcat(a[1..], b, s);
      assert (a + b)[1..] == a[1..] + b && (a + b)[0] == a[0];
      var first := if a[0].session == s then [OpOf(a[0])] else [];
      assert OwnOps(a + b, s) == first + OwnOps(a[1..] + b, s) && OwnOps(a, s) == first + OwnOps(a[1..], s);
      hide OwnOps;
      Seqs.Regroup(OwnOps(a + b, s), OwnOps(a, s), OwnOps(a[1..] + b, s), first, OwnOps(a[1..], s), OwnOps(b, s));
    }
  }

  lemma {:induction false} RunConcat<V>(a: seq<Op<V>>, b: seq<Op<V>>, xs: seq<Entry<V>>, limit: nat)
    ensures Run(a + b, xs, limit) == Run(b, Run(a, xs, limit), limit)
    decreases |a|
  {
    hide Apply;
    if a == [] {
      assert a + b == b;
    } else {
      RunConcat(a[1..], b, Apply(a[0], xs, limit), limit);
      assert (a + b)[1..] == a[1..] + b;
    }
  }

  lemma RunOne<V>(op: Op<V>, xs: seq<Entry<V>>, limit: nat)
    ensures Run([op], xs, limit) == Apply(op, xs, limit)
  {
    assert [op][1..] == [] && Run([], Apply(op, xs, limit), limit) == Apply(op, xs, limit);
  }

  lemma StepOwn<V>(w: World<V>, e: Event<V>, sharing: bool, s: nat)
    ensures OwnOf(Step(w, e, sharing), s) ==
      if e.session == s then Apply(OpOf(e), OwnOf(w, s), SESSION_SHAPE_LIMIT) else OwnOf(w, s)
  {
    hide Touch, Put, Find;
  }

  lemma OwnOpsOne<V>(e: Event<V>, s: nat)
    ensures OwnOps([e], s) == if e.session == s then [OpOf(e)] else []
  {
    assert [e][1..] == [] && OwnOps([e][1..], s) == [];
  }

  /** Other sessions do not reach a session's cache: it is what its own operations make it. */
  lemma {:induction false} OwnIsRun<V>(events: seq<Event<V>>, sharing: bool, s: nat)
    ensures OwnOf(After(events, sharing), s) == Run(OwnOps(events, s), [], SESSION_SHAPE_LIMIT)
  {
    if events != [] {
      hide Step, Apply, OwnOf, Run;
      var n := |events| - 1;
      var start, last := events[..n], events[n];
      assert After(events, sharing) == Step(After(start, sharing), last, sharing);
      hide After, OwnOps;
      OwnIsRun(start, sharing, s);
      StepOwn(After(start, sharing), last, sharing, s);
      assert events == start + [last];
      OwnOpsConcat(start, [last], s);
      OwnOpsOne(last, s);
      OwnRunSnoc(OwnOps(start, s), if last.session == s then [OpOf(last)] else [], OwnOps(events, s));
    }
  }

  /** What a run does to the shared store: a lookup uses it if the session's own cache has no
      answer, a shareable shape goes in, and forgetting clears it. */
  function StoreOps<V>(events: seq<Event<V>>): seq<Op<V>>
    decreases |events|
  {
    if events == [] then []
    else
      var n := |events| - 1;
      StoreOps(events[..n]) +
      match events[n]
      case Lookup(s, key) => if Find(OwnOf(After(events[..n], true), s), key).None? then [Get(key)] else []
      case Store(_, key, value, shareable) => if shareable then [Insert(key, value)] else []
      case Forget(_) => [Clear]
  }

  /** The shared store is what these operations make of an ideal list. */
  lemma {:induction false} StoreIsRun<V>(events: seq<Event<V>>)
    ensures After(events, true).store == Run(StoreOps(events), [], 4096)
    decreases |events|
  {
    if events != [] {
      var n := |events| - 1;
      var start := events[..n];
      StoreIsRun(start);
      var store := After(start, true).store;
      var more := match events[n]
        case Lookup(s, key) => if Find(OwnOf(After(start, true), s), key).None? then [Get(key)] else []
        case Store(_, key, value, shareable) => if shareable then [Insert(key, value)] else []
        case Forget(_) => [Clear];
      RunConcat(StoreOps(start), more, [], 4096);
      if more != [] {
        RunOne(more[0], store, 4096);
      }
    }
  }

  /** No session remembers more than 512 shapes, nor the process more than 4096. */
  lemma SizesKept<V>(events: seq<Event<V>>, sharing: bool, s: nat)
    ensures |OwnOf(After(events, sharing), s)| <= 512 && |After(events, sharing).store| <= 4096
  {
    hide After, OwnOps, OwnOf;
    OwnIsRun(events, sharing, s);
    RunKeeps<V>(OwnOps(events, s), [], SESSION_SHAPE_LIMIT);
    StoreKept(events, sharing);
  }

  lemma {:induction false} StoreKept<V>(events: seq<Event<V>>, sharing: bool)
    ensures |After(events, sharing).store| <= 4096 && DistinctKeys(After(events, sharing).store)
    decreases |events|
  {
    if events != [] {
      var n := |events| - 1;
      StoreKept(events[..n], sharing);
      var store := After(events[..n], sharing).store;
      match events[n] {
        case Lookup(_, key) => ApplyKeeps(Get(key), store, SHARED_SHAPE_LIMIT);
        case Store(_, key, value, _) => ApplyKeeps(Insert(key, value), store, SHARED_SHAPE_LIMIT);
        case Forget(_) =>
      }
    }
  }

  lemma OwnRunSnoc<V>(before: seq<Op<V>>, last: seq<Op<V>>, all: seq<Op<V>>)
    requires all == before + last && |last| <= 1
    ensures Run(all, [], SESSION_SHAPE_LIMIT) ==
      if last == [] then Run(before, [], SESSION_SHAPE_LIMIT)
      else Apply(last[0], Run(before, [], SESSION_SHAPE_LIMIT), SESSION_SHAPE_LIMIT)
  {
    hide Apply;
    RunConcat(before, last, [], SESSION_SHAPE_LIMIT);
    if last != [] {
      assert last == [last[0]];
      RunOne(last[0], Run(before, [], SESSION_SHAPE_LIMIT), SESSION_SHAPE_LIMIT);
    }
  }

  /** The other keys a session used in these events. */
  function OtherKeys<V>(events: seq<Event<V>>, s: nat, key: string): set<string> {
    set j | 0 <= j < |events| && events[j].session == s && !events[j].Forget? && events[j].key != key :: events[j].key
  }

  lemma {:induction false} OwnOpsOf<V>(events: seq<Event<V>>, s: nat, k: nat) returns (j: nat)
    requires k < |OwnOps(events, s)|
    ensures j < |events| && events[j].session == s && OwnOps(events, s)[k] == OpOf(events[j])
  {
    if events[0].session == s && k == 0 {
      j := 0;
    } else {
      var rest := OwnOpsOf(events[1..], s, if events[0].session == s then k - 1 else k);
      j := rest + 1;
    }
  }

  lemma OthersAreKeys<V>(events: seq<Event<V>>, s: nat, key: string)
    ensures Others(OwnOps(events, s), key) <= OtherKeys(events, s, key)
  {
    var ops := OwnOps(events, s);
    forall k | 0 <= k < |ops| && !ops[k].Clear? && ops[k].key != key ensures ops[k].key in OtherKeys(events, s, key) {
      var j := OwnOpsOf(events, s, k);
      assert events[j].key == ops[k].key;
    }
  }

  lemma {:induction false} LatestUnchanged<V>(ops: seq<Op<V>>, key: string, value: V)
    requires forall k :: 0 <= k < |ops| && ops[k].Insert? ==> ops[k].key != key
    ensures Latest(ops, key, value) == value
  {
    if ops != [] {
      LatestUnchanged(ops[1..], key, value);
    }
  }

  /** A session answers with the shape it stored last, as long as it has used fewer other
      keys since than its cache has places. */
  lemma SourceAnswers<V>(events: seq<Event<V>>, sharing: bool, s: nat, key: string, value: V, i: nat)
    requires OwnSource(events, s, key, value, i)
    requires |OtherKeys(events[i + 1..], s, key)| < 512
    ensures Answer(Seen(After(events, sharing), s), sharing, key) == Some(value)
  {
    var before, since := events[..i], events[i + 1..];
    var ops := OwnOps(since, s);
    assert events == before + ([events[i]] + since);
    OwnOpsConcat(before, [events[i]] + since, s);
    assert ([events[i]] + since)[1..] == since;
    assert OwnOps(events, s) == OwnOps(before, s) + ([Insert(key, value)] + ops);
    forall k | 0 <= k < |ops| ensures !ops[k].Clear? && (ops[k].Insert? ==> ops[k].key != key) {
      var j := OwnOpsOf(since, s, k);
      assert since[j] == events[i + 1 + j];
    }
    OthersAreKeys(since, s, key);
    Seqs.SubsetSize(Others(ops, key), OtherKeys(since, s, key));
    OwnIsRun(events, sharing, s);
    StillThere(OwnOps(before, s), key, value, ops);
  }

  lemma StillThere<V>(before: seq<Op<V>>, key: string, value: V, ops: seq<Op<V>>)
    requires forall k :: 0 <= k < |ops| ==> !ops[k].Clear? && (ops[k].Insert? ==> ops[k].key != key)
    requires |Others(ops, key)| < SESSION_SHAPE_LIMIT
    ensures Find(Run(before + ([Insert(key, value)] + ops), [], SESSION_SHAPE_LIMIT), key) == Some(value)
  {
    hide Find, Put, Others;
    var xs := Run(before, [], SESSION_SHAPE_LIMIT);
    RunConcat(before, [Insert(key, value)] + ops, [], SESSION_SHAPE_LIMIT);
    RunConcat([Insert(key, value)], ops, xs, SESSION_SHAPE_LIMIT);
    RunOne(Insert(key, value), xs, SESSION_SHAPE_LIMIT);
    RunKeeps<V>(before, [], SESSION_SHAPE_LIMIT);
    RecentlyUsedStays(xs, key, value, ops, SESSION_SHAPE_LIMIT);
    LatestUnchanged(ops, key, value);
  }

  /** After some session forgot, at event `f`, a session is still answered with a shape
      stored before, exactly if it stored that shape itself before `f` and has neither
      replaced it nor forgotten since; provided it has not used so many other keys that
      its cache let go of it. */
  lemma StaleExactly<V>(events: seq<Event<V>>, sharing: bool, f: nat, t: nat, key: string, value: V)
    requires f < |events| && events[f].Forget?
    requires forall i: nat :: i < f && OwnSource(events, t, key, value, i) ==>
      |OtherKeys(events[i + 1..], t, key)| < 512
    ensures AnsweredFromBefore(events, sharing, f, t, key, value) <==>
      exists i: nat :: i < f && OwnSource(events, t, key, value, i)
  {
    if i: nat :| i < f && OwnSource(events, t, key, value, i) {
      SourceAnswers(events, sharing, t, key, value, i);
    }
  }

  /** The answer is `value`, and where it comes from is an event before `f`. */
  ghost predicate AnsweredFromBefore<V>(events: seq<Event<V>>, sharing: bool, f: nat, t: nat, key: string, value: V) {
    && Answer(Seen(After(events, sharing), t), sharing, key) == Some(value)
    && exists i: nat :: i < f && (OwnSource(events, t, key, value, i) || SharedSource(events, key, value, i))
  }

  /** So a shape one session probed survives another session's schema change. */
  lemma StaleShapeExample(value: int)
    ensures var events := [Store(1, "q", value, true), Forget(0)];
      Answer(Seen(After(events, true), 1), true, "q") == Some(value)
  {
    var one := [Store(1, "q", value, true)];
    var two := [Store(1, "q", value, true), Forget(0)];
    assert one[..0] == [] && two[..1] == one;
    assert After(one, true) == Step(After([], true), one[0], true);
    assert OwnOf(After(one, true), 1) == [("q", value)];
  }
}
