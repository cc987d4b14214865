/**
  The protocol of `Portals` with its tags where the session keeps them: in the map of
  `HeldTags`, under the address of the portal's state (src/session.rs:359-386,
  src/handlers.rs:590-742).

  `Portals` files tags by portal. Here portals are bound and closed, addresses are reused,
  and every answer and every call is still the same.
*/
module KeyedPortals {
  import opened Wrappers
  import opened DataApi
  import opened SqlWords
  import opened Transactions
  import opened Portals
  import HeldTags

  datatype Keyed = Keyed(ledger: Ledger, parked: map<PortalId, Outcome>, tags: HeldTags.State<Outcome>)

  datatype Event =
    | Bind(portal: PortalId, address: HeldTags.Address)
    | Close(portal: PortalId)
    | Do(command: Command)

  /** The map's own operation that an event starts from, if it is about a portal. */
  function TagOp(e: Event): Option<HeldTags.Op<Outcome>> {
    match e
    case Bind(p, address) => Some(HeldTags.Bind(p, address))
    case Close(p) => Some(HeldTags.Close(p))
    case Do(c) => if ForPortal(c) then Some(HeldTags.Take(c.portal)) else None
  }

  /** A command needs its portal; a new portal takes any free address. */
  predicate CanHappen(k: Keyed, e: Event) {
    TagOp(e).Some? ==> HeldTags.Enabled(k.tags, TagOp(e).value)
  }

  function TagOf(k: Keyed, p: PortalId): Option<Outcome>
    requires HeldTags.Enabled(k.tags, HeldTags.Take(p))
  {
    HeldTags.TagAt(k.tags.pending, k.tags.memory, p)
  }

  ghost function KeyedRun(k: Keyed, raw: string, stmt: Result<Prepared, ErrorInfo>, w: World): (Keyed, Answer) {
    match stmt
    case Err(e) => (k, Failed(e))
    case Ok(prepared) =>
      var (ledger, answer) := Ran(k.ledger, raw, prepared, w);
      (k.(ledger := ledger), answer)
  }

  /** `do_describe_portal`, with `hold_tag` for a result without rows. */
  ghost function KeyedDescribe(k: Keyed, p: PortalId, raw: string, stmt: Result<Prepared, ErrorInfo>,
      w: World): (Keyed, Answer)
    requires HeldTags.Enabled(k.tags, HeldTags.Take(p))
  {
    if TransactionControl(raw).Some? then (k, NoData)
    else
      var (after, answer) := KeyedRun(k, raw, stmt, w);
      match answer
      case RowsAnswer(out) => (after.(parked := after.parked[p := out]), answer)
      case CountAnswer(out) => (after.(tags := HeldTags.Step(after.tags, HeldTags.Hold(p, out))), NoData)
      case _ => (after, answer)
  }

  /** `on_execute`, which asks `take_tag` first. */
  ghost function KeyedExecute(k: Keyed, p: PortalId, raw: string, stmt: Result<Prepared, ErrorInfo>,
      w: World): (Keyed, Answer)
    requires HeldTags.Enabled(k.tags, HeldTags.Take(p))
  {
    var tag := TagOf(k, p);
    var taken := k.(tags := HeldTags.Step(k.tags, HeldTags.Take(p)));
    if tag.Some? then (taken, CountAnswer(tag.value))
    else if p in taken.parked then (taken, RowsAnswer(taken.parked[p]))
    else
      var (after, answer) := KeyedRun(taken, raw, stmt, w);
      match answer
      case RowsAnswer(out) => (after.(parked := after.parked[p := out]), answer)
      case _ => (after, answer)
  }

  ghost function KeyedNext(k: Keyed, e: Event, w: World): (Keyed, Answer)
    requires CanHappen(k, e)
  {
    match e
    case Bind(_, _) => (k.(tags := HeldTags.Step(k.tags, TagOp(e).value)), NoData)
    case Close(_) => (k.(tags := HeldTags.Step(k.tags, TagOp(e).value)), NoData)
    case Do(DescribePortal(p, raw, stmt)) => KeyedDescribe(k, p, raw, stmt, w)
    case Do(ExecutePortal(p, raw, stmt)) => KeyedExecute(k, p, raw, stmt, w)
    case Do(SimpleStatement(text)) => KeyedRun(k, text, Ok(SimplePrepared(text)), w)
    case Do(Other(op)) => (k.(ledger := Step(k.ledger, op, w.oracle)), NoData)
  }

  // ------------------------------------------------------------------- every run

  ghost predicate Possible(k: Keyed, es: seq<Event>, w: World)
    decreases |es|
  {
    es == [] || (CanHappen(k, es[0]) && Possible(KeyedNext(k, es[0], w).0, es[1..], w))
  }

  ghost function KeyedAll(k: Keyed, es: seq<Event>, w: World): Keyed
    requires Possible(k, es, w)
    decreases |es|
  {
    if es == [] then k else KeyedAll(KeyedNext(k, es[0], w).0, es[1..], w)
  }

  /** What the client is answered, command by command. */
  ghost function KeyedAnswers(k: Keyed, es: seq<Event>, w: World): seq<Answer>
    requires Possible(k, es, w)
    decreases |es|
  {
    if es == [] then []
    else
      (if es[0].Do? then [KeyedNext(k, es[0], w).1] else []) + KeyedAnswers(KeyedNext(k, es[0], w).0, es[1..], w)
  }

  function Commands(es: seq<Event>): seq<Command> {
    if es == [] then []
    else (if es[0].Do? then [es[0].command] else []) + Commands(es[1..])
  }

  ghost function Answers(s: State, cs: seq<Command>, w: World): seq<Answer>
    decreases |cs|
  {
    if cs == [] then [] else [Next(s, cs[0], w).1] + Answers(Next(s, cs[0], w).0, cs[1..], w)
  }

  /** The two states hold the same, for every portal a client can still name. */
  ghost predicate Same(k: Keyed, s: State) {
    k.ledger == s.ledger && k.parked == s.parked && HeldTags.Agrees(k.tags, s.held)
  }

  lemma TakenIs(k: Keyed, s: State, p: PortalId)
    requires Same(k, s) && HeldTags.Enabled(k.tags, HeldTags.Take(p))
    ensures TagOf(k, p) == if p in s.held then Some(s.held[p]) else None
    ensures HeldTags.Agrees(HeldTags.Step(k.tags, HeldTags.Take(p)), s.held - {p})
    ensures p !in s.held ==> s.held - {p} == s.held
  {
    HeldTags.StepAgrees(k.tags, s.held, HeldTags.Take(p));
    assert HeldTags.Owed(s.held, [HeldTags.Take(p)]) == s.held - {p} by {
      assert [HeldTags.Op<Outcome>.Take(p)][1..] == [];
    }
  }

  lemma HeldIs(tags: HeldTags.State<Outcome>, held: map<PortalId, Outcome>, p: PortalId, out: Outcome)
    requires HeldTags.Agrees(tags, held) && HeldTags.Enabled(tags, HeldTags.Take(p))
    ensures HeldTags.Agrees(HeldTags.Step(tags, HeldTags.Hold(p, out)), held[p := out])
  {
    hide HeldTags.Agrees, HeldTags.Step;
    HeldTags.StepAgrees(tags, held, HeldTags.Hold(p, out));
    assert HeldTags.Owed(held, [HeldTags.Hold(p, out)]) == held[p := out] by {
      assert [HeldTags.Op<Outcome>.Hold(p, out)][1..] == [];
    }
  }

  lemma BoundOrClosed(k: Keyed, s: State, e: Event, w: World)
    requires Same(k, s) && CanHappen(k, e) && !e.Do?
    ensures Same(KeyedNext(k, e, w).0, s)
  {
    HeldTags.StepAgrees(k.tags, s.held, TagOp(e).value);
    assert HeldTags.Owed(s.held, [TagOp(e).value]) == s.held by {
      assert [TagOp(e).value][1..] == [];
    }
  }

  lemma OneCommandSame(k: Keyed, s: State, c: Command, w: World)
    requires Same(k, s) && CanHappen(k, Do(c))
    ensures Same(KeyedNext(k, Do(c), w).0, Next(s, c, w).0)
    ensures KeyedNext(k, Do(c), w).1 == Next(s, c, w).1
  {
    hide Ran, TransactionControl, HeldTags.Agrees, HeldTags.Step, HeldTags.TagAt;
    match c {
      case DescribePortal(p, raw, stmt) =>
        var answer := KeyedRun(k, raw, stmt, w).1;
        if answer.CountAnswer? {
          HeldIs(k.tags, s.held, p, answer.out);
        }
      case ExecutePortal(p, raw, stmt) =>
        TakenIs(k, s, p);
      case SimpleStatement(text) =>
      case Other(op) =>
    }
  }

  /** Over every run, with portals bound and closed and whatever addresses are reused, the
      client is answered as if tags were filed by portal, and the same calls are made. */
  lemma {:induction false} AddressesDoNotMatter(k: Keyed, s: State, es: seq<Event>, w: World)
    requires Same(k, s) && Possible(k, es, w)
    ensures KeyedAnswers(k, es, w) == Answers(s, Commands(es), w)
    ensures Same(KeyedAll(k, es, w), RunAll(s, Commands(es), w))
    decreases |es|
  {
    if es != [] {
      hide KeyedNext, Next, Same, CanHappen;
      var next := KeyedNext(k, es[0], w).0;
      if es[0].Do? {
        var c := es[0].command;
        OneCommandSame(k, s, c, w);
        AddressesDoNotMatter(next, Next(s, c, w).0, es[1..], w);
        assert Commands(es)[0] == c && Commands(es)[1..] == Commands(es[1..]);
      } else {
        BoundOrClosed(k, s, es[0], w);
        AddressesDoNotMatter(next, s, es[1..], w);
        assert Commands(es) == Commands(es[1..]);
      }
    }
  }

  /** In particular for a new connection. */
  lemma NewConnection(ledger: Ledger, es: seq<Event>, w: World)
    requires Possible(Keyed(ledger, map[], HeldTags.EMPTY()), es, w)
    ensures var k, s := Keyed(ledger, map[], HeldTags.EMPTY()), State(ledger, map[], map[]);
      && KeyedAnswers(k, es, w) == Answers(s, Commands(es), w)
      && KeyedAll(k, es, w).ledger == RunAll(s, Commands(es), w).ledger
  {
    AddressesDoNotMatter(Keyed(ledger, map[], HeldTags.EMPTY()), State(ledger, map[], map[]), es, w);
  }
}
