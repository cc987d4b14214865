/**
  Command tags held between Describe and Execute, src/session.rs:359-386: a map keyed
  by the address of a portal's state, which holds a reference to that state.

  Addresses are reused: the allocator may hand out any address that no object has at
  the time. What makes the key sound is that an entry keeps its object alive.
*/
module HeldTags {
  import opened Wrappers
  import Seqs

  type Address = nat

  /** The identity of a portal's state; each Bind makes a new one. */
  type StateId = nat

  datatype Pending<T> = Pending(keepalive: StateId, tag: T)

  /** The objects in memory, and those referred to from outside the map of tags. */
  datatype Memory = Memory(at: map<StateId, Address>, outside: set<StateId>)

  datatype State<T> = State(memory: Memory, pending: map<Address, Pending<T>>, used: set<StateId>)

  datatype Op<T> =
    | Bind(id: StateId, address: Address)
    | Close(id: StateId)
    | Hold(id: StateId, tag: T)
    | Take(id: StateId)

  // ------------------------------------------------------------------ the operations

  function Keeps<T>(pending: map<Address, Pending<T>>): set<StateId> { set a | a in pending :: pending[a].keepalive }

  /** Objects nobody refers to are freed. */
  function Collected<T>(at: map<StateId, Address>, outside: set<StateId>, pending: map<Address, Pending<T>>): Memory {
    Memory(map id | id in at && (id in outside || id in Keeps(pending)) :: at[id], outside)
  }

  /** `retain`: an entry stays while its object has a reference besides the entry's own. */
  function Retained<T>(pending: map<Address, Pending<T>>, outside: set<StateId>): map<Address, Pending<T>> {
    map a | a in pending && pending[a].keepalive in outside :: pending[a]
  }

  function AfterHold<T>(pending: map<Address, Pending<T>>, m: Memory, id: StateId, tag: T): map<Address, Pending<T>>
    requires id in m.at
  {
    Retained(pending, m.outside)[m.at[id] := Pending(id, tag)]
  }

  function AfterTake<T>(pending: map<Address, Pending<T>>, m: Memory, id: StateId): map<Address, Pending<T>>
    requires id in m.at
  {
    pending - {m.at[id]}
  }

  /** What `take_tag` finds under the portal's address. */
  function TagAt<T>(pending: map<Address, Pending<T>>, m: Memory, id: StateId): Option<T>
    requires id in m.at
  {
    if m.at[id] in pending then Some(pending[m.at[id]].tag) else None
  }

  /** An operation on a portal needs the portal; a new state takes any free address. */
  predicate Enabled<T>(s: State<T>, op: Op<T>) {
    if op.Bind? then op.id !in s.used && forall id :: id in s.memory.at ==> s.memory.at[id] != op.address
    else op.id in s.memory.outside && op.id in s.memory.at
  }

  function Step<T>(s: State<T>, op: Op<T>): State<T>
    requires Enabled(s, op)
  {
    var m := s.memory;
    match op
    case Bind(id, address) =>
      State(Memory(m.at[id := address], m.outside + {id}), s.pending, s.used + {id})
    case Close(id) =>
      s.(memory := Collected(m.at, m.outside - {id}, s.pending))
    case Hold(id, tag) =>
      var pending := AfterHold(s.pending, m, id, tag);
      s.(memory := Collected(m.at, m.outside, pending), pending := pending)
    case Take(id) =>
      var pending := AfterTake(s.pending, m, id);
      s.(memory := Collected(m.at, m.outside, pending), pending := pending)
  }

  // -------------------------------------------------------------------- the invariant

  /** No two objects share an address; every key is the address of the object its entry
      keeps; and what is in memory is what somebody refers to. */
  ghost predicate Sound<T>(s: State<T>) {
    var m := s.memory;
    && m.at.Keys <= s.used
    && m.at.Keys == m.outside + Keeps(s.pending)
    && (forall i, j :: i in m.at && j in m.at && m.at[i] == m.at[j] ==> i == j)
    && (forall a :: a in s.pending ==> s.pending[a].keepalive in m.at && m.at[s.pending[a].keepalive] == a)
  }

  /** Every entry keeps its object in memory, at the address it is filed under. */
  lemma StepSound<T>(s: State<T>, op: Op<T>)
    requires Sound(s) && Enabled(s, op)
    ensures Sound(Step(s, op))
  {
    var m, t := s.memory, Step(s, op);
    match op {
      case Bind(id, address) =>
      case Close(id) =>
      case Hold(id, tag) =>
        assert t.pending[m.at[id]].keepalive == id;
      case Take(id) =>
    }
  }

  /** The map is as large as the set of states its entries keep. */
  lemma {:induction false} SizeIsKeeps<T>(pending: map<Address, Pending<T>>, at: map<StateId, Address>)
    requires forall a :: a in pending ==> pending[a].keepalive in at && at[pending[a].keepalive] == a
    ensures |pending| == |Keeps(pending)|
    decreases |pending|
  {
    if pending != map[] {
      var a :| a in pending;
      var rest := pending - {a};
      SizeIsKeeps(rest, at);
      forall id | id in Keeps(pending) ensures id in Keeps(rest) + {pending[a].keepalive} {
        var b :| b in pending && pending[b].keepalive == id;
        assert b == a || (b in rest && rest[b].keepalive == id);
      }
      assert Keeps(pending) == Keeps(rest) + {pending[a].keepalive};
      assert pending[a].keepalive !in Keeps(rest);
      assert pending.Keys == rest.Keys + {a} && |pending| == |pending.Keys| && |rest| == |rest.Keys|;
    }
  }

  /** After a tag is held, no more are waiting than there are live portals. */
  lemma HoldPrunes<T>(s: State<T>, id: StateId, tag: T)
    requires Sound(s) && Enabled(s, Hold(id, tag))
    ensures var t := Step(s, Hold(id, tag)); |t.pending| <= |t.memory.outside|
  {
    var t := Step(s, Hold(id, tag));
    StepSound(s, Hold(id, tag));
    SizeIsKeeps(t.pending, t.memory.at);
    Seqs.SubsetSize(Keeps(t.pending), t.memory.outside);
  }

  // ------------------------------------------------------------------------ every run

  function EMPTY<T>(): State<T> { State(Memory(map[], {}), map[], {}) }

  ghost predicate Possible<T>(s: State<T>, ops: seq<Op<T>>)
    decreases |ops|
  {
    ops == [] || (Enabled(s, ops[0]) && Possible(Step(s, ops[0]), ops[1..]))
  }

  function Run<T>(s: State<T>, ops: seq<Op<T>>): State<T>
    requires Possible(s, ops)
    decreases |ops|
  {
    if ops == [] then s else Run(Step(s, ops[0]), ops[1..])
  }

  /** The tag a portal is owed: the last one held for it since it last took one. */
  function Owed<T>(owed: map<StateId, T>, ops: seq<Op<T>>): map<StateId, T>
    decreases |ops|
  {
    if ops == [] then owed
    else
      match ops[0]
      case Hold(id, tag) => Owed(owed[id := tag], ops[1..])
      case Take(id) => Owed(owed - {id}, ops[1..])
      case _ => Owed(owed, ops[1..])
  }

  /** The map agrees with the books, for every portal a client can still name. */
  ghost predicate Agrees<T>(s: State<T>, owed: map<StateId, T>) {
    && Sound(s)
    && owed.Keys <= s.used
    && forall id :: id in s.memory.outside ==>
         TagAt(s.pending, s.memory, id) == if id in owed then Some(owed[id]) else None
  }

  lemma StepAgrees<T>(s: State<T>, owed: map<StateId, T>, op: Op<T>)
    requires Agrees(s, owed) && Enabled(s, op)
    ensures Agrees(Step(s, op), Owed(owed, [op]))
  {
    StepSound(s, op);
    var t := Step(s, op);
    assert [op][1..] == [];
    forall id | id in t.memory.outside
      ensures TagAt(t.pending, t.memory, id) == if id in Owed(owed, [op]) then Some(Owed(owed, [op])[id]) else None
    {
      if !(op.Bind? && id == op.id) {
        TagKept(s, op, id);
      }
    }
  }

  lemma TagKept<T>(s: State<T>, op: Op<T>, id: StateId)
    requires Sound(s) && Enabled(s, op) && id in s.memory.outside && id in Step(s, op).memory.outside
    requires Sound(Step(s, op))
    ensures var t := Step(s, op);
      TagAt(t.pending, t.memory, id) ==
        if op.Hold? && op.id == id then Some(op.tag)
        else if op.Take? && op.id == id then None
        else TagAt(s.pending, s.memory, id)
  {
    var m := s.memory;
    if m.at[id] in s.pending {
      assert s.pending[m.at[id]].keepalive == id;
    }
  }

  lemma OwedSplit<T>(owed: map<StateId, T>, op: Op<T>, ops: seq<Op<T>>)
    ensures Owed(owed, [op] + ops) == Owed(Owed(owed, [op]), ops)
  {
    assert ([op] + ops)[1..] == ops && [op][1..] == [];
  }

  lemma {:induction false} RunAgrees<T>(s: State<T>, owed: map<StateId, T>, ops: seq<Op<T>>)
    requires Agrees(s, owed) && Possible(s, ops)
    ensures Agrees(Run(s, ops), Owed(owed, ops))
    decreases |ops|
  {
    if ops != [] {
      StepAgrees(s, owed, ops[0]);
      assert ops == [ops[0]] + ops[1..];
      OwedSplit(owed, ops[0], ops[1..]);
      RunAgrees(Step(s, ops[0]), Owed(owed, [ops[0]]), ops[1..]);
    }
  }

  /** Held tags never cross portals: after any run, whatever addresses the allocator
      reused, a portal takes exactly the last tag held for that same portal, and takes
      it once; a portal that is owed none takes none. */
  lemma TakeReturnsOwed<T>(ops: seq<Op<T>>, id: StateId)
    requires Possible(EMPTY<T>(), ops)
    requires id in Run(EMPTY<T>(), ops).memory.outside
    ensures var s := Run(EMPTY<T>(), ops);
      && id in s.memory.at
      && TagAt(s.pending, s.memory, id) == (if id in Owed(map[], ops) then Some(Owed(map[], ops)[id]) else None)
      && Enabled(s, Take(id)) && TagAt(Step(s, Take(id)).pending, s.memory, id) == None
  {
    RunAgrees(EMPTY<T>(), map[], ops);
  }

  /** When a portal goes, its address is free for the next one exactly if no tag is
      waiting under it. */
  lemma AddressReused<T>(s: State<T>, id: StateId, next: StateId)
    requires Sound(s) && Enabled(s, Close(id)) && next !in s.used
    ensures Enabled(Step(s, Close(id)), Bind(next, s.memory.at[id])) <==> TagAt(s.pending, s.memory, id) == None
  {
    var a, t := s.memory.at[id], Step(s, Close(id));
    if a in s.pending {
      assert s.pending[a].keepalive == id && t.memory.at[id] == a;
    } else {
      assert id !in Keeps(s.pending);
    }
  }

  // ----------------------------------------------------------------- the session's map

  class PendingTags<T> {
    var pending: map<Address, Pending<T>>

    constructor ()
      ensures pending == map[]
    {
      pending := map[];
    }

    method HoldTag(m: Memory, id: StateId, tag: T)
      requires id in m.at
      modifies this
      ensures pending == AfterHold(old(pending), m, id, tag)
    {
      pending := map a | a in pending && pending[a].keepalive in m.outside :: pending[a];
      pending := pending[m.at[id] := Pending(id, tag)];
    }

    method TakeTag(m: Memory, id: StateId) returns (r: Option<T>)
      requires id in m.at
      modifies this
      ensures r == TagAt(old(pending), m, id)
      ensures pending == AfterTake(old(pending), m, id)
    {
      var key := m.at[id];
      r := if key in pending then Some(pending[key].tag) else None;
      pending := pending - {key};
    }
  }
}
