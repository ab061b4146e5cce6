/** Runs of the engine: packets, timers and requests in any order, and what holds in every state they lead to. */
module Nat64Runs {

  import opened Types
  import opened TableWalk
  import opened Nat64
  import opened Nat64Inv
  import opened Nat64Tables
  import opened Nat64Steps
  import opened Nat64Packets
  import opened Nat64Timers
  import opened Nat64Requests
  import opened Nat64Ranges
  import opened Nat64Flush

  // ------------------------------------------------------------------ deleting by IPv6 prefix

  /** sessiondb_delete_taddr6s */
  ghost function DeleteBlock6(s: State, protos: seq<Proto>, address: nat, size: nat): State
    requires size > 0
    decreases |protos|
  {
    if protos == [] then s
    else DeleteBlock6(DeleteSessions(s, Block6Ids(s.ses, protos[0], address, size)), protos[1..], address, size)
  }

  predicate InBlock6(f: Flow, address: nat, size: nat)
    requires size > 0
  {
    InBlock(address, size, f.local6.l3) && address <= f.local6.l3
  }

  /** Exactly the sessions whose local IPv6 address is in the block, from its address on, are gone. */
  ghost predicate DeletedBlock6(s: State, m: State, protos: seq<Proto>, address: nat, size: nat)
    requires size > 0
  {
    && (forall i :: i in m.ses.expirer <==>
          i in s.ses.expirer && !(i in s.ses.flows && s.ses.flows[i].proto in protos && InBlock6(s.ses.flows[i], address, size)))
    && (forall i :: i in m.ses.expirer && i in s.ses.flows ==> i in m.ses.flows && m.ses.flows[i] == s.ses.flows[i])
  }

  lemma {:induction false} DeleteBlock6Good(s: State, protos: seq<Proto>, address: nat, size: nat, c: Ctx)
    requires Good(s, c) && c.changing == None && size > 0
    ensures Good(DeleteBlock6(s, protos, address, size), c)
    ensures DeletedBlock6(s, DeleteBlock6(s, protos, address, size), protos, address, size)
    decreases |protos|
  {
    hide Good, InBlock, Distinct, DeleteSessions, Block6Ids, Deleted;
    if protos == [] {
    } else {
      var ids := Block6Ids(s.ses, protos[0], address, size);
      Block6IdsAre(s, protos[0], address, size, c);
      DeleteSessionsGood(s, ids, c);
      var m := DeleteSessions(s, ids);
      DeleteBlock6Good(m, protos[1..], address, size, c);
      StoredFlows(s, c);
      assert protos == [protos[0]] + protos[1..];
      DeletedBlock6Step(s, m, DeleteBlock6(m, protos[1..], address, size), ids, protos, address, size);
    }
  }

  lemma DeletedBlock6Step(s: State, m: State, t: State, ids: seq<SesId>, protos: seq<Proto>, address: nat, size: nat)
    requires size > 0 && protos != [] && Deleted(s, m, ids) && DeletedBlock6(m, t, protos[1..], address, size)
    requires forall i :: i in ids <==>
               i in s.ses.expirer && i in s.ses.flows && s.ses.flows[i].proto == protos[0]
               && InBlock6(s.ses.flows[i], address, size)
    requires forall j :: j in s.ses.expirer ==> j in s.ses.flows
    requires forall p :: p in protos <==> p == protos[0] || p in protos[1..]
    ensures DeletedBlock6(s, t, protos, address, size)
  {
    hide TcpOf, TimeOf, InBlock6;
  }

  // ------------------------------------------------------------------ steps

  datatype Event =
    | Arrive6(p6: Packet6, env6: Env6)
    | Arrive4(p4: Packet4, env4: Env4)
    | TimerFires(list: Expirer, starved: set<SesId>)
    | QueueTimerFires
    | AddRoute(route: Mapping, inPool4: bool, memory: bool)
    | DeleteRoute(proto: Proto, addr6: Option<Taddr6>, addr4: Option<Taddr4>)
    | LeavePool4(scope: Scope)
    | LeavePool6(address: nat, size: nat)
    | FlushPool6
    | Configure(timeouts: Timeouts)
    | Resize(maxPackets: nat)
    | Pass(ticks: nat)

  predicate ValidEvent(ev: Event) {
    match ev
    case LeavePool4(scope) => ValidScope(scope)
    case LeavePool6(_, size) => size > 0
    case _ => true
  }

  ghost function Step(s: State, ev: Event): State
    requires ValidEvent(ev)
  {
    match ev
    case Arrive6(p, env) => From6(s, p, env).0
    case Arrive4(p, env) => From4(s, p, env).0
    case TimerFires(e, starved) => if e in s.ses.timers && s.ses.timers[e] <= s.now then Clean(s, e, starved) else s
    case QueueTimerFires => if s.queue.timer.Some? && s.queue.timer.value <= s.now then QueueClean(s) else s
    case AddRoute(m, inPool4, memory) => AddStatic(s, m, inPool4, memory).0
    case DeleteRoute(proto, a6, a4) =>
      var b := StaticToDelete(s, proto, a6, a4);
      if b.None? then s else DeleteStatic(s, b.value, a6, a4, BibIds(s.ses, s.bib.entries[b.value]))
    case LeavePool4(scope) => RmPool4(s, scope)
    case LeavePool6(address, size) => DeleteBlock6(s, PROTOS, address, size)
    case FlushPool6 => DeleteRange(s, PROTOS, Everything)
    case Configure(ts) => SetTimeouts(s, ts)
    case Resize(n) => s.(maxPackets := n)
    case Pass(ticks) => s.(now := s.now + ticks)
  }

  /** The one request that does not always keep the invariants, and when it does. */
  ghost predicate Safe(s: State, ev: Event)
    requires ValidEvent(ev)
  {
    ev.LeavePool4? ==> NoSynOnStatic(s, ev.scope)
  }

  /**
   One step keeps every invariant if and only if it is safe; so too with what is promised of timers, if no timeout
   changes.
   */
  lemma StepKeepsIff(s: State, ev: Event, late: set<Expirer>)
    requires Good(s, Idle(late)) && ValidEvent(ev) && (ev.Configure? ==> late == ANY)
    ensures Good(Step(s, ev), Idle(late)) <==> Safe(s, ev)
  {
    hide Good, From6, From4, Clean, QueueClean, AddStatic, RmPool4, DeleteBlock6, DeleteRange, SetTimeouts;
    hide NoSynOnStatic, DeletedBlock6, DeletedRange, InBlock, Covers, DeleteStatic, BibIds;
    var c := Idle(late);
    match ev
    case Arrive6(p, env) => From6Good(s, p, env, c);
    case Arrive4(p, env) => From4Good(s, p, env, c);
    case TimerFires(e, starved) => CleanGood(s, e, starved, late);
    case QueueTimerFires => QueueCleanGood(s, c);
    case AddRoute(m, inPool4, memory) => AddStaticGood(s, m, inPool4, memory, c);
    case DeleteRoute(proto, a6, a4) => DeleteRouteGood(s, proto, a6, a4, c);
    case LeavePool4(scope) => RmPool4Iff(s, scope, late);
    case LeavePool6(address, size) => DeleteBlock6Good(s, PROTOS, address, size, c);
    case FlushPool6 => DeleteRangeGood(s, PROTOS, Everything, c);
    case Configure(ts) => SetTimeoutsGood(s, ts, c);
    case Resize(n) => ResizeGood(s, n, c);
    case Pass(ticks) => TickGood(s, ticks, c);
  }

  lemma ResizeGood(s: State, n: nat, c: Ctx)
    requires Good(s, c)
    ensures Good(s.(maxPackets := n), c)
  {
  }

  lemma DeleteRouteGood(s: State, proto: Proto, a6: Option<Taddr6>, a4: Option<Taddr4>, c: Ctx)
    requires Good(s, c) && c.changing == None
    ensures var b := StaticToDelete(s, proto, a6, a4);
            b.Some? ==> Good(DeleteStatic(s, b.value, a6, a4, BibIds(s.ses, s.bib.entries[b.value])), c)
  {
    hide Good, DeleteStatic, BibIds, Distinct;
    var b := StaticToDelete(s, proto, a6, a4);
    if b.Some? {
      BibIdsAre(s, s.bib.entries[b.value], c);
      DeleteStaticGood(s, b.value, a6, a4, BibIds(s.ses, s.bib.entries[b.value]), c);
    }
  }

  // ------------------------------------------------------------------ runs

  ghost function Run(s: State, evs: seq<Event>): State
    requires forall ev :: ev in evs ==> ValidEvent(ev)
    decreases |evs|
  {
    if evs == [] then s else Run(Step(s, evs[0]), evs[1..])
  }

  ghost predicate AllSafe(s: State, evs: seq<Event>)
    decreases |evs|
  {
    evs != [] ==>
      && (forall ev :: ev in evs ==> ValidEvent(ev))
      && Safe(s, evs[0]) && AllSafe(Step(s, evs[0]), evs[1..])
  }

  lemma InitGood(ts: Timeouts, maxPackets: nat, late: set<Expirer>)
    ensures Good(Init(ts, maxPackets), Idle(late))
  {
    var s := Init(ts, maxPackets);
    assert Stored(s.queue.nodes, s.queue.packets) == [];
  }

  /** Whatever happens, in whatever order, every invariant holds. */
  lemma {:induction false} RunIsGood(s: State, evs: seq<Event>)
    requires Good(s, IDLE) && AllSafe(s, evs)
    ensures forall ev :: ev in evs ==> ValidEvent(ev)
    ensures Good(Run(s, evs), IDLE)
    decreases |evs|
  {
    hide Good, Step, Safe;
    if evs == [] {
      assert Run(s, evs) == s;
    } else {
      StepKeepsIff(s, evs[0], ANY);
      RunIsGood(Step(s, evs[0]), evs[1..]);
    }
  }

  /** A state some run from the start leads to. */
  ghost predicate Reachable(s: State) {
    exists ts: Timeouts, maxPackets: nat, evs: seq<Event> :: Leads(ts, maxPackets, evs, s)
  }

  ghost predicate Leads(ts: Timeouts, maxPackets: nat, evs: seq<Event>, s: State) {
    && AllSafe(Init(ts, maxPackets), evs)
    && (forall ev :: ev in evs ==> ValidEvent(ev))
    && s == Run(Init(ts, maxPackets), evs)
  }

  lemma ReachableIsGood(s: State)
    requires Reachable(s)
    ensures Good(s, IDLE)
  {
    hide Good, Run, AllSafe;
    var ts: Timeouts, maxPackets: nat, evs: seq<Event> :| Leads(ts, maxPackets, evs, s);
    InitGood(ts, maxPackets, ANY);
    RunIsGood(Init(ts, maxPackets), evs);
  }

  // ------------------------------------------------------------------ what that means

  /**
   In each protocol an IPv6 transport address has one IPv4 mask and a mask belongs to one address, and every session
   in the table stands on the binding of its own two addresses.
   */
  lemma BindingsAreOneToOne(s: State)
    requires Reachable(s)
    ensures forall b, d :: b in s.bib.entries && d in s.bib.entries && s.bib.entries[b].proto == s.bib.entries[d].proto
              && (s.bib.entries[b].ipv6 == s.bib.entries[d].ipv6 || s.bib.entries[b].ipv4 == s.bib.entries[d].ipv4)
              ==> b == d
    ensures forall i :: i in s.ses.expirer ==>
              && i in s.ses.flows && s.ses.flows[i].bib.Some? && s.ses.flows[i].bib.value in s.bib.entries
              && s.bib.entries[s.ses.flows[i].bib.value]
                 == Mapping(s.ses.flows[i].proto, s.ses.flows[i].remote6, s.ses.flows[i].local4)
  {
    hide Reachable, Good;
    ReachableIsGood(s);
    BibIndexOf(s, IDLE);
    OneToOne(s.bib);
    hide BibIndex;
    forall i | i in s.ses.expirer ensures i in s.ses.flows && s.ses.flows[i].bib.Some? && Linked(s.bib.entries, s.ses.flows[i]) {
      FoundIs(s, IDLE, i);
    }
  }

  lemma OneToOne(db: BibDb)
    requires BibIndex(db.entries, db.by6, db.by4, db.next)
    ensures forall b, d :: b in db.entries && d in db.entries && db.entries[b].proto == db.entries[d].proto
              && (db.entries[b].ipv6 == db.entries[d].ipv6 || db.entries[b].ipv4 == db.entries[d].ipv4)
              ==> b == d
  {
    forall b, d | b in db.entries && d in db.entries && db.entries[b].proto == db.entries[d].proto
      && (db.entries[b].ipv6 == db.entries[d].ipv6 || db.entries[b].ipv4 == db.entries[d].ipv4)
      ensures b == d
    {
      assert db.by6[EndOf6(db.entries[b])] == b && db.by6[EndOf6(db.entries[d])] == d;
      assert db.by4[EndOf4(db.entries[b])] == b && db.by4[EndOf4(db.entries[d])] == d;
    }
  }

  /**
   Between steps a BIB entry's count is the number of sessions that refer to it, plus one if it is static, and
   is never zero; a session's count is one, and it is in the table or in the queue, not both.
   */
  lemma ReferencesAreConserved(s: State)
    requires Reachable(s)
    ensures s.bib.refs.Keys == s.bib.entries.Keys
    ensures forall b :: b in s.bib.entries ==>
              && s.bib.refs[b] == |set i | i in s.ses.flows && s.ses.flows[i].bib == Some(b)| + Bit(b in s.bib.statics)
              && s.bib.refs[b] > 0
    ensures forall i :: i in s.ses.flows ==>
              i in s.ses.refs && s.ses.refs[i] == 1 && (i in s.ses.expirer <==> i !in s.queue.nodes)
  {
    hide Reachable, Good, Users;
    ReachableIsGood(s);
    CountFacts(s);
    assert forall b: BibId :: Users(s.ses.flows, b) == set i | i in s.ses.flows && s.ses.flows[i].bib == Some(b) by {
      UsersAre(s.ses.flows);
    }
  }

  lemma UsersAre(flows: map<SesId, Flow>)
    ensures forall b: BibId :: Users(flows, b) == set i | i in flows && flows[i].bib == Some(b)
  {
  }

  lemma CountFacts(s: State)
    requires Good(s, IDLE)
    ensures s.bib.refs.Keys == s.bib.entries.Keys
    ensures forall b :: b in s.bib.entries ==>
              s.bib.refs[b] == |Users(s.ses.flows, b)| + Bit(b in s.bib.statics) && s.bib.refs[b] > 0
    ensures forall i :: i in s.ses.flows ==>
              i in s.ses.refs && s.ses.refs[i] == 1 && (i in s.ses.expirer <==> i !in s.queue.nodes)
  {
    hide BibIndex, Links, SesIndex, Lists, Sorted, Past, QueueTimes, Conserved, Exclusive;
    hide Armed, TcpLists, Prompt, Users;
  }

  /** Which list a session is on tells its state, and its state tells what both sides have sent. */
  lemma StatesMatchLists(s: State, i: SesId)
    requires Reachable(s) && i in s.ses.expirer && s.ses.expirer[i].proto.TCP?
    ensures var t := TcpOf(s.ses.tcp, i);
            && (s.ses.expirer[i].kind.Est? <==> t.state in {ESTABLISHED, V4_FIN_RCV, V6_FIN_RCV})
            && (s.ses.expirer[i].kind.Trans? <==> t.state in {V6_INIT, V4_INIT, TRANS, V4_FIN_V6_FIN_RCV})
            && (t.state !in {V6_INIT, V4_INIT} ==> t.syn4 && t.syn6)
            && (t.state.V4_FIN_V6_FIN_RCV? ==> t.fin4 && t.fin6)
    ensures i in ListOf(s.ses.lists, s.ses.expirer[i])
  {
    hide Reachable, Good;
    ReachableIsGood(s);
    ListFacts(s, i, IDLE);
    ListedFacts(s, i, IDLE);
  }

  lemma ListedFacts(s: State, i: SesId, c: Ctx)
    requires Good(s, c) && i in s.ses.expirer
    ensures i in ListOf(s.ses.lists, s.ses.expirer[i])
  {
    hide BibIndex, BibRefs, Links, SesIndex, Sorted, Past, SesRefs, QueueIndex, QueueTimes, Conserved, Exclusive;
    hide Armed, TcpLists, Prompt;
  }

  /**
   Timers: a list with sessions has one pending, the lists are sorted, and the lists that have no timeout function
   are empty and have none.
   */
  lemma TimersArePending(s: State, e: Expirer)
    requires Reachable(s)
    ensures ListOf(s.ses.lists, e) != [] ==> e in s.ses.timers
    ensures Ordered(ListOf(s.ses.lists, e), s.ses.time)
    ensures !HasTimeout(e) ==> ListOf(s.ses.lists, e) == [] && e !in s.ses.timers
  {
    hide Reachable, Good, ListOf, HasTimeout;
    ReachableIsGood(s);
    ArmedFacts(s, IDLE, e);
    ListMembers(s, IDLE, e);
    ListHasTimeout(s, e, IDLE);
  }

  lemma ArmedFacts(s: State, c: Ctx, e: Expirer)
    requires Good(s, c) && c.running == None
    ensures e in s.ses.timers ==> HasTimeout(e)
    ensures ListOf(s.ses.lists, e) != [] ==> e in s.ses.timers
  {
    hide Core, TcpLists, ListOf, Prompt;
  }

  /** Translating a tuple and then the reverse of the result gives back the reverse of the tuple, both ways. */
  lemma FlowsAreSymmetric(s: State, proto: Proto)
    requires Reachable(s)
    ensures forall src, dst :: OutTuple6(s, proto, src, dst).Some? ==>
              var (a, b) := OutTuple6(s, proto, src, dst).value; OutTuple4(s, proto, b, a) == Some((dst, src))
    ensures forall src, dst :: OutTuple4(s, proto, src, dst).Some? ==>
              var (a, b) := OutTuple4(s, proto, src, dst).value; OutTuple6(s, proto, b, a) == Some((dst, src))
  {
    hide Reachable, Good;
    ReachableIsGood(s);
    FoundFacts(s, IDLE);
    forall src, dst | OutTuple6(s, proto, src, dst).Some?
      ensures var (a, b) := OutTuple6(s, proto, src, dst).value; OutTuple4(s, proto, b, a) == Some((dst, src))
    {
      TableFacts(s, IDLE, s.ses.by6[Key6(proto, dst, src)]);
    }
    forall src, dst | OutTuple4(s, proto, src, dst).Some?
      ensures var (a, b) := OutTuple4(s, proto, src, dst).value; OutTuple6(s, proto, b, a) == Some((dst, src))
    {
      TableFacts(s, IDLE, s.ses.by4[Key4(proto, dst, src)]);
    }
  }

  /**
   Every packet that entered the queue is still there or left it once, cancelled or answered. List, tree and count
   agree, the queue has a timer due when its first packet expires, and no stored SYN has a session in the table.
   */
  lemma StoredSynsAreAccountedFor(s: State)
    requires Reachable(s)
    ensures s.queue.entered == multiset(Stored(s.queue.nodes, s.queue.packets)) + s.queue.cancelled + s.queue.answered
    ensures s.queue.count == |s.queue.nodes|
    ensures s.queue.nodes != [] ==>
              s.queue.timer.Some? && s.queue.timer.value <= TimeOf(s.ses.time, s.queue.nodes[0]) + SYN_TIMEOUT
    ensures forall n :: n in s.queue.nodes ==>
              && n in s.ses.flows && n in s.queue.packets && KeyOf4(s.ses.flows[n]) !in s.ses.by4
              && KeyOf4(s.ses.flows[n]) in s.queue.tree && s.queue.tree[KeyOf4(s.ses.flows[n])] == n
    ensures forall k :: k in s.queue.tree ==>
              s.queue.tree[k] in s.queue.nodes && KeyOf4(s.ses.flows[s.queue.tree[k]]) == k
  {
    hide Reachable;
    ReachableIsGood(s);
    hide BibIndex, BibRefs, Links, SesIndex, Lists, Sorted, Past, SesRefs, Stored, TimeOf;
    hide Armed, TcpLists, Prompt;
  }
}
