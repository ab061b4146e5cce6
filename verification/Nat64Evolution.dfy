/**
 What no operation changes: the addresses of a BIB entry, and the addresses and binding of a session. And what no
 operation but a timer's own handler does to timers, and none but a change of its maximum to the queue.
 */
module Nat64Evolution {

  import opened Types
  import opened TableWalk
  import opened Nat64
  import opened Nat64Inv
  import opened Nat64Tables
  import opened Nat64Steps
  import opened Nat64Packets
  import opened Nat64Timers
  import opened Nat64Requests
  import opened Nat64Ranges
  import opened Nat64Flush
  import opened Nat64Runs

  /** Entries and sessions that survive are the ones they were; new ones have new ids. */
  ghost predicate Survives(s: State, r: State) {
    && s.bib.next <= r.bib.next && s.ses.next <= r.ses.next
    && (forall b :: b in r.bib.entries && b < s.bib.next ==>
          b in s.bib.entries && r.bib.entries[b] == s.bib.entries[b])
    && (forall i :: i in r.ses.flows && i < s.ses.next ==> i in s.ses.flows && r.ses.flows[i] == s.ses.flows[i])
  }

  /** Ids are given out in order. */
  ghost predicate IdsInOrder(d: SessionDb) {
    (forall i :: i in d.flows ==> i < d.next) && forall i :: i in d.expirer ==> i < d.next
  }

  ghost predicate SameTimers(timers: map<Expirer, int>, timers': map<Expirer, int>) {
    forall e :: e in timers ==> e in timers' && timers'[e] == timers[e]
  }

  /** Session `i` is on the list it was on, with the same clock, or it is there with its clock just started. */
  ghost predicate StaysOrJoins(d: SessionDb, d': SessionDb, now: nat, i: SesId)
    requires i in d'.expirer
  {
    || TimeOf(d'.time, i) == now
    || (i in d.expirer && d'.expirer[i] == d.expirer[i] && TimeOf(d'.time, i) == TimeOf(d.time, i))
  }

  /** A pending timer is left alone, and whoever joins a list does so with a clock that starts now. */
  ghost predicate Clocks(d: SessionDb, d': SessionDb, now: nat) {
    IdsInOrder(d) ==>
      && IdsInOrder(d') && SameTimers(d.timers, d'.timers)
      && forall i :: i in d'.expirer && i in d'.flows ==> StaysOrJoins(d, d', now, i)
  }

  /** The queue grows only below its maximum. */
  ghost predicate Quota(s: State, r: State) {
    r.maxPackets == s.maxPackets && (r.queue.count <= s.queue.count || r.queue.count < s.maxPackets)
  }

  ghost predicate Evolves(s: State, r: State) {
    && Survives(s, r) && Quota(s, r) && Clocks(s.ses, r.ses, s.now)
    && r.now == s.now && r.timeouts == s.timeouts
  }

  lemma Then(s: State, m: State, r: State)
    requires Evolves(s, m) && Evolves(m, r)
    ensures Evolves(s, r)
  {
    hide SameTimers, TimeOf;
    ThenTimers(s.ses.timers, m.ses.timers, r.ses.timers);
  }

  lemma ThenTimers(a: map<Expirer, int>, b: map<Expirer, int>, c: map<Expirer, int>)
    ensures SameTimers(a, b) && SameTimers(b, c) ==> SameTimers(a, c)
  {
  }

  lemma EvolveBib(s: State, b: BibId)
    ensures Evolves(s, s.(bib := BibGet(s.bib, b))) && Evolves(s, s.(bib := BibReturn(s.bib, b)))
    ensures Evolves(s, s.(bib := BibFlushOne(s.bib, b))) && Evolves(s, s.(bib := DropFakeUser(s.bib, b)))
  {
  }

  lemma EvolveBibAdd(s: State, m: Mapping, isStatic: bool)
    ensures Evolves(s, s.(bib := BibAdd(s.bib, m, isStatic).0))
  {
  }

  lemma EvolveAlloc(s: State, f: Flow, t: Tcp, time: int)
    ensures Evolves(s, SessionAlloc(s, f, t, time))
  {
  }

  lemma EvolveReturn(s: State, i: SesId)
    ensures Evolves(s, SessionReturn(s, i))
  {
    hide BibReturn, Evolves;
    if SessionCount(s.ses, i) == 1 && i in s.ses.flows {
      var m := s.(ses := s.ses.(flows := s.ses.flows - {i}, refs := s.ses.refs - {i}, tcp := s.ses.tcp - {i},
                                time := s.ses.time - {i}));
      EvolveLess(s, m, i);
      var b := s.ses.flows[i].bib;
      if b.Some? {
        EvolveBib(m, b.value);
        Then(s, m, m.(bib := BibReturn(m.bib, b.value)));
      }
    } else {
      EvolveQuiet(s, SessionReturn(s, i));
    }
  }

  lemma EvolveLess(s: State, m: State, i: SesId)
    requires m == s.(ses := s.ses.(flows := s.ses.flows - {i}, refs := m.ses.refs, tcp := m.ses.tcp,
                                   time := s.ses.time - {i}))
    ensures Evolves(s, m)
  {
  }

  /** Operations on counts, states and indexes do not touch what this is about. */
  lemma EvolveQuiet(s: State, r: State)
    requires r.bib == s.bib && r.queue == s.queue && r.now == s.now && r.timeouts == s.timeouts
    requires r.maxPackets == s.maxPackets
    requires r.ses.flows == s.ses.flows && r.ses.next == s.ses.next && r.ses.expirer == s.ses.expirer
    requires r.ses.time == s.ses.time && r.ses.timers == s.ses.timers
    ensures Evolves(s, r)
  {
  }

  lemma EvolveQueue(s: State, q: Queue)
    requires q.count <= s.queue.count || q.count < s.maxPackets
    ensures Evolves(s, s.(queue := q))
  {
  }

  lemma EvolveAttach(s: State, i: SesId, e: Expirer)
    requires i < s.ses.next
    ensures Evolves(s, s.(ses := Attach(s.ses, i, e, s.timeouts, s.now)))
  {
    hide Attach, ListOf, Deadline;
    AttachFields(s.ses, i, e, s.timeouts, s.now);
    AttachTimers(s.ses, i, e, s.timeouts, s.now);
  }

  lemma EvolveDetach(s: State, i: SesId)
    ensures Evolves(s, s.(ses := Detach(s.ses, i))) && Detach(s.ses, i).flows == s.ses.flows
  {
    hide Without, ListOf;
  }

  lemma EvolveTableRm(s: State, i: SesId)
    ensures Evolves(s, s.(ses := TableRm(s.ses, i))) && TableRm(s.ses, i).flows == s.ses.flows
  {
    hide Evolves, Detach;
    EvolveDetach(s, i);
    EvolveQuiet(s, s);
    if i in s.ses.flows {
      var m := s.(ses := Detach(s.ses, i));
      DetachIndexes(s.ses, i);
      EvolveQuiet(m, s.(ses := TableRm(s.ses, i)));
      Then(s, m, s.(ses := TableRm(s.ses, i)));
    }
  }

  lemma DetachIndexes(d: SessionDb, i: SesId)
    ensures Detach(d, i) == d.(lists := Detach(d, i).lists, expirer := Detach(d, i).expirer)
  {
  }

  lemma EvolveReschedule(s: State, e: Expirer)
    ensures Evolves(s, s.(ses := Reschedule(s.ses, e, s.timeouts, s.now)))
  {
    hide ListOf;
  }

  lemma {:induction false} EvolveReturnAll(s: State, ids: seq<SesId>)
    ensures Evolves(s, ReturnAll(s, ids))
    decreases |ids|
  {
    hide SessionReturn, Evolves;
    if ids == [] {
      EvolveQuiet(s, s);
    } else {
      EvolveReturn(s, ids[0]);
      EvolveReturnAll(SessionReturn(s, ids[0]), ids[1..]);
      Then(s, SessionReturn(s, ids[0]), ReturnAll(s, ids));
    }
  }

  lemma {:induction false} EvolveSendProbes(s: State, ids: seq<SesId>)
    ensures Evolves(s, SendProbes(s, ids))
    decreases |ids|
  {
    hide SessionReturn, Evolves;
    if ids == [] {
      EvolveQuiet(s, s);
    } else {
      var s1 := Logged(s, ids[0]);
      EvolveQuiet(s, s1);
      EvolveReturn(s1, ids[0]);
      EvolveSendProbes(SessionReturn(s1, ids[0]), ids[1..]);
      Then(s, s1, SessionReturn(s1, ids[0]));
      Then(s, SessionReturn(s1, ids[0]), SendProbes(s, ids));
    }
  }

  lemma EvolvePostFate(s: State, p: Pending)
    ensures Evolves(s, PostFate(s, p))
  {
    hide SendProbes, ReturnAll, Evolves;
    EvolveSendProbes(s, p.probes);
    EvolveReturnAll(SendProbes(s, p.probes), p.rms);
    Then(s, SendProbes(s, p.probes), PostFate(s, p));
  }

  lemma MoveQuiet(s: State, i: SesId, kind: Kind)
    requires i in s.ses.flows
    ensures Evolves(s, Move(s, i, kind)) && Move(s, i, kind).ses.flows == s.ses.flows
  {
    hide Attach, Detach, Clocks;
    var e, m := Expirer(s.ses.flows[i].proto, kind), s.(ses := Detach(s.ses, i));
    EvolveDetach(s, i);
    DetachIndexes(s.ses, i);
    AttachFields(Detach(s.ses, i), i, e, s.timeouts, s.now);
    if i < s.ses.next {
      EvolveAttach(m, i, e);
      Then(s, m, Move(s, i, kind));
    } else {
      IdsOutOfOrder(s.ses, Move(s, i, kind).ses, s.now, i);
    }
  }

  lemma IdsOutOfOrder(d: SessionDb, d': SessionDb, now: nat, i: SesId)
    requires i in d.flows && i >= d.next
    ensures Clocks(d, d', now)
  {
  }

  lemma EvolveFate(s: State, p: Pending, i: SesId, fate: Fate, memory: bool)
    requires i in s.ses.flows
    ensures Evolves(s, DecideFate(s, p, i, fate, memory).0)
  {
    hide Evolves, Move, SessionAlloc;
    match fate
    case TimerEst => MoveQuiet(s, i, Est);
    case Probe =>
      if memory {
        var f, t, time := s.ses.flows[i], TcpOf(s.ses.tcp, i), s.now;
        var m := SessionAlloc(s, f, t, time);
        EvolveAlloc(s, f, t, time);
        AllocFlows(s, f, t, time);
        MoveQuiet(m, i, Trans);
        Then(s, m, Move(m, i, Trans));
      } else {
        MoveQuiet(s, i, Trans);
      }
    case TimerTrans => MoveQuiet(s, i, Trans);
    case Remove => EvolveTableRm(s, i);
    case Preserve => EvolveQuiet(s, s);
  }

  lemma AllocFlows(s: State, f: Flow, t: Tcp, time: int)
    ensures forall i :: i in s.ses.flows ==> i in SessionAlloc(s, f, t, time).ses.flows
  {
  }

  lemma {:induction false} EvolveCleanLoop(s: State, p: Pending, e: Expirer, ids: seq<SesId>, starved: set<SesId>)
    ensures Evolves(s, CleanLoop(s, p, e, ids, starved).0)
    decreases |ids|
  {
    hide Evolves, DecideFate, SetTcp;
    if ids == [] || ids[0] !in s.ses.flows || !Expired(s, e, ids[0]) {
      EvolveQuiet(s, s);
    } else {
      var i := ids[0];
      var (t, fate) := Expire(s.ses.flows[i].proto, TcpOf(s.ses.tcp, i));
      SetTcpFlows(s, i, t);
      EvolveFate(SetTcp(s, i, t), p, i, fate, i !in starved);
      var (m, q) := CleanOne(s, p, i, i !in starved);
      Then(s, SetTcp(s, i, t), m);
      EvolveCleanLoop(m, q, e, ids[1..], starved);
      Then(s, m, CleanLoop(s, p, e, ids, starved).0);
    }
  }

  lemma SetTcpFlows(s: State, i: SesId, t: Tcp)
    ensures SetTcp(s, i, t).ses.flows == s.ses.flows && Evolves(s, SetTcp(s, i, t))
  {
  }

  /** While its handler runs, a list has no timer pending. */
  function Running(s: State, e: Expirer): State {
    s.(ses := s.ses.(timers := s.ses.timers - {e}))
  }

  lemma EvolveClean(s: State, e: Expirer, starved: set<SesId>)
    ensures Evolves(Running(s, e), Clean(s, e, starved))
  {
    hide Evolves, CleanLoop, PostFate, Reschedule;
    var s0, none := Running(s, e), Pending([], []);
    var (s1, p) := CleanLoop(s0, none, e, ListOf(s0.ses.lists, e), starved);
    var s2 := s1.(ses := Reschedule(s1.ses, e, s1.timeouts, s1.now));
    EvolveCleanLoop(s0, none, e, ListOf(s0.ses.lists, e), starved);
    EvolveReschedule(s1, e);
    EvolvePostFate(s2, p);
    Then(s0, s1, s2);
    Then(s0, s2, PostFate(s2, p));
  }

  lemma EvolveQueueRemove(s: State, k: Key4)
    ensures Evolves(s, QueueRemove(s, k))
  {
    hide Evolves, SessionReturn, Without;
    if !k.proto.TCP? || k !in s.queue.tree {
      EvolveQuiet(s, s);
    } else {
      var n := s.queue.tree[k];
      var m := s.(queue := QueueUnlink(s.queue, n, k).(cancelled := s.queue.cancelled + multiset{PacketOf(s.queue, n)}));
      EvolveQueue(s, m.queue);
      EvolveReturn(m, n);
      Then(s, m, QueueRemove(s, k));
    }
  }

  lemma EvolveQueueAdd(s: State, i: SesId, packet: PacketId, memory: bool)
    requires i in s.ses.flows
    ensures Evolves(s, QueueAdd(s, i, packet, memory).0)
  {
    hide Evolves;
    var r := QueueAdd(s, i, packet, memory).0;
    var m := s.(queue := r.queue);
    EvolveQueue(s, r.queue);
    EvolveQuiet(m, r);
    Then(s, m, r);
  }

  lemma EvolveSessionAdd(s: State, i: SesId, kind: Kind)
    requires i in s.ses.flows && i < s.ses.next
    ensures Evolves(s, SessionAdd(s, i, kind).0)
  {
    hide Evolves, QueueRemove, Attach;
    var f, r := s.ses.flows[i], SessionAdd(s, i, kind).0;
    var s1 := QueueRemove(s, KeyOf4(f));
    EvolveQueueRemove(s, KeyOf4(f));
    if KeyOf6(f) in s1.ses.by6 || KeyOf4(f) in s1.ses.by4 {
      EvolveQuiet(s1, r);
    } else {
      RemoveKeepsTimeouts(s, KeyOf4(f));
      EvolveInsert(s1, i, f, Expirer(f.proto, kind));
    }
    Then(s, s1, r);
  }

  lemma RemoveKeepsTimeouts(s: State, k: Key4)
    ensures QueueRemove(s, k).timeouts == s.timeouts && QueueRemove(s, k).now == s.now
    ensures QueueRemove(s, k).ses.next == s.ses.next
  {
    hide BibReturn, Without;
  }

  /** Both indexes, the list, and a reference for the table. */
  lemma EvolveInsert(s: State, i: SesId, f: Flow, e: Expirer)
    requires i < s.ses.next
    ensures var m := s.(ses := s.ses.(by6 := s.ses.by6[KeyOf6(f) := i], by4 := s.ses.by4[KeyOf4(f) := i]));
            Evolves(s, SessionGet(m.(ses := Attach(m.ses, i, e, s.timeouts, s.now)), i))
  {
    hide Evolves, Attach;
    var m := s.(ses := s.ses.(by6 := s.ses.by6[KeyOf6(f) := i], by4 := s.ses.by4[KeyOf4(f) := i]));
    var n := m.(ses := Attach(m.ses, i, e, s.timeouts, s.now));
    EvolveQuiet(s, m);
    EvolveAttach(m, i, e);
    EvolveQuiet(n, SessionGet(n, i));
    Then(s, m, n);
    Then(s, n, SessionGet(n, i));
  }

  lemma {:induction false} QueueCleanCount(q: Queue, d: SessionDb, now: nat, ids: seq<SesId>, icmps: seq<SesId>)
    ensures QueueCleanLoop(q, d, now, ids, icmps).0.count <= q.count
    decreases |ids|
  {
    hide Without;
    if !(ids == [] || ids[0] !in d.flows || now < TimeOf(d.time, ids[0]) + SYN_TIMEOUT) {
      QueueCleanCount(QueueUnlink(q, ids[0], KeyOf4(d.flows[ids[0]])).(
                        answered := q.answered + multiset{PacketOf(q, ids[0])}),
                      d, now, ids[1..], [ids[0]] + icmps);
    }
  }

  lemma EvolveQueueClean(s: State)
    ensures Evolves(s, QueueClean(s))
  {
    hide Evolves, QueueCleanLoop, ReturnAll;
    var (q, icmps) := QueueCleanLoop(s.queue.(timer := None), s.ses, s.now, s.queue.nodes, []);
    QueueCleanCount(s.queue.(timer := None), s.ses, s.now, s.queue.nodes, []);
    EvolveQueue(s, q);
    EvolveReturnAll(s.(queue := q), icmps);
    Then(s, s.(queue := q), QueueClean(s));
  }

  lemma EvolveGetOrCreateBib6(s: State, p: Packet6, env: Env6)
    ensures Evolves(s, GetOrCreateBib6(s, p, env).0)
  {
    hide Evolves, BibGet, BibAdd;
    EvolveQuiet(s, s);
    var found := BibFind6(s.bib, End6(p.proto, p.src));
    if found.Some? {
      EvolveBib(s, found.value);
    } else if env.mask.Some? {
      EvolveBibAdd(s, Mapping(p.proto, p.src, env.mask.value), false);
    }
  }

  lemma EvolveCreate(s: State, flow: Option<Flow>, t: Tcp, memory: bool)
    ensures Evolves(s, CreateSession(s, flow, t, memory).0)
  {
    hide Evolves, SessionAlloc;
    EvolveQuiet(s, s);
    if flow.Some? {
      EvolveAlloc(s, flow.value, t, s.now);
    }
  }

  lemma EvolveGetOrCreateSession(s: State, found: Option<SesId>, flow: Option<Flow>, memory: bool)
    ensures Evolves(s, GetOrCreateSession(s, found, flow, memory).0)
  {
    hide Evolves, Move, CreateSession, SessionAdd, SessionReturn;
    if found.Some? && found.value in s.ses.flows {
      var m := SessionGet(s, found.value);
      EvolveQuiet(s, m);
      MoveQuiet(m, found.value, Est);
      Then(s, m, Move(m, found.value, Est));
    } else {
      EvolveCreate(s, flow, BLANK, memory);
      CreatedIs(s, flow, BLANK, memory);
      var (s1, i) := CreateSession(s, flow, BLANK, memory);
      if i.Some? {
        EvolveSessionAdd(s1, i.value, Est);
        var s2 := SessionAdd(s1, i.value, Est).0;
        Then(s, s1, s2);
        EvolveReturn(s2, i.value);
        Then(s, s2, SessionReturn(s2, i.value));
      }
    }
  }

  lemma CreatedIs(s: State, flow: Option<Flow>, t: Tcp, memory: bool)
    ensures var (r, i) := CreateSession(s, flow, t, memory);
            i.Some? ==> i.value in r.ses.flows && i.value < r.ses.next
  {
  }

  lemma EvolveSimple(s: State, b: BibId, found: Option<SesId>, flow: Option<Flow>, memory: bool)
    ensures Evolves(s, Simple(s, b, found, flow, memory).0)
  {
    hide Evolves, GetOrCreateSession, SessionReturn, BibReturn;
    EvolveGetOrCreateSession(s, found, flow, memory);
    var (s1, r) := GetOrCreateSession(s, found, flow, memory);
    if r.None? {
      EvolveBib(s1, b);
      Then(s, s1, s1.(bib := BibReturn(s1.bib, b)));
    } else {
      var s2 := SessionReturn(s1, r.value);
      EvolveReturn(s1, r.value);
      EvolveBib(s2, b);
      Then(s, s1, s2);
      Then(s, s2, s2.(bib := BibReturn(s2.bib, b)));
    }
  }

  lemma EvolveIpv6Simple(s: State, p: Packet6, env: Env6)
    ensures Evolves(s, Ipv6Simple(s, p, env).0)
  {
    hide Evolves, GetOrCreateBib6, Simple, FlowFrom6, SessionFind6;
    EvolveGetOrCreateBib6(s, p, env);
    var (s1, b) := GetOrCreateBib6(s, p, env);
    if b.Some? {
      EvolveSimple(s1, b.value, SessionFind6(s1.ses, Key6(p.proto, p.dst, p.src)), FlowFrom6(s1, p, b.value, env),
                   env.sessionMemory);
      Then(s, s1, Ipv6Simple(s, p, env).0);
    }
  }

  lemma EvolveIpv4Simple(s: State, p: Packet4, env: Env4)
    ensures Evolves(s, Ipv4Simple(s, p, env).0)
  {
    hide Evolves, BibGet, BibReturn, Simple, FlowFrom4, SessionFind4, Allow;
    EvolveQuiet(s, s);
    var b := BibFind4(s.bib, End4(p.proto, p.dst));
    if b.Some? {
      var s1 := s.(bib := BibGet(s.bib, b.value));
      EvolveBib(s, b.value);
      EvolveBib(s1, b.value);
      EvolveSimple(s1, b.value, SessionFind4(s1.ses, Key4(p.proto, p.dst, p.src)), FlowFrom4(s1, p, b, env),
                   env.sessionMemory);
      Then(s, s1, Ipv4Simple(s, p, env).0);
    }
  }

  lemma EvolveAddAndReturn(s: State, i: SesId)
    requires i in s.ses.flows && i < s.ses.next
    ensures Evolves(s, SessionReturn(SessionAdd(s, i, Trans).0, i))
  {
    hide Evolves, SessionAdd, SessionReturn;
    EvolveSessionAdd(s, i, Trans);
    EvolveReturn(SessionAdd(s, i, Trans).0, i);
    Then(s, SessionAdd(s, i, Trans).0, SessionReturn(SessionAdd(s, i, Trans).0, i));
  }

  lemma EvolveClosedSyn6(s: State, p: Packet6, env: Env6)
    ensures Evolves(s, ClosedSyn6(s, p, env).0)
  {
    hide Evolves, GetOrCreateBib6, CreateSession, SessionAdd, SessionReturn, BibReturn, FlowFrom6;
    EvolveGetOrCreateBib6(s, p, env);
    var (s1, b) := GetOrCreateBib6(s, p, env);
    if b.Some? {
      var t, flow := Tcp(V6_INIT, false, true, false, false), FlowFrom6(s1, p, b.value, env);
      EvolveCreate(s1, flow, t, env.sessionMemory);
      CreatedIs(s1, flow, t, env.sessionMemory);
      var (s2, i) := CreateSession(s1, flow, t, env.sessionMemory);
      Then(s, s1, s2);
      var s4 := if i.None? then s2 else SessionReturn(SessionAdd(s2, i.value, Trans).0, i.value);
      if i.Some? {
        EvolveAddAndReturn(s2, i.value);
        Then(s, s2, s4);
      }
      EvolveBib(s4, b.value);
      Then(s, s4, s4.(bib := BibReturn(s4.bib, b.value)));
    }
  }

  lemma EvolveClosedSyn4Held(s: State, p: Packet4, env: Env4, b: Option<BibId>)
    ensures Evolves(s, ClosedSyn4Held(s, p, env, b).0)
  {
    hide Evolves, CreateSession, SessionAdd, SessionReturn, QueueAdd, FlowFrom4;
    var t, flow := Tcp(V4_INIT, true, false, false, false), FlowFrom4(s, p, b, env);
    EvolveCreate(s, flow, t, env.sessionMemory);
    CreatedIs(s, flow, t, env.sessionMemory);
    var (s2, i) := CreateSession(s, flow, t, env.sessionMemory);
    if i.Some? {
      if b.None? || env.filtering {
        var s3 := QueueAdd(s2, i.value, p.id, env.nodeMemory).0;
        EvolveQueueAdd(s2, i.value, p.id, env.nodeMemory);
        Then(s, s2, s3);
        EvolveReturn(s3, i.value);
        Then(s, s3, SessionReturn(s3, i.value));
      } else {
        EvolveAddAndReturn(s2, i.value);
        Then(s, s2, SessionReturn(SessionAdd(s2, i.value, Trans).0, i.value));
      }
    }
  }

  lemma EvolveClosedSyn4(s: State, p: Packet4, env: Env4)
    ensures Evolves(s, ClosedSyn4(s, p, env).0)
  {
    hide Evolves, ClosedSyn4Held, BibGet, BibReturn;
    EvolveQuiet(s, s);
    var b := BibFind4(s.bib, End4(p.proto, p.dst));
    if b.Some? {
      var s1 := s.(bib := BibGet(s.bib, b.value));
      var s3 := ClosedSyn4Held(s1, p, env, b).0;
      EvolveBib(s, b.value);
      EvolveClosedSyn4Held(s1, p, env, b);
      EvolveBib(s3, b.value);
      Then(s, s1, s3);
      Then(s, s3, s3.(bib := BibReturn(s3.bib, b.value)));
    } else {
      EvolveClosedSyn4Held(s, p, env, b);
    }
  }

  lemma EvolveClosedOther(s: State, b: Option<BibId>)
    ensures Evolves(s, ClosedOther(s, b).0)
  {
    hide Evolves, BibGet, BibReturn;
    EvolveQuiet(s, s);
    if b.Some? {
      var m := s.(bib := BibGet(s.bib, b.value));
      EvolveBib(s, b.value);
      EvolveBib(m, b.value);
      Then(s, m, m.(bib := BibReturn(m.bib, b.value)));
    }
  }

  lemma EvolveTcpFound(s: State, i: SesId, p: Flags)
    requires i in s.ses.flows
    ensures Evolves(s, TcpFound(s, i, p))
  {
    hide Evolves, Machine, Seen, DecideFate, PostFate, SessionReturn, SetTcp;
    var (t, fate) := Machine(Seen(TcpOf(s.ses.tcp, i), p), p);
    var m := SessionGet(s, i);
    var s0 := SetTcp(m, i, t);
    EvolveQuiet(s, m);
    SetTcpFlows(m, i, t);
    Then(s, m, s0);
    EvolveFate(s0, Pending([], []), i, fate, true);
    var (s1, pending) := DecideFate(s0, Pending([], []), i, fate, true);
    Then(s, s0, s1);
    EvolvePostFate(s1, pending);
    Then(s, s1, PostFate(s1, pending));
    EvolveReturn(PostFate(s1, pending), i);
    Then(s, PostFate(s1, pending), TcpFound(s, i, p));
  }

  lemma EvolvePackets(s: State, p6: Packet6, env6: Env6, p4: Packet4, env4: Env4)
    ensures Evolves(s, From6(s, p6, env6).0) && Evolves(s, From4(s, p4, env4).0)
  {
    hide Evolves, TcpFound, ClosedSyn6, ClosedSyn4, ClosedOther, Ipv6Simple, Ipv4Simple;
    EvolveQuiet(s, s);
    EvolveIpv6Simple(s, p6, env6);
    EvolveClosedSyn6(s, p6, env6);
    EvolveClosedOther(s, BibFind6(s.bib, End6(p6.proto, p6.src)));
    var found6 := SessionFind6(s.ses, Key6(p6.proto, p6.dst, p6.src));
    if found6.Some? {
      EvolveTcpFound(s, found6.value, Flags(true, p6.syn, p6.fin, p6.rst));
    }
    EvolveIpv4Simple(s, p4, env4);
    EvolveClosedSyn4(s, p4, env4);
    EvolveClosedOther(s, BibFind4(s.bib, End4(p4.proto, p4.dst)));
    var found4 := SessionFind4(s.ses, Key4(p4.proto, p4.dst, p4.src));
    if found4.Some? {
      EvolveTcpFound(s, found4.value, Flags(false, p4.syn, p4.fin, p4.rst));
    }
  }

  lemma {:induction false} EvolveRmAll(s: State, ids: seq<SesId>)
    ensures Evolves(s, s.(ses := RmAll(s.ses, ids)))
    decreases |ids|
  {
    hide Evolves, TableRm;
    if ids == [] {
      EvolveQuiet(s, s);
    } else {
      var m := s.(ses := TableRm(s.ses, ids[0]));
      EvolveTableRm(s, ids[0]);
      EvolveRmAll(m, ids[1..]);
      Then(s, m, s.(ses := RmAll(s.ses, ids)));
    }
  }

  lemma EvolveDeleteSessions(s: State, ids: seq<SesId>)
    ensures Evolves(s, DeleteSessions(s, ids))
  {
    hide Evolves, RmAll, ReturnAll;
    var m := s.(ses := RmAll(s.ses, ids));
    EvolveRmAll(s, ids);
    EvolveReturnAll(m, Reversed(ids));
    Then(s, m, DeleteSessions(s, ids));
  }

  lemma {:induction false} EvolveDeleteRange(s: State, protos: seq<Proto>, r: Scope)
    requires ValidScope(r)
    ensures Evolves(s, DeleteRange(s, protos, r))
    decreases |protos|
  {
    hide Evolves, DeleteSessions, RangeIds;
    if protos == [] {
      EvolveQuiet(s, s);
    } else {
      var m := DeleteSessions(s, RangeIds(s.ses, protos[0], r));
      EvolveDeleteSessions(s, RangeIds(s.ses, protos[0], r));
      EvolveDeleteRange(m, protos[1..], r);
      Then(s, m, DeleteRange(m, protos[1..], r));
    }
  }

  lemma {:induction false} EvolveDeleteBlock6(s: State, protos: seq<Proto>, address: nat, size: nat)
    requires size > 0
    ensures Evolves(s, DeleteBlock6(s, protos, address, size))
    decreases |protos|
  {
    hide Evolves, DeleteSessions, Block6Ids;
    if protos == [] {
      EvolveQuiet(s, s);
    } else {
      var m := DeleteSessions(s, Block6Ids(s.ses, protos[0], address, size));
      EvolveDeleteSessions(s, Block6Ids(s.ses, protos[0], address, size));
      EvolveDeleteBlock6(m, protos[1..], address, size);
      Then(s, m, DeleteBlock6(m, protos[1..], address, size));
    }
  }

  lemma {:induction false} EvolveBibFlush(s: State, ids: seq<BibId>)
    ensures Evolves(s, s.(bib := BibFlush(s.bib, ids)))
    decreases |ids|
  {
    hide Evolves, BibFlushOne;
    if ids == [] {
      EvolveQuiet(s, s.(bib := s.bib));
    } else {
      var m := s.(bib := BibFlushOne(s.bib, ids[0]));
      EvolveBib(s, ids[0]);
      EvolveBibFlush(m, ids[1..]);
      Then(s, m, m.(bib := BibFlush(m.bib, ids[1..])));
    }
  }

  lemma EvolveRmPool4(s: State, r: Scope)
    requires ValidScope(r)
    ensures Evolves(s, RmPool4(s, r))
  {
    hide Evolves, DeleteRange, BibFlush, Visited;
    var m := DeleteRange(s, PROTOS, r);
    EvolveDeleteRange(s, PROTOS, r);
    EvolveBibFlush(m, Visited(m.bib, r));
    Then(s, m, RmPool4(s, r));
  }

  lemma EvolveAddStatic(s: State, m: Mapping, inPool4: bool, memory: bool)
    ensures Evolves(s, AddStatic(s, m, inPool4, memory).0)
  {
    hide Evolves, BibGet, BibReturn, BibAdd;
    EvolveQuiet(s, s);
    EvolveBibAdd(s, m, true);
    EvolveClosedOther(s, BibFind4(s.bib, EndOf4(m)));
    EvolveClosedOther(s, BibFind6(s.bib, EndOf6(m)));
  }

  lemma EvolveDeleteStatic(s: State, b: BibId, addr6: Option<Taddr6>, addr4: Option<Taddr4>, ids: seq<SesId>)
    requires b in s.bib.entries
    ensures Evolves(s, DeleteStatic(s, b, addr6, addr4, ids))
  {
    hide Evolves, BibGet, BibReturn, DropFakeUser, DeleteSessions;
    var s1 := s.(bib := BibGet(s.bib, b));
    EvolveBib(s, b);
    EvolveBib(s1, b);
    if addr6.Some? && addr4.Some? && s.bib.entries[b].ipv4 != addr4.value {
      Then(s, s1, s1.(bib := BibReturn(s1.bib, b)));
    } else {
      var m := s1.(bib := DropFakeUser(s1.bib, b));
      var s2 := DeleteSessions(m, ids);
      Then(s, s1, m);
      EvolveDeleteSessions(m, ids);
      Then(s, m, s2);
      EvolveBib(s2, b);
      Then(s, s2, s2.(bib := BibReturn(s2.bib, b)));
    }
  }

  /** The events that set a clock, a timeout or the maximum; the others are all operations of this kind. */
  predicate Sets(ev: Event) {
    ev.TimerFires? || ev.Configure? || ev.Resize? || ev.Pass?
  }

  lemma EvolveStep(s: State, ev: Event)
    requires ValidEvent(ev) && !Sets(ev)
    ensures Evolves(s, Step(s, ev))
  {
    hide Evolves, From6, From4, Clean, QueueClean, AddStatic, RmPool4, DeleteBlock6, DeleteRange, SetTimeouts;
    hide DeleteStatic, BibIds;
    EvolveQuiet(s, s);
    match ev
    case Arrive6(p, env) =>
      EvolvePackets(s, p, env, Packet4(0, TCP, Taddr4(0, 0), Taddr4(0, 0), false, false, false),
                    Env4(false, false, false, false, None, false, false));
    case Arrive4(p, env) =>
      EvolvePackets(s, Packet6(TCP, Taddr6(0, 0), Taddr6(0, 0), false, false, false),
                    Env6(false, false, false, false, None, None, false, false), p, env);
    case QueueTimerFires => EvolveQueueClean(s);
    case AddRoute(m, inPool4, memory) => EvolveAddStatic(s, m, inPool4, memory);
    case DeleteRoute(proto, a6, a4) =>
      var b := StaticToDelete(s, proto, a6, a4);
      if b.Some? {
        EvolveDeleteStatic(s, b.value, a6, a4, BibIds(s.ses, s.bib.entries[b.value]));
      }
    case LeavePool4(scope) => EvolveRmPool4(s, scope);
    case LeavePool6(address, size) => EvolveDeleteBlock6(s, PROTOS, address, size);
    case FlushPool6 => EvolveDeleteRange(s, PROTOS, Everything);
  }

  lemma SurviveStep(s: State, ev: Event)
    requires ValidEvent(ev)
    ensures Survives(s, Step(s, ev)) && (!ev.Resize? ==> Quota(s, Step(s, ev)))
  {
    hide Clean, SetTimeouts;
    match ev
    case TimerFires(e, starved) => EvolveClean(s, e, starved);
    case Configure(ts) => SetTimeoutsDoes(s, ts);
    case Resize(_) =>
    case Pass(_) =>
    case _ =>
      hide Step;
      EvolveStep(s, ev);
  }

  lemma {:induction false} SurviveRun(s: State, evs: seq<Event>)
    requires forall ev :: ev in evs ==> ValidEvent(ev)
    ensures Survives(s, Run(s, evs))
    decreases |evs|
  {
    hide Step;
    if evs == [] {
      assert Run(s, evs) == s;
    } else {
      SurviveStep(s, evs[0]);
      SurviveRun(Step(s, evs[0]), evs[1..]);
    }
  }

  /**
   While a binding lives its IPv6 address keeps its mask, and while a session lives its addresses and its binding
   stay what they were, whatever happens meanwhile.
   */
  lemma BindingsNeverChange(s: State, evs: seq<Event>)
    requires Good(s, IDLE) && forall ev :: ev in evs ==> ValidEvent(ev)
    ensures var r := Run(s, evs);
            && (forall b :: b in s.bib.entries && b in r.bib.entries ==> r.bib.entries[b] == s.bib.entries[b])
            && (forall i :: i in s.ses.flows && i in r.ses.flows ==> r.ses.flows[i] == s.ses.flows[i])
  {
    hide Run, Good;
    SurviveRun(s, evs);
    IdsAreOld(s, IDLE);
  }

  /** The queue is empty or shorter than its maximum. */
  ghost predicate Bounded(s: State) {
    s.queue.count <= 0 || s.queue.count < s.maxPackets
  }

  /** Only a new maximum can leave the queue longer: exactly if it is not empty and not shorter than the new one. */
  lemma QueueStaysBoundedIff(s: State, ev: Event)
    requires Bounded(s) && ValidEvent(ev)
    ensures Bounded(Step(s, ev)) <==> (ev.Resize? ==> s.queue.count <= 0 || s.queue.count < ev.maxPackets)
  {
    hide Survives;
    SurviveStep(s, ev);
  }

  lemma IdsAreOld(s: State, c: Ctx)
    requires Good(s, c)
    ensures forall b :: b in s.bib.entries ==> b < s.bib.next
    ensures forall i :: i in s.ses.flows ==> i < s.ses.next
  {
    hide BibRefs, Links, SesIndex, Lists, Sorted, Past, QueueIndex, QueueTimes, Conserved, Exclusive;
    hide Armed, TcpLists, Prompt;
  }
}
