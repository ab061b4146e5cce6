/**
 The engine as the module runs it: databases updated in place, step by step. Each method is tied to the function of
 Nat64 it performs, and states which references it takes, hands over or gives back: whatever its caller holds, the
 invariants hold again with what the caller then holds. Each entry point keeps the invariants.
 */
module Nat64Engine {

  import opened Types
  import OrderedTree
  import opened TableWalk
  import opened Nat64
  import opened Nat64Inv
  import opened Nat64Tables
  import opened Nat64Steps
  import opened Nat64Packets
  import opened Nat64Timers
  import opened Nat64Requests
  import opened Nat64Ranges
  import opened Nat64Flush
  import opened Nat64Runs

  // ------------------------------------------------------------------ what callers see to

  ghost predicate MoveFits(s: State, i: SesId, kind: Kind, c: Ctx) {
    && Good(s, c) && i in s.ses.expirer && i in s.ses.flows && c.changing == Some(i)
    && OnRightList(TcpOf(s.ses.tcp, i), Expirer(s.ses.flows[i].proto, kind))
  }

  /** The session's state has been written, and its fate takes it to the list that goes with it. */
  ghost predicate FateFits(s: State, p: Pending, i: SesId, fate: Fate, c: Ctx) {
    && Good(s, Carry(c, p).(changing := Some(i))) && c.changing == None && i in s.ses.expirer && i in s.ses.flows
    && (var t, proto := TcpOf(s.ses.tcp, i), s.ses.flows[i].proto;
        match fate
        case TimerEst => OnRightList(t, Expirer(proto, Est))
        case Probe => proto.TCP? && Agrees(t, Trans)
        case TimerTrans => OnRightList(t, Expirer(proto, Trans))
        case Remove => true
        case Preserve => OnRightList(t, s.ses.expirer[i]))
  }

  lemma DecideFateGood(s: State, p: Pending, i: SesId, fate: Fate, memory: bool, c: Ctx)
    requires FateFits(s, p, i, fate, c)
    ensures var (r, q) := DecideFate(s, p, i, fate, memory); Good(r, Carry(c, q))
  {
    hide Good, Move, TableRm, SessionAlloc, OnRightList, Agrees;
    var c1 := Carry(c, p).(changing := Some(i));
    assert c1.(changing := None) == Carry(c, p);
    match fate
    case TimerEst => MoveGood(s, i, Est, c1);
    case Probe => ProbeGood(s, p, i, memory, c);
    case TimerTrans => MoveGood(s, i, Trans, c1);
    case Remove =>
      TableRmGood(s, i, c1);
      CarryMore(c, p, i);
    case Preserve => PreserveGood(s, i, c1);
  }

  /** A session the caller holds, that nothing else knows of yet and whose IPv4 addresses no session has. */
  ghost predicate Storable(s: State, i: SesId, c: Ctx) {
    && Good(s, c) && i in c.hs && i in s.ses.flows && i !in s.ses.expirer && i !in s.queue.nodes
    && s.ses.flows[i].proto.TCP? && KeyOf4(s.ses.flows[i]) !in s.ses.by4 && TimeOf(s.ses.time, i) == s.now
  }

  lemma StorableGood(s: State, i: SesId, packet: PacketId, memory: bool, c: Ctx)
    requires Storable(s, i, c)
    ensures Good(QueueAdd(s, i, packet, memory).0, c)
  {
    hide Good, QueueAdd;
    QueueAddGood(s, i, packet, memory, c);
  }

  ghost predicate Addable(s: State, i: SesId, kind: Kind, c: Ctx) {
    && Good(s, c) && c.changing == None && i in c.hs
    && i in s.ses.flows && i !in s.ses.expirer && i !in s.queue.nodes && s.ses.flows[i].bib.Some?
    && OnRightList(TcpOf(s.ses.tcp, i), Expirer(s.ses.flows[i].proto, kind))
  }

  lemma AddableGood(s: State, i: SesId, kind: Kind, c: Ctx)
    requires Addable(s, i, kind, c)
    ensures Good(SessionAdd(s, i, kind).0, c)
  {
    hide Good, SessionAdd, OnRightList;
    SessionAddGood(s, i, kind, c);
  }

  /** What was found is in the table, and what would be created stands on a BIB entry. */
  ghost predicate SimpleFits(s: State, found: Option<SesId>, flow: Option<Flow>, c: Ctx) {
    && Good(s, c) && c.changing == None
    && (found.Some? ==>
          found.value in s.ses.expirer && found.value in s.ses.flows && !s.ses.flows[found.value].proto.TCP?)
    && (flow.Some? ==> Linked(s.bib.entries, flow.value) && flow.value.bib.Some? && !flow.value.proto.TCP?)
  }

  lemma SimpleFitsGood(s: State, found: Option<SesId>, flow: Option<Flow>, memory: bool, c: Ctx)
    requires SimpleFits(s, found, flow, c)
    ensures var (r, i) := GetOrCreateSession(s, found, flow, memory);
            if i.Some? then Good(r, HoldSes(c, i.value)) && i.value in r.ses.expirer else Good(r, c)
  {
    hide Good, GetOrCreateSession, Linked;
    GetOrCreateSessionGood(s, found, flow, memory, c);
    GotIsListed(s, found, flow, memory);
  }

  /** The session that is returned is in the table. */
  lemma GotIsListed(s: State, found: Option<SesId>, flow: Option<Flow>, memory: bool)
    ensures var (r, i) := GetOrCreateSession(s, found, flow, memory); i.Some? ==> i.value in r.ses.expirer
  {
    hide Attach, Detach, QueueRemove, SessionReturn;
    if found.Some? && found.value in s.ses.flows {
      var m := SessionGet(s, found.value);
      AttachFields(Detach(m.ses, found.value), found.value, Expirer(m.ses.flows[found.value].proto, Est), s.timeouts,
                   s.now);
    } else if flow.Some? {
      var s1, i, f := SessionAlloc(s, flow.value, BLANK, s.now), s.ses.next, flow.value;
      var d := QueueRemove(s1, KeyOf4(f)).ses;
      AttachFields(d.(by6 := d.by6[KeyOf6(f) := i], by4 := d.by4[KeyOf4(f) := i]), i, Expirer(f.proto, Est), s.timeouts,
                   s.now);
    }
  }

  lemma FirstIsOldest(s: State, c: Ctx, e: Expirer, i: SesId)
    requires Good(s, c) && i in ListOf(s.ses.lists, e)
    ensures TimeOf(s.ses.time, ListOf(s.ses.lists, e)[0]) <= TimeOf(s.ses.time, i)
  {
    hide Good;
    ListMembers(s, c, e);
  }

  class Engine {
    var bib: BibDb
    var ses: SessionDb
    var queue: Queue
    var now: nat
    var timeouts: Timeouts
    var maxPackets: nat
    var probes: seq<Flow>

    ghost function St(): State
      reads this
    {
      State(bib, ses, queue, now, timeouts, maxPackets, probes)
    }

    ghost predicate Valid()
      reads this
    {
      Good(St(), IDLE)
    }

    constructor (timeouts: Timeouts, maxPackets: nat)
      ensures Valid() && St() == Init(timeouts, maxPackets)
    {
      bib := BibDb(map[], map[], {}, map[], map[], 0);
      ses := SessionDb(map[], map[], map[], map[], map[], map[], map[], map[], map[], 0);
      queue := Queue([], map[], map[], 0, None, multiset{}, multiset{}, multiset{});
      now := 0;
      this.timeouts, this.maxPackets := timeouts, maxPackets;
      probes := [];
      new;
      InitGood(timeouts, maxPackets, ANY);
    }

    // ---------------------------------------------------------------- BIB

    method BibReturn(b: BibId)
      modifies this`bib
      ensures bib == Nat64.BibReturn(old(bib), b)
      ensures forall c: Ctx :: Good(old(St()), c) && b in c.hb ==> Good(St(), FreeBib(c, b))
    {
      hide Good;
      forall c: Ctx | Good(St(), c) && b in c.hb ensures Good(St().(bib := Nat64.BibReturn(bib, b)), FreeBib(c, b)) {
        BibReturnGood(St(), b, c);
      }
      var n := BibCount(bib, b) - 1;
      bib := bib.(refs := bib.refs[b := n]);
      if n == 0 && b in bib.entries {
        var m := bib.entries[b];
        bib := bib.(by6 := bib.by6 - {EndOf6(m)});
        bib := bib.(by4 := bib.by4 - {EndOf4(m)});
        bib := bib.(entries := bib.entries - {b}, refs := bib.refs - {b}, statics := bib.statics - {b});
        assert old(bib).refs[b := n] - {b} == old(bib).refs - {b};
      }
    }

    method BibGet(b: BibId)
      modifies this`bib
      ensures bib == Nat64.BibGet(old(bib), b)
      ensures forall c: Ctx :: Good(old(St()), c) && b in bib.entries ==> Good(St(), HoldBib(c, b))
    {
      hide Good;
      forall c: Ctx | Good(St(), c) && b in bib.entries ensures Good(St().(bib := Nat64.BibGet(bib, b)), HoldBib(c, b)) {
        BibGetGood(St(), b, c);
      }
      bib := bib.(refs := bib.refs[b := BibCount(bib, b) + 1]);
    }

    /** Allocates the entry only when both indexes have taken it. */
    method BibAdd(m: Mapping, isStatic: bool) returns (ok: bool)
      modifies this`bib
      ensures (bib, ok) == Nat64.BibAdd(old(bib), m, isStatic)
      ensures !ok ==> bib == old(bib)
      ensures forall c: Ctx :: Good(old(St()), c) ==> Good(St(), if ok && !isStatic then HoldBib(c, old(bib.next)) else c)
    {
      hide Good;
      forall c: Ctx | Good(St(), c)
        ensures var (db, ok) := Nat64.BibAdd(bib, m, isStatic);
                Good(St().(bib := db), if ok && !isStatic then HoldBib(c, bib.next) else c)
      {
        BibAddGood(St(), m, isStatic, c);
      }
      var b := bib.next;
      BibAddRefusedToo(bib, m, isStatic);
      if EndOf6(m) in bib.by6 {
        return false;
      }
      bib := bib.(by6 := bib.by6[EndOf6(m) := b]);
      if EndOf4(m) in bib.by4 {
        bib := bib.(by6 := bib.by6 - {EndOf6(m)});
        return false;
      }
      bib := bib.(by4 := bib.by4[EndOf4(m) := b]);
      bib := bib.(entries := bib.entries[b := m], refs := bib.refs[b := 1], next := b + 1);
      if isStatic {
        bib := bib.(statics := bib.statics + {b});
      }
      return true;
    }

    // ---------------------------------------------------------------- sessions

    method SessionAlloc(f: Flow, tcp: Tcp, time: int) returns (i: SesId)
      modifies this`bib, this`ses
      ensures i == old(ses.next) && St() == Nat64.SessionAlloc(old(St()), f, tcp, time)
      ensures forall c: Ctx :: Good(old(St()), c) && Linked(old(bib.entries), f) && time <= now ==>
                Good(St(), HoldSes(c, i))
    {
      hide Good, Linked;
      forall c: Ctx | Good(St(), c) && Linked(bib.entries, f) && time <= now
        ensures Good(Nat64.SessionAlloc(St(), f, tcp, time), HoldSes(c, ses.next))
      {
        SessionAllocGood(St(), f, tcp, time, c);
      }
      i := ses.next;
      ses := ses.(flows := ses.flows[i := f], tcp := ses.tcp[i := tcp], time := ses.time[i := time], next := i + 1);
      ses := ses.(refs := ses.refs[i := 1]);
      if f.bib.Some? {
        BibGet(f.bib.value);
      }
    }

    method SessionGet(i: SesId)
      modifies this`ses
      ensures St() == Nat64.SessionGet(old(St()), i)
      ensures forall c: Ctx :: Good(old(St()), c) && i in ses.flows ==> Good(St(), HoldSes(c, i))
    {
      hide Good;
      forall c: Ctx | Good(St(), c) && i in ses.flows ensures Good(Nat64.SessionGet(St(), i), HoldSes(c, i)) {
        SessionGetGood(St(), i, c);
      }
      ses := ses.(refs := ses.refs[i := SessionCount(ses, i) + 1]);
    }

    /** The last reference takes the session's own reference to its BIB entry with it. */
    method SessionReturn(i: SesId)
      modifies this`bib, this`ses
      ensures St() == Nat64.SessionReturn(old(St()), i)
      ensures forall c: Ctx :: Good(old(St()), c) && i in c.hs ==> Good(St(), FreeSes(c, i))
    {
      hide Good;
      forall c: Ctx | Good(St(), c) && i in c.hs ensures Good(Nat64.SessionReturn(St(), i), FreeSes(c, i)) {
        SessionReturnGood(St(), i, c);
      }
      var n := SessionCount(ses, i) - 1;
      ses := ses.(refs := ses.refs[i := n]);
      if n == 0 && i in ses.flows {
        if ses.flows[i].bib.Some? {
          BibReturn(ses.flows[i].bib.value);
        }
        ses := ses.(flows := ses.flows - {i}, refs := ses.refs - {i}, tcp := ses.tcp - {i}, time := ses.time - {i});
        assert old(ses).refs[i := n] - {i} == old(ses).refs - {i};
      }
    }

    method ReturnAll(ids: seq<SesId>)
      modifies this`bib, this`ses
      ensures St() == Nat64.ReturnAll(old(St()), ids)
      ensures forall c: Ctx :: Good(old(St()), HoldAll(c, ids)) ==> Good(St(), c)
    {
      hide Good, Nat64.SessionReturn;
      forall c: Ctx | Good(St(), HoldAll(c, ids)) ensures Good(Nat64.ReturnAll(St(), ids), c) {
        ReturnAllGood(St(), ids, c);
      }
      var k := 0;
      while k < |ids|
        invariant 0 <= k <= |ids|
        invariant Nat64.ReturnAll(St(), ids[k..]) == Nat64.ReturnAll(old(St()), ids)
        invariant queue == old(queue) && now == old(now) && timeouts == old(timeouts) && maxPackets == old(maxPackets)
        invariant probes == old(probes)
      {
        SessionReturn(ids[k]);
        assert ids[k..][1..] == ids[k + 1..];
        k := k + 1;
      }
    }

    // ---------------------------------------------------------------- session table

    /** The timer is due in time for every session of the list, and no sooner than timers can be. */
    method ForceReschedule(e: Expirer)
      modifies this`ses
      ensures ses == Nat64.ForceReschedule(old(ses), e, timeouts, now)
      ensures ListOf(ses.lists, e) != [] ==> e in ses.timers && ses.timers[e] >= now + MIN_TIMER_SLEEP
      ensures forall c: Ctx, i :: Good(old(St()), c) && i in ListOf(ses.lists, e) ==>
                && ses.timers[e] <= Max(TimeOf(ses.time, i) + TimeoutOf(timeouts, e), now + MIN_TIMER_SLEEP)
                && (ses.timers[e] > now + MIN_TIMER_SLEEP ==>
                      ses.timers[e] <= TimeOf(ses.time, i) + TimeoutOf(timeouts, e))
    {
      hide Good;
      forall c: Ctx, i | Good(St(), c) && i in ListOf(ses.lists, e)
        ensures TimeOf(ses.time, ListOf(ses.lists, e)[0]) <= TimeOf(ses.time, i)
      {
        FirstIsOldest(St(), c, e, i);
      }
      var l := ListOf(ses.lists, e);
      if l == [] {
        return;
      }
      var next := TimeOf(ses.time, l[0]) + TimeoutOf(timeouts, e);
      if next < now + MIN_TIMER_SLEEP {
        next := now + MIN_TIMER_SLEEP;
      }
      ses := ses.(timers := ses.timers[e := next]);
    }

    method Reschedule(e: Expirer)
      modifies this`ses
      ensures ses == Nat64.Reschedule(old(ses), e, timeouts, now)
      ensures forall c: Ctx :: Good(old(St()), c) && c.running == Some(e) && c.changing == None ==>
                Good(St(), c.(running := None))
    {
      hide Good;
      forall c: Ctx | Good(St(), c) && c.running == Some(e) && c.changing == None
        ensures Good(St().(ses := Nat64.Reschedule(ses, e, timeouts, now)), c.(running := None))
      {
        RescheduleGood(St(), e, c);
      }
      if e !in ses.timers {
        ForceReschedule(e);
      }
    }

    method Detach(i: SesId)
      modifies this`ses
      ensures ses == Nat64.Detach(old(ses), i)
    {
      if i in ses.expirer {
        var e := ses.expirer[i];
        ses := ses.(lists := ses.lists[e := Without(ListOf(ses.lists, e), i)]);
        ses := ses.(expirer := ses.expirer - {i});
      }
    }

    method Attach(i: SesId, e: Expirer)
      modifies this`ses
      ensures ses == Nat64.Attach(old(ses), i, e, timeouts, now)
    {
      ses := ses.(time := ses.time[i := now]);
      ses := ses.(lists := ses.lists[e := ListOf(ses.lists, e) + [i]]);
      ses := ses.(expirer := ses.expirer[i := e]);
      Reschedule(e);
    }

    /** The table's reference passes to the caller. */
    method TableRm(i: SesId)
      modifies this`ses
      ensures ses == Nat64.TableRm(old(ses), i)
      ensures forall c: Ctx :: Good(old(St()), c) && i in old(ses.expirer) && c.changing == Some(i) ==>
                Good(St(), HoldSes(c, i).(changing := None))
    {
      hide Good, Nat64.Detach;
      forall c: Ctx | Good(St(), c) && i in ses.expirer && c.changing == Some(i)
        ensures Good(St().(ses := Nat64.TableRm(ses, i)), HoldSes(c, i).(changing := None))
      {
        TableRmGood(St(), i, c);
      }
      if i in ses.flows {
        DetachKeepsIndexes(ses, i, ses.by6 - {KeyOf6(ses.flows[i])}, ses.by4 - {KeyOf4(ses.flows[i])});
        ses := ses.(by6 := ses.by6 - {KeyOf6(ses.flows[i])});
        ses := ses.(by4 := ses.by4 - {KeyOf4(ses.flows[i])});
        Detach(i);
      }
    }

    method Move(i: SesId, kind: Kind)
      requires i in ses.flows
      modifies this`ses
      ensures St() == Nat64.Move(old(St()), i, kind)
      ensures forall c: Ctx :: MoveFits(old(St()), i, kind, c) ==> Good(St(), c.(changing := None))
    {
      hide Good, Nat64.Attach, OnRightList;
      forall c: Ctx | MoveFits(St(), i, kind, c) ensures Good(Nat64.Move(St(), i, kind), c.(changing := None)) {
        MoveGood(St(), i, kind, c);
      }
      var e := Expirer(ses.flows[i].proto, kind);
      Detach(i);
      Attach(i, e);
    }

    method DecideFate(p: Pending, i: SesId, fate: Fate, memory: bool) returns (q: Pending)
      requires i in ses.flows
      modifies this`bib, this`ses
      ensures (St(), q) == Nat64.DecideFate(old(St()), p, i, fate, memory)
      ensures forall c: Ctx :: FateFits(old(St()), p, i, fate, c) ==> Good(St(), Carry(c, q))
    {
      hide Good, Nat64.Move, Nat64.TableRm, FateFits;
      forall c: Ctx | FateFits(St(), p, i, fate, c)
        ensures var (r, q) := Nat64.DecideFate(St(), p, i, fate, memory); Good(r, Carry(c, q))
      {
        DecideFateGood(St(), p, i, fate, memory, c);
      }
      q := p;
      match fate
      case TimerEst => Move(i, Est);
      case Probe =>
        if memory {
          var clone := SessionAlloc(ses.flows[i], TcpOf(ses.tcp, i), now);
          q := p.(probes := [clone] + p.probes);
        }
        Move(i, Trans);
      case TimerTrans => Move(i, Trans);
      case Remove =>
        TableRm(i);
        q := p.(rms := [i] + p.rms);
      case Preserve =>
    }

    method SendProbes(ids: seq<SesId>)
      modifies this
      ensures St() == Nat64.SendProbes(old(St()), ids)
    {
      hide Nat64.SessionReturn;
      var k := 0;
      while k < |ids|
        invariant 0 <= k <= |ids|
        invariant Nat64.SendProbes(St(), ids[k..]) == Nat64.SendProbes(old(St()), ids)
      {
        if ids[k] in ses.flows {
          probes := probes + [ses.flows[ids[k]]];
        }
        SessionReturn(ids[k]);
        assert ids[k..][1..] == ids[k + 1..];
        k := k + 1;
      }
    }

    method PostFate(p: Pending)
      modifies this
      ensures St() == Nat64.PostFate(old(St()), p)
      ensures forall c: Ctx :: Good(old(St()), Carry(c, p)) ==> Good(St(), c)
    {
      hide Good;
      forall c: Ctx | Good(St(), Carry(c, p)) ensures Good(Nat64.PostFate(St(), p), c) {
        PostFateGood(St(), p, c);
      }
      SendProbes(p.probes);
      ReturnAll(p.rms);
    }

    /** cleaner_timer: stops at the first unexpired session. */
    method CleanerTimer(e: Expirer, starved: set<SesId>)
      requires Valid()
      modifies this
      ensures Valid() && St() == Clean(old(St()), e, starved)
      ensures CleanedExactly(old(St()), St(), e, starved)
    {
      hide Good, Nat64.DecideFate, Nat64.PostFate, Nat64.Reschedule;
      CleanGood(St(), e, starved, ANY);
      CleanIsExact(St(), e, starved, ANY);
      hide CleanedExactly;
      ses := ses.(timers := ses.timers - {e});
      ghost var s0 := St();
      var ids, p, k := ListOf(ses.lists, e), Pending([], []), 0;
      while k < |ids|
        invariant 0 <= k <= |ids|
        invariant CleanLoop(St(), p, e, ids[k..], starved) == CleanLoop(s0, Pending([], []), e, ids, starved)
      {
        var i := ids[k];
        if i !in ses.flows || now < TimeOf(ses.time, i) + TimeoutOf(timeouts, e) {
          break;
        }
        var (t, fate) := Expire(ses.flows[i].proto, TcpOf(ses.tcp, i));
        ses := ses.(tcp := ses.tcp[i := t]);
        p := DecideFate(p, i, fate, i !in starved);
        assert ids[k..][1..] == ids[k + 1..];
        k := k + 1;
      }
      Reschedule(e);
      PostFate(p);
    }

    // ---------------------------------------------------------------- stored SYNs

    method QueueUnlink(n: SesId, k: Key4)
      modifies this`queue
      ensures queue == Nat64.QueueUnlink(old(queue), n, k)
    {
      queue := queue.(nodes := Without(queue.nodes, n));
      queue := queue.(tree := queue.tree - {k});
      queue := queue.(count := queue.count - 1, packets := queue.packets - {n});
    }

    method QueueRemove(k: Key4)
      modifies this`bib, this`ses, this`queue
      ensures St() == Nat64.QueueRemove(old(St()), k)
      ensures forall c: Ctx :: Good(old(St()), c) ==> Good(St(), c)
      ensures k.proto.TCP? ==> k !in queue.tree
    {
      hide Good, Nat64.SessionReturn;
      forall c: Ctx | Good(St(), c) ensures Good(Nat64.QueueRemove(St(), k), c) {
        QueueRemoveGood(St(), k, c);
      }
      if !k.proto.TCP? || k !in queue.tree {
        return;
      }
      var n := queue.tree[k];
      var packet := PacketOf(queue, n);
      QueueUnlink(n, k);
      queue := queue.(cancelled := queue.cancelled + multiset{packet});
      SessionReturn(n);
    }

    method QueueAdd(i: SesId, packet: PacketId, memory: bool) returns (ok: bool)
      requires i in ses.flows
      modifies this`ses, this`queue
      ensures (St(), ok) == Nat64.QueueAdd(old(St()), i, packet, memory)
      ensures forall c: Ctx :: Storable(old(St()), i, c) ==> Good(St(), c)
      ensures !ok ==> St() == old(St())
    {
      hide Good, Storable;
      forall c: Ctx | Storable(St(), i, c) ensures Good(Nat64.QueueAdd(St(), i, packet, memory).0, c) {
        StorableGood(St(), i, packet, memory, c);
      }
      var k := KeyOf4(ses.flows[i]);
      if !memory || queue.count + 1 >= maxPackets || k in queue.tree {
        return false;
      }
      queue := queue.(tree := queue.tree[k := i], nodes := queue.nodes + [i], packets := queue.packets[i := packet]);
      queue := queue.(count := queue.count + 1, entered := queue.entered + multiset{packet});
      queue := queue.(timer := Some(TimeOf(ses.time, queue.nodes[0]) + SYN_TIMEOUT));
      SessionGet(i);
      return true;
    }

    /** The loop of the queue's timer; `icmps` await their ICMP error. */
    method QueueSweep() returns (icmps: seq<SesId>)
      modifies this`queue
      ensures (queue, icmps) == QueueCleanLoop(old(queue).(timer := None), ses, now, old(queue).nodes, [])
    {
      hide Without, TimeOf;
      queue := queue.(timer := None);
      ghost var q0 := queue;
      var ids, k := queue.nodes, 0;
      icmps := [];
      while k < |ids|
        invariant 0 <= k <= |ids|
        invariant QueueCleanLoop(queue, ses, now, ids[k..], icmps) == QueueCleanLoop(q0, ses, now, ids, [])
      {
        hide Nat64.QueueUnlink;
        var n := ids[k];
        if n !in ses.flows {
          break;
        }
        var due := TimeOf(ses.time, n) + SYN_TIMEOUT;
        if now < due {
          queue := queue.(timer := Some(due));
          break;
        }
        var packet := PacketOf(queue, n);
        var before := queue.answered;
        QueueUnlink(n, KeyOf4(ses.flows[n]));
        queue := queue.(answered := before + multiset{packet});
        icmps := [n] + icmps;
        assert ids[k..][1..] == ids[k + 1..];
        k := k + 1;
      }
    }

    /** cleaner_timer of pkt_queue.c */
    method QueueCleanerTimer()
      requires Valid()
      modifies this
      ensures Valid() && St() == QueueClean(old(St()))
      ensures forall i :: i in queue.nodes <==> i in old(queue).nodes && !SynExpired(old(St()), i)
    {
      hide Good, Nat64.ReturnAll, QueueCleanLoop, SynExpired;
      QueueCleanGood(St(), IDLE);
      QueueCleanIsExact(St(), IDLE);
      var icmps := QueueSweep();
      ReturnAll(icmps);
    }

    // ---------------------------------------------------------------- packets

    method SessionAdd(i: SesId, kind: Kind) returns (ok: bool)
      requires i in ses.flows
      modifies this`bib, this`ses, this`queue
      ensures (St(), ok) == Nat64.SessionAdd(old(St()), i, kind)
      ensures forall c: Ctx :: Addable(old(St()), i, kind, c) ==> Good(St(), c)
    {
      hide Good, Nat64.QueueRemove, Nat64.Attach, Addable;
      forall c: Ctx | Addable(St(), i, kind, c) ensures Good(Nat64.SessionAdd(St(), i, kind).0, c) {
        AddableGood(St(), i, kind, c);
      }
      var f := ses.flows[i];
      QueueRemove(KeyOf4(f));
      if KeyOf6(f) in ses.by6 {
        return false;
      }
      ses := ses.(by6 := ses.by6[KeyOf6(f) := i]);
      if KeyOf4(f) in ses.by4 {
        ses := ses.(by6 := ses.by6 - {KeyOf6(f)});
        return false;
      }
      ses := ses.(by4 := ses.by4[KeyOf4(f) := i]);
      Attach(i, Expirer(f.proto, kind));
      SessionGet(i);
      return true;
    }

    method GetOrCreateBib6(p: Packet6, env: Env6) returns (b: Option<BibId>)
      modifies this`bib
      ensures (St(), b) == Nat64.GetOrCreateBib6(old(St()), p, env)
      ensures forall c: Ctx :: Good(old(St()), c) ==>
                match b
                case Some(id) =>
                  Good(St(), HoldBib(c, id)) && id in bib.entries && EndOf6(bib.entries[id]) == End6(p.proto, p.src)
                case None => Good(St(), c)
    {
      hide Good;
      forall c: Ctx | Good(St(), c)
        ensures var (r, b) := Nat64.GetOrCreateBib6(St(), p, env);
                match b
                case Some(id) =>
                  Good(r, HoldBib(c, id)) && id in r.bib.entries && EndOf6(r.bib.entries[id]) == End6(p.proto, p.src)
                case None => Good(r, c)
      {
        GetOrCreateBib6Good(St(), p, env, c);
      }
      b := BibFind6(bib, End6(p.proto, p.src));
      if b.Some? {
        BibGet(b.value);
        return;
      }
      if env.dst4.None? || env.mask.None? || !env.bibMemory {
        return None;
      }
      var id := bib.next;
      var ok := BibAdd(Mapping(p.proto, p.src, env.mask.value), false);
      return if ok then Some(id) else None;
    }

    method CreateSession(flow: Option<Flow>, tcp: Tcp, memory: bool) returns (i: Option<SesId>)
      modifies this`bib, this`ses
      ensures (St(), i) == Nat64.CreateSession(old(St()), flow, tcp, memory)
      ensures i.Some? ==> i.value in ses.flows
    {
      if flow.None? || !memory {
        return None;
      }
      var id := SessionAlloc(flow.value, tcp, now);
      return Some(id);
    }

    method GetOrCreateSession(found: Option<SesId>, flow: Option<Flow>, memory: bool) returns (i: Option<SesId>)
      modifies this`bib, this`ses, this`queue
      ensures (St(), i) == Nat64.GetOrCreateSession(old(St()), found, flow, memory)
      ensures forall c: Ctx :: SimpleFits(old(St()), found, flow, c) ==>
                if i.Some? then Good(St(), HoldSes(c, i.value)) && i.value in ses.expirer else Good(St(), c)
    {
      hide Good, Nat64.Move, Nat64.SessionAdd, Nat64.SessionReturn, Nat64.CreateSession, SimpleFits;
      forall c: Ctx | SimpleFits(St(), found, flow, c)
        ensures var (r, i) := Nat64.GetOrCreateSession(St(), found, flow, memory);
                if i.Some? then Good(r, HoldSes(c, i.value)) && i.value in r.ses.expirer else Good(r, c)
      {
        SimpleFitsGood(St(), found, flow, memory, c);
      }
      if found.Some? && found.value in ses.flows {
        SessionGet(found.value);
        Move(found.value, Est);
        return found;
      }
      i := CreateSession(flow, BLANK, memory);
      if i.Some? {
        var ok := SessionAdd(i.value, Est);
        if !ok {
          SessionReturn(i.value);
          return None;
        }
      }
    }

    method Simple(b: BibId, found: Option<SesId>, flow: Option<Flow>, memory: bool) returns (v: Verdict)
      modifies this`bib, this`ses, this`queue
      ensures (St(), v) == Nat64.Simple(old(St()), b, found, flow, memory)
    {
      hide Nat64.GetOrCreateSession, Nat64.SessionReturn, Nat64.BibReturn;
      var i := GetOrCreateSession(found, flow, memory);
      if i.None? {
        BibReturn(b);
        return Drop;
      }
      SessionReturn(i.value);
      BibReturn(b);
      return Continue;
    }

    method Ipv6Simple(p: Packet6, env: Env6) returns (v: Verdict)
      modifies this`bib, this`ses, this`queue
      ensures (St(), v) == Nat64.Ipv6Simple(old(St()), p, env)
      ensures forall c: Ctx :: Good(old(St()), c) && c.changing == None && !p.proto.TCP? ==> Good(St(), c)
    {
      hide Good;
      forall c: Ctx | Good(St(), c) && c.changing == None && !p.proto.TCP?
        ensures Good(Nat64.Ipv6Simple(St(), p, env).0, c)
      {
        Ipv6SimpleGood(St(), p, env, c);
      }
      hide Nat64.GetOrCreateBib6, Nat64.Simple;
      var b := GetOrCreateBib6(p, env);
      if b.None? {
        return Drop;
      }
      var flow := if env.dst4.None? || b.value !in bib.entries then None
                  else Some(NewFlow6(p, b.value, bib.entries[b.value], env.dst4.value));
      v := Simple(b.value, SessionFind6(ses, Key6(p.proto, p.dst, p.src)), flow, env.sessionMemory);
    }

    function NewFlow(p: Packet4, b: Option<BibId>, env: Env4): Option<Flow>
      reads this
    {
      if env.src6.None? then None
      else if b.Some? && b.value in bib.entries then Some(NewFlow4(p, b.value, bib.entries[b.value], env.src6.value))
      else Some(NewFlow4Unbound(p, env.src6.value))
    }

    method Ipv4Simple(p: Packet4, env: Env4) returns (v: Verdict)
      modifies this`bib, this`ses, this`queue
      ensures (St(), v) == Nat64.Ipv4Simple(old(St()), p, env)
      ensures forall c: Ctx :: Good(old(St()), c) && c.changing == None && !p.proto.TCP? ==> Good(St(), c)
    {
      hide Good;
      forall c: Ctx | Good(St(), c) && c.changing == None && !p.proto.TCP?
        ensures Good(Nat64.Ipv4Simple(St(), p, env).0, c)
      {
        Ipv4SimpleGood(St(), p, env, c);
      }
      hide Nat64.Simple, Nat64.BibReturn, Nat64.BibGet;
      var b := BibFind4(bib, End4(p.proto, p.dst));
      if b.None? {
        return Accept;
      }
      BibGet(b.value);
      if env.filtering && !Allow(ses, p) {
        BibReturn(b.value);
        return Drop;
      }
      v := Simple(b.value, SessionFind4(ses, Key4(p.proto, p.dst, p.src)), NewFlow(p, b, env), env.sessionMemory);
    }

    method ClosedSyn6(p: Packet6, env: Env6) returns (v: Verdict)
      modifies this`bib, this`ses, this`queue
      ensures (St(), v) == Nat64.ClosedSyn6(old(St()), p, env)
      ensures forall c: Ctx :: Good(old(St()), c) && c.changing == None && p.proto.TCP? ==> Good(St(), c)
    {
      hide Good;
      forall c: Ctx | Good(St(), c) && c.changing == None && p.proto.TCP?
        ensures Good(Nat64.ClosedSyn6(St(), p, env).0, c)
      {
        ClosedSyn6Good(St(), p, env, c);
      }
      hide Nat64.GetOrCreateBib6, Nat64.CreateSession, Nat64.SessionAdd, Nat64.SessionReturn, Nat64.BibReturn;
      var b := GetOrCreateBib6(p, env);
      if b.None? {
        return Drop;
      }
      var flow := if env.dst4.None? || b.value !in bib.entries then None
                  else Some(NewFlow6(p, b.value, bib.entries[b.value], env.dst4.value));
      var i := CreateSession(flow, Tcp(V6_INIT, false, true, false, false), env.sessionMemory);
      v := Drop;
      if i.Some? {
        var ok := SessionAdd(i.value, Trans);
        if ok {
          v := Continue;
        }
        SessionReturn(i.value);
      }
      BibReturn(b.value);
    }

    method ClosedSyn4Held(p: Packet4, env: Env4, b: Option<BibId>) returns (v: Verdict)
      modifies this`bib, this`ses, this`queue
      ensures (St(), v) == Nat64.ClosedSyn4Held(old(St()), p, env, b)
    {
      hide Nat64.CreateSession, Nat64.SessionAdd, Nat64.SessionReturn, Nat64.QueueAdd;
      var i := CreateSession(NewFlow(p, b, env), Tcp(V4_INIT, true, false, false, false), env.sessionMemory);
      v := Drop;
      if i.Some? {
        if b.None? || env.filtering {
          var ok := QueueAdd(i.value, p.id, env.nodeMemory);
          v := if ok then Stolen else Drop;
        } else {
          var ok := SessionAdd(i.value, Trans);
          v := if ok then Continue else Drop;
        }
        SessionReturn(i.value);
      }
    }

    method ClosedSyn4(p: Packet4, env: Env4) returns (v: Verdict)
      modifies this`bib, this`ses, this`queue
      ensures (St(), v) == Nat64.ClosedSyn4(old(St()), p, env)
      ensures Key4(p.proto, p.dst, p.src) !in old(ses.by4) ==>
                forall c: Ctx :: Good(old(St()), c) && c.changing == None && p.proto.TCP? ==> Good(St(), c)
    {
      hide Good;
      forall c: Ctx | Good(St(), c) && c.changing == None && p.proto.TCP? && Key4(p.proto, p.dst, p.src) !in ses.by4
        ensures Good(Nat64.ClosedSyn4(St(), p, env).0, c)
      {
        ClosedSyn4Good(St(), p, env, c);
      }
      hide Nat64.ClosedSyn4Held, Nat64.BibReturn, Nat64.BibGet;
      if env.dropExternal {
        return Drop;
      }
      var b := BibFind4(bib, End4(p.proto, p.dst));
      if b.Some? {
        BibGet(b.value);
      }
      v := ClosedSyn4Held(p, env, b);
      if b.Some? {
        BibReturn(b.value);
      }
    }

    method ClosedOther(b: Option<BibId>) returns (v: Verdict)
      modifies this`bib
      ensures (St(), v) == Nat64.ClosedOther(old(St()), b)
    {
      hide Nat64.BibReturn, Nat64.BibGet;
      if b.None? {
        return Drop;
      }
      BibGet(b.value);
      BibReturn(b.value);
      return Continue;
    }

    method TcpFound(i: SesId, p: Flags)
      requires i in ses.flows
      modifies this
      ensures St() == Nat64.TcpFound(old(St()), i, p)
      ensures i in old(ses.expirer) && old(ses.flows)[i].proto.TCP? ==>
                forall c: Ctx :: Good(old(St()), c) && c.changing == None ==> Good(St(), c)
    {
      hide Good;
      forall c: Ctx | Good(St(), c) && c.changing == None && i in ses.expirer && ses.flows[i].proto.TCP?
        ensures Good(Nat64.TcpFound(St(), i, p), c)
      {
        TcpFoundGood(St(), i, p, c);
      }
      hide Nat64.DecideFate, Nat64.PostFate, Nat64.SessionReturn, Machine, Seen;
      SessionGet(i);
      var (t, fate) := Machine(Seen(TcpOf(ses.tcp, i), p), p);
      ses := ses.(tcp := ses.tcp[i := t]);
      var pending := DecideFate(Pending([], []), i, fate, true);
      PostFate(pending);
      SessionReturn(i);
    }

    /** filtering_and_updating for IPv6 packets */
    method From6(p: Packet6, env: Env6) returns (v: Verdict)
      requires Valid()
      modifies this
      ensures Valid() && (St(), v) == Nat64.From6(old(St()), p, env)
    {
      hide Good, Nat64.TcpFound, Nat64.ClosedSyn6, Nat64.ClosedOther, Nat64.Ipv6Simple;
      From6Good(St(), p, env, IDLE);
      if env.hairpin {
        return Drop;
      }
      if !env.inPool6 {
        return Accept;
      }
      if env.icmpError {
        return Continue;
      }
      if !p.proto.TCP? {
        if p.proto.ICMP? && env.filterPings {
          return Drop;
        }
        v := Ipv6Simple(p, env);
        return;
      }
      var found := SessionFind6(ses, Key6(p.proto, p.dst, p.src));
      if found.Some? {
        TcpFound(found.value, Flags(true, p.syn, p.fin, p.rst));
        return Continue;
      }
      if p.syn {
        v := ClosedSyn6(p, env);
      } else {
        v := ClosedOther(BibFind6(bib, End6(p.proto, p.src)));
      }
    }

    /** filtering_and_updating for IPv4 packets */
    method From4(p: Packet4, env: Env4) returns (v: Verdict)
      requires Valid()
      modifies this
      ensures Valid() && (St(), v) == Nat64.From4(old(St()), p, env)
    {
      hide Good, Nat64.TcpFound, Nat64.ClosedSyn4, Nat64.ClosedOther, Nat64.Ipv4Simple;
      From4Good(St(), p, env, IDLE);
      if !env.inPool4 {
        return Accept;
      }
      if env.icmpError {
        return Continue;
      }
      if !p.proto.TCP? {
        v := Ipv4Simple(p, env);
        return;
      }
      var found := SessionFind4(ses, Key4(p.proto, p.dst, p.src));
      if found.Some? {
        TcpFound(found.value, Flags(false, p.syn, p.fin, p.rst));
        return Continue;
      }
      if p.syn {
        v := ClosedSyn4(p, env);
      } else {
        v := ClosedOther(BibFind4(bib, End4(p.proto, p.dst)));
      }
    }

    // ---------------------------------------------------------------- requests

    /** The callbacks' rm on each selected session, then delete on the list they built. */
    method DeleteSessions(ids: seq<SesId>)
      modifies this`bib, this`ses
      ensures St() == Nat64.DeleteSessions(old(St()), ids)
    {
      hide Nat64.TableRm, Nat64.ReturnAll;
      var k, rms := 0, [];
      while k < |ids|
        invariant 0 <= k <= |ids|
        invariant RmAll(ses, ids[k..]) == RmAll(old(ses), ids)
        invariant Reversed(ids) == Reversed(ids[k..]) + rms
        invariant bib == old(bib)
      {
        TableRm(ids[k]);
        rms := [ids[k]] + rms;
        assert ids[k..][1..] == ids[k + 1..];
        k := k + 1;
      }
      assert [] + rms == rms;
      ReturnAll(rms);
    }

    method AddStaticRoute(m: Mapping, inPool4: bool, memory: bool) returns (ok: bool)
      requires Valid()
      modifies this`bib
      ensures Valid() && (St(), ok) == AddStatic(old(St()), m, inPool4, memory)
      ensures !ok ==> bib == old(bib)
    {
      hide Good, Nat64.BibReturn, Nat64.BibGet, Nat64.BibAdd;
      AddStaticGood(St(), m, inPool4, memory, IDLE);
      if !inPool4 {
        return false;
      }
      var other := BibFind4(bib, EndOf4(m));
      if other.Some? {
        BibGet(other.value);
        BibReturn(other.value);
        return false;
      }
      other := BibFind6(bib, EndOf6(m));
      if other.Some? {
        BibGet(other.value);
        BibReturn(other.value);
        return false;
      }
      if !memory {
        return false;
      }
      ok := BibAdd(m, true);
    }

    /** The IPv4 index of a protocol, in order. */
    method InOrder4(proto: Proto) returns (keys: seq<Quad>)
      ensures keys == Tree4(ses, proto)
    {
      keys := [];
      var rest := ses.by4.Keys;
      ghost var all := set k | k in ses.by4 && k.proto == proto :: Quad4(k);
      while rest != {}
        invariant rest <= ses.by4.Keys
        invariant InOrderOf(keys, set k | k in ses.by4 && k.proto == proto && k !in rest :: Quad4(k))
        decreases rest
      {
        var k :| k in rest;
        IndexGrows(ses.by4, proto, rest, k, keys);
        rest := rest - {k};
        if k.proto == proto {
          keys := TableWalk.Insert(keys, Quad4(k));
        }
      }
      assert (set k | k in ses.by4 && k.proto == proto && k !in rest :: Quad4(k)) == all;
      OrderingUnique(keys, Ordering(all), all);
    }

    /** sessiontable_delete_by_bib, up to the choice of sessions: from the entry's address on, while it is that. */
    method SessionsOf(m: Mapping) returns (ids: seq<SesId>)
      ensures ids == BibIds(ses, m)
    {
      hide Tree4, Less, From, Walk, Taken4, BibAct;
      var keys := InOrder4(m.proto);
      var offset := Quad(m.ipv4.l3, m.ipv4.l4, 0, 0);
      var k := 0;
      while k < |keys| && Less(keys[k], offset)
        invariant 0 <= k <= |keys|
        invariant forall j :: 0 <= j < k ==> Less(keys[j], offset)
      {
        k := k + 1;
      }
      StartsHere(keys, offset, k);
      ghost var act, taken := BibAct(m.ipv4.l3, m.ipv4.l4), [];
      ghost var all := Walk(keys[k..], act);
      ids := [];
      NoneTaken(ses, m.proto);
      while k < |keys| && keys[k].a == m.ipv4.l3 && keys[k].b == m.ipv4.l4
        invariant 0 <= k <= |keys|
        invariant all == taken + Walk(keys[k..], act)
        invariant ids == Taken4(ses, m.proto, taken)
      {
        BibActIs(m.ipv4.l3, m.ipv4.l4, keys[k]);
        WalkStep(keys, k, act, taken);
        OneMoreTaken(ses, m.proto, taken, keys[k]);
        var key := Key4Of(m.proto, keys[k]);
        ids := ids + [if key in ses.by4 then ses.by4[key] else 0];
        taken := taken + [keys[k]];
        k := k + 1;
      }
      WalkEnds(keys, k, m.ipv4.l3, m.ipv4.l4);
      assert all == taken;
    }

    /** delete_static_route */
    method DeleteStaticRoute(proto: Proto, addr6: Option<Taddr6>, addr4: Option<Taddr4>)
      requires Valid()
      modifies this`bib, this`ses
      ensures Valid() && St() == Step(old(St()), DeleteRoute(proto, addr6, addr4))
    {
      hide Good, Nat64.BibReturn, Nat64.BibGet, Nat64.DeleteSessions, BibIds;
      DeleteRouteGood(St(), proto, addr6, addr4, IDLE);
      var b: Option<BibId> := None;
      if addr6.Some? {
        b := BibFind6(bib, End6(proto, addr6.value));
      } else if addr4.Some? {
        b := BibFind4(bib, End4(proto, addr4.value));
      }
      if b.None? {
        return;
      }
      var mapping := bib.entries[b.value];
      BibGet(b.value);
      if addr6.Some? && addr4.Some? && mapping.ipv4 != addr4.value {
        BibReturn(b.value);
        return;
      }
      BibGetStatics(old(bib), b.value);
      if b.value in bib.statics {
        BibReturn(b.value);
        bib := bib.(statics := bib.statics - {b.value});
      }
      var ids := SessionsOf(mapping);
      DeleteSessions(ids);
      BibReturn(b.value);
    }

    /** config_replace and sessiondb_update_timers */
    method SetTimeouts(ts: Timeouts)
      requires Valid()
      modifies this`ses, this`timeouts
      ensures Valid() && St() == Nat64.SetTimeouts(old(St()), ts)
    {
      hide Good, Nat64.ForceReschedule;
      SetTimeoutsGood(St(), ts, IDLE);
      timeouts := ts;
      var k := 0;
      while k < |EXPIRERS|
        invariant 0 <= k <= |EXPIRERS| && timeouts == ts
        invariant UpdateTimersOf(ses, EXPIRERS[k..], ts, now) == UpdateTimersOf(old(ses), EXPIRERS, ts, now)
      {
        ForceReschedule(EXPIRERS[k]);
        assert EXPIRERS[k..][1..] == EXPIRERS[k + 1..];
        k := k + 1;
      }
    }
  }

  lemma IndexGrows(by4: map<Key4, SesId>, proto: Proto, rest: set<Key4>, k: Key4, keys: seq<Quad>)
    requires k in rest && rest <= by4.Keys
    requires InOrderOf(keys, set j | j in by4 && j.proto == proto && j !in rest :: Quad4(j))
    ensures InOrderOf(if k.proto == proto then TableWalk.Insert(keys, Quad4(k)) else keys,
                      set j | j in by4 && j.proto == proto && j !in rest - {k} :: Quad4(j))
  {
    hide Ascending, TableWalk.Insert;
    var was, now := set j | j in by4 && j.proto == proto && j !in rest :: Quad4(j),
                    set j | j in by4 && j.proto == proto && j !in rest - {k} :: Quad4(j);
    if k.proto == proto {
      assert Quad4(k) !in was;
      assert now == was + {Quad4(k)};
      InsertAscends(keys, Quad4(k));
    } else {
      assert now == was;
    }
  }

  lemma StartsHere(keys: seq<Quad>, offset: Quad, n: nat)
    requires n <= |keys| && forall j :: 0 <= j < n ==> Less(keys[j], offset)
    requires n < |keys| ==> !Less(keys[n], offset)
    ensures keys[n..] == From(keys, offset, true)
  {
    hide Less;
    OrderedTree.LowerBoundUnique(keys, Compare(offset), n);
  }

  lemma NoneTaken(d: SessionDb, proto: Proto)
    ensures Taken4(d, proto, []) == []
  {
  }

  lemma OneMoreTaken(d: SessionDb, proto: Proto, w: seq<Quad>, q: Quad)
    ensures Taken4(d, proto, w + [q])
         == Taken4(d, proto, w) + [if Key4Of(proto, q) in d.by4 then d.by4[Key4Of(proto, q)] else 0]
  {
  }

  lemma BibActIs(a: nat, b: nat, k: Quad)
    ensures BibAct(a, b)(k) == if k.a != a || k.b != b then Stop else Take
  {
  }

  lemma WalkEnds(keys: seq<Quad>, k: nat, a: nat, b: nat)
    requires k <= |keys| && (k < |keys| ==> keys[k].a != a || keys[k].b != b)
    ensures Walk(keys[k..], BibAct(a, b)) == []
  {
  }

  lemma DetachKeepsIndexes(d: SessionDb, i: SesId, by6: map<Key6, SesId>, by4: map<Key4, SesId>)
    ensures Detach(d.(by6 := by6, by4 := by4), i) == Detach(d, i).(by6 := by6, by4 := by4)
  {
    hide Without, ListOf;
  }

  lemma BibGetStatics(db: BibDb, b: BibId)
    ensures BibGet(db, b).statics == db.statics
  {
  }

  lemma BibAddRefusedToo(db: BibDb, m: Mapping, isStatic: bool)
    ensures !BibAdd(db, m, isStatic).1 ==> BibAdd(db, m, isStatic).0 == db
  {
    if !BibAdd(db, m, isStatic).1 {
      BibAddRefused(db, m, isStatic);
    }
  }
}
