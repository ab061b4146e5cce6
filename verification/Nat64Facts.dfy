/** Address-dependent filtering, and runs in which an invariant breaks. */
module Nat64Facts {

  import opened Types
  import opened TableWalk
  import opened Nat64
  import opened Nat64Inv
  import opened Nat64Tables
  import opened Nat64Steps
  import opened Nat64Packets
  import opened Nat64Timers
  import opened Nat64Requests
  import opened Nat64Ranges
  import opened Nat64Flush
  import opened Nat64Runs
  import opened Nat64Evolution
  import opened Nat64Outcomes
  import opened Nat64Live

  // ------------------------------------------------------------------ address-dependent filtering

  /** The tree search with the coarser comparison decides what the scan of all sessions would. */
  lemma AllowIsTheScan(s: State, p: Packet4, late: set<Expirer>)
    requires Good(s, Idle(late))
    ensures Allow(s.ses, p) <==>
            exists i :: i in s.ses.expirer && i in s.ses.flows && s.ses.flows[i].proto == p.proto
                        && s.ses.flows[i].local4 == p.dst && s.ses.flows[i].remote4.l3 == p.src.l3
    ensures Allow(s.ses, p) <==>
            exists q <- Tree4(s.ses, p.proto) :: q.a == p.dst.l3 && q.b == p.dst.l4 && q.c == p.src.l3
  {
    hide Good, Tree4, Ascending;
    FoundFacts(s, Idle(late));
    Tree4Members(s.ses, p.proto);
    if Allow(s.ses, p) {
      var k :| k in s.ses.by4 && k.proto == p.proto && k.local == p.dst && k.remote.l3 == p.src.l3;
      assert s.ses.by4[k] in s.ses.expirer;
      assert Key4Of(p.proto, Quad4(k)) == k;
      assert Quad4(k) in Tree4(s.ses, p.proto);
    }
    if i :| i in s.ses.expirer && i in s.ses.flows && s.ses.flows[i].proto == p.proto
            && s.ses.flows[i].local4 == p.dst && s.ses.flows[i].remote4.l3 == p.src.l3
    {
      TableFacts(s, Idle(late), i);
      assert KeyOf4(s.ses.flows[i]) in s.ses.by4;
    }
    if q :| q in Tree4(s.ses, p.proto) && q.a == p.dst.l3 && q.b == p.dst.l4 && q.c == p.src.l3 {
      assert Key4Of(p.proto, q) in s.ses.by4;
    }
  }

  // ------------------------------------------------------------------ what deletions delete

  predicate Matches(r: Scope, a: Taddr4)
    requires r.Block? && r.size > 0
  {
    InBlock(r.address, r.size, a.l3) && r.min <= a.l4 <= r.max
  }

  /**
   Deleting a range removes every matching session if and only if none lies below the prefix's address, where the
   walk starts; a prefix without a suffix never has one there.
   */
  lemma RangeDeletionIsExactIff(s: State, r: Scope, late: set<Expirer>)
    requires Good(s, Idle(late)) && r.Block? && r.size > 0
    ensures var m := DeleteRange(s, PROTOS, r);
            (forall i :: i in m.ses.expirer && i in m.ses.flows ==> !Matches(r, m.ses.flows[i].local4)) <==>
            (forall i :: i in s.ses.expirer && i in s.ses.flows && Matches(r, s.ses.flows[i].local4) ==>
               r.address <= s.ses.flows[i].local4.l3)
    ensures r.address % r.size == 0 ==>
            forall i :: i in s.ses.expirer && i in s.ses.flows && Matches(r, s.ses.flows[i].local4) ==>
              r.address <= s.ses.flows[i].local4.l3
  {
    hide Good, DeleteRange, InBlock, TcpOf, TimeOf;
    var m := DeleteRange(s, PROTOS, r);
    DeleteRangeGood(s, PROTOS, r, Idle(late));
    StoredFlows(s, Idle(late));
    StoredFlows(m, Idle(late));
    forall i | i in s.ses.expirer ensures s.ses.flows[i].proto in PROTOS {
      EveryProto(s.ses.flows[i].proto);
    }
    if r.address % r.size == 0 {
      forall i | i in s.ses.expirer && Matches(r, s.ses.flows[i].local4) ensures r.address <= s.ses.flows[i].local4.l3 {
        SuffixFreeRange(r.address, r.size, s.ses.flows[i].local4.l3);
      }
    }
  }

  lemma DropFakeUserStatics(db: BibDb, b: BibId)
    requires b in db.refs && db.refs[b] > 1
    ensures b !in DropFakeUser(db, b).statics
    ensures DropFakeUser(db, b).entries == db.entries
  {
  }

  lemma ReturnStatics(db: BibDb, b: BibId)
    ensures forall x :: x in BibReturn(db, b).statics ==> x in db.statics
  {
  }

  /**
   Deleting a route ends every session of the entry and its being static; the entry itself stays only while
   stored SYNs refer to it.
   */
  lemma DeleteRouteMeaning(s: State, proto: Proto, a6: Option<Taddr6>, a4: Option<Taddr4>, b: BibId, late: set<Expirer>)
    requires Good(s, Idle(late)) && StaticToDelete(s, proto, a6, a4) == Some(b)
    requires a6.Some? && a4.Some? ==> s.bib.entries[b].ipv4 == a4.value
    ensures var r := Step(s, DeleteRoute(proto, a6, a4));
            && b !in r.bib.statics
            && (forall i :: i in r.ses.expirer && i in r.ses.flows ==> r.ses.flows[i].bib != Some(b))
            && (b in r.bib.entries ==> exists n :: n in r.queue.nodes && n in r.ses.flows && r.ses.flows[n].bib == Some(b))
  {
    hide Good, BibGet, BibReturn, DropFakeUser, DeleteSessions, BibIds, Distinct, Uses, TcpOf, TimeOf;
    var c, m := Idle(late), s.bib.entries[b];
    var ids := BibIds(s.ses, m);
    DeleteRouteGood(s, proto, a6, a4, c);
    BibIdsAre(s, m, c);
    BibGetGood(s, b, c);
    var s1 := s.(bib := BibGet(s.bib, b));
    BibFacts(s, c);
    GetRefs(s.bib, b);
    DropFakeUserStatics(s1.bib, b);
    DropFakeUserGood(s1, b, HoldBib(c, b));
    var s2 := s1.(bib := DropFakeUser(s1.bib, b));
    DeleteSessionsGood(s2, ids, HoldBib(c, b));
    DeleteSessionsStatics(s2, ids, HoldBib(c, b));
    var s3 := DeleteSessions(s2, ids);
    ReturnStatics(s3.bib, b);
    var r := s3.(bib := BibReturn(s3.bib, b));
    assert r == Step(s, DeleteRoute(proto, a6, a4));
    StoredFlows(s, c);
    forall i | i in r.ses.expirer ensures i in r.ses.flows && r.ses.flows[i].bib != Some(b) {
      QueuedLink(s, c, i);
    }
    AllocatedMeansStored(r, late);
    if b in r.bib.entries {
      BibFacts(r, c);
      RefsOf(r, b, late);
      UsesNone(r.ses.flows, b);
    }
  }

  lemma GetRefs(db: BibDb, b: BibId)
    requires b in db.refs && db.refs[b] > 0
    ensures b in BibGet(db, b).refs && BibGet(db, b).refs[b] > 1 && BibGet(db, b).entries == db.entries
  {
  }

  // ------------------------------------------------------------------ where invariants break

  /** A flushed static entry that a stored SYN still uses stays marked static without the reference that goes with it. */
  lemma FlushLosesAReference(s: State, r: Scope, n: SesId, late: set<Expirer>)
    requires Good(s, Idle(late)) && ValidScope(r)
    requires n in s.queue.nodes && n in s.ses.flows && s.ses.flows[n].bib.Some?
    requires s.ses.flows[n].bib.value in s.bib.statics && Covers(r, s.ses.flows[n].local4)
    ensures var t, b := RmPool4(s, r), s.ses.flows[n].bib.value;
            b in t.bib.refs && b in t.bib.statics && t.bib.refs[b] == Uses(t.ses.flows, b)
  {
    hide Good, Covers, DeleteRange, Uses, BibFlush, Visited, DeletedRange;
    var c, b := Idle(late), s.ses.flows[n].bib.value;
    DeleteRangeGood(s, PROTOS, r, c);
    DeleteRangeStatics(s, PROTOS, r, c);
    var m := DeleteRange(s, PROTOS, r);
    VisitedAre(m, r, c);
    QueuedLink(s, c, n);
    StaticEntries(m, c);
    UsersLeft(s, m, r, b, late);
    LoneRefs(m, b, c);
    BibFlushAt(m.bib, Visited(m.bib, r), b);
  }

  const ROUTE := Mapping(TCP, Taddr6(6, 60), Taddr4(4, 40))
  const SYN := Packet4(7, TCP, Taddr4(9, 90), Taddr4(4, 40), true, false, false)
  const FILTERING := Env4(true, false, true, false, Some(99), true, true)

  lemma StaticRoute(ts: Timeouts)
    ensures Step(Init(ts, 10), AddRoute(ROUTE, true, true))
         == Init(ts, 10).(bib := BibDb(map[0 := ROUTE], map[0 := 1], {0}, map[EndOf6(ROUTE) := 0], map[EndOf4(ROUTE) := 0], 1))
  {
  }

  lemma SynOnStaticRoute(s: State, db: BibDb, ts: Timeouts)
    requires s == Init(ts, 10).(bib := db)
    requires db == BibDb(map[0 := ROUTE], map[0 := 1], {0}, map[EndOf6(ROUTE) := 0], map[EndOf4(ROUTE) := 0], 1)
    ensures var r := Step(s, Arrive4(SYN, FILTERING));
            && r.queue.nodes == [0] && r.bib.statics == {0}
            && 0 in r.ses.flows && r.ses.flows[0].bib == Some(0)
  {
    var s1 := s.(bib := BibGet(db, 0));
    var f := NewFlow4(SYN, 0, ROUTE, 99);
    var s2 := SessionAlloc(s1, f, Tcp(V4_INIT, true, false, false, false), 0);
    assert CreateSession(s1, FlowFrom4(s1, SYN, Some(0), FILTERING), Tcp(V4_INIT, true, false, false, false), true)
        == (s2, Some(0));
    var s3 := QueueAdd(s2, 0, 7, true).0;
    assert s3.queue.nodes == [0] && s3.ses.refs[0] == 2 && s3.bib.refs[0] == 3;
  }

  /** A static route, a SYN stored on it, and the whole of pool4 flushed. */
  lemma FlushExample(ts: Timeouts, late: set<Expirer>)
    ensures var s := Run(Init(ts, 10), [AddRoute(ROUTE, true, true), Arrive4(SYN, FILTERING)]);
            Good(s, Idle(late)) && !Good(Step(s, LeavePool4(Everything)), Idle(late))
  {
    hide Good, Step, Covers;
    var s0 := Init(ts, 10);
    var e1, e2 := AddRoute(ROUTE, true, true), Arrive4(SYN, FILTERING);
    var s1 := Step(s0, e1);
    var s2 := Step(s1, e2);
    TwoSteps(s0, e1, e2);
    StaticRoute(ts);
    SynOnStaticRoute(s1, s1.bib, ts);
    InitGood(ts, 10, late);
    StepKeepsIff(s0, e1, late);
    StepKeepsIff(s1, e2, late);
    EverythingIsCovered(s2.ses.flows[0].local4);
    assert !NoSynOnStatic(s2, Everything);
    StepKeepsIff(s2, LeavePool4(Everything), late);
  }

  /** A SYN stored, and the maximum lowered to one: the queue is no longer below it. */
  lemma ResizeExample(ts: Timeouts)
    ensures var s := Run(Init(ts, 10), [AddRoute(ROUTE, true, true), Arrive4(SYN, FILTERING)]);
            Good(s, IDLE) && Bounded(s) && !Bounded(Step(s, Resize(1)))
  {
    hide Good, Step, Stored;
    var s0 := Init(ts, 10);
    var e1, e2 := AddRoute(ROUTE, true, true), Arrive4(SYN, FILTERING);
    var s1 := Step(s0, e1);
    var s2 := Step(s1, e2);
    TwoSteps(s0, e1, e2);
    StaticRoute(ts);
    SynOnStaticRoute(s1, s1.bib, ts);
    InitGood(ts, 10, ANY);
    StepKeepsIff(s0, e1, ANY);
    StepKeepsIff(s1, e2, ANY);
    QueueCounts(s2);
    QueueStaysBoundedIff(s0, e1);
    QueueStaysBoundedIff(s1, e2);
    QueueStaysBoundedIff(s2, Resize(1));
  }

  lemma QueueCounts(s: State)
    requires Good(s, IDLE)
    ensures s.queue.count == |s.queue.nodes|
  {
    hide BibIndex, BibRefs, Links, SesIndex, Lists, Sorted, Past, SesRefs, QueueTimes, Conserved, Exclusive;
    hide Armed, TcpLists, Prompt;
  }

  lemma EverythingIsCovered(a: Taddr4)
    ensures Covers(Everything, a)
  {
  }

  lemma TwoSteps(s: State, e1: Event, e2: Event)
    requires ValidEvent(e1) && ValidEvent(e2)
    ensures Run(s, [e1, e2]) == Step(Step(s, e1), e2)
  {
    hide Step;
    var m := Step(s, e1);
    assert [e1, e2][1..] == [e2] && [e2][1..] == [];
    assert Run(m, [e2]) == Run(Step(m, e2), []);
  }

  const PING := Packet6(UDP, Taddr6(6, 60), Taddr6(8, 80), false, false, false)
  const NORMAL := Env6(false, true, false, false, Some(9), Some(Taddr4(4, 40)), true, true)
  const UDP_EST := Expirer(UDP, Est)

  /** A session of UDP, whose mask is port 40 of address 4. */
  lemma FirstPacket(ts: Timeouts)
    ensures var r := Step(Init(ts, 10), Arrive6(PING, NORMAL));
            && UDP_EST in r.ses.timers && r.ses.timers[UDP_EST] == Max(ts.udp, MIN_TIMER_SLEEP) && r.now == 0
            && 0 in r.ses.expirer && 0 in r.ses.flows && r.ses.flows[0].local4 == Taddr4(4, 40)
            && r.queue.nodes == [] && r.bib.statics == {}
  {
    var s := Init(ts, 10);
    var m := Mapping(UDP, PING.src, Taddr4(4, 40));
    var s1 := s.(bib := BibDb(map[0 := m], map[0 := 1], {}, map[EndOf6(m) := 0], map[EndOf4(m) := 0], 1));
    assert GetOrCreateBib6(s, PING, NORMAL) == (s1, Some(0));
    var f := NewFlow6(PING, 0, m, 9);
    var s2 := SessionAlloc(s1, f, BLANK, 0);
    assert CreateSession(s1, FlowFrom6(s1, PING, 0, NORMAL), BLANK, true) == (s2, Some(0));
    AddedTimer(s2, f, ts);
  }

  lemma AddedTimer(s: State, f: Flow, ts: Timeouts)
    requires s.ses.flows == map[0 := f] && f.proto == UDP && s.ses.by6 == map[] && s.ses.by4 == map[] && s.now == 0
    requires s.ses.timers == map[] && s.ses.lists == map[] && s.timeouts == ts && s.ses.refs == map[0 := 1]
    ensures var (r, ok) := SessionAdd(s, 0, Est);
            && ok && UDP_EST in r.ses.timers && r.ses.timers[UDP_EST] == Max(ts.udp, MIN_TIMER_SLEEP) && r.now == 0
            && 0 in r.ses.expirer && r.ses.flows == s.ses.flows && r.queue == s.queue && r.bib == s.bib
            && 0 in r.ses.refs && r.ses.refs[0] == 2
  {
  }

  lemma {:induction false} RmAllTimers(d: SessionDb, ids: seq<SesId>)
    ensures RmAll(d, ids).timers == d.timers
    decreases |ids|
  {
    hide Without;
    if ids == [] {
    } else {
      RmAllTimers(TableRm(d, ids[0]), ids[1..]);
    }
  }

  lemma DeleteSessionsTimers(s: State, ids: seq<SesId>, c: Ctx)
    requires Good(s, c) && c.changing == None && Distinct(ids) && forall i :: i in ids ==> i in s.ses.expirer
    ensures DeleteSessions(s, ids).ses.timers == s.ses.timers && DeleteSessions(s, ids).now == s.now
  {
    hide Good, RmAll, ReturnAll, Distinct, Reversed, TcpOf, TimeOf;
    RmAllGood(s, ids, c);
    RmAllTimers(s.ses, ids);
    ReversedSame(ids);
    assert HoldAll(c, Reversed(ids)) == HoldAll(c, ids);
    ReturnAllSame(s.(ses := RmAll(s.ses, ids)), Reversed(ids), c);
  }

  lemma {:induction false} DeleteRangeTimers(s: State, protos: seq<Proto>, r: Scope, c: Ctx)
    requires Good(s, c) && c.changing == None && ValidScope(r)
    ensures DeleteRange(s, protos, r).ses.timers == s.ses.timers && DeleteRange(s, protos, r).now == s.now
    decreases |protos|
  {
    hide Good, Covers, Distinct, DeleteSessions, RangeIds, Deleted;
    if protos == [] {
    } else {
      var ids := RangeIds(s.ses, protos[0], r);
      RangeIdsAre(s, protos[0], r, c);
      DeleteSessionsGood(s, ids, c);
      DeleteSessionsTimers(s, ids, c);
      DeleteRangeTimers(DeleteSessions(s, ids), protos[1..], r, c);
    }
  }

  /** Flushing empties every list but leaves the timers pending. */
  lemma FlushLeavesTimers(s: State, late: set<Expirer>, e: Expirer)
    requires Good(s, Idle(late))
    ensures var r := Step(s, FlushPool6);
            && Good(r, Idle(late)) && ListOf(r.ses.lists, e) == [] && r.ses.timers == s.ses.timers && r.now == s.now
            && r.ses.expirer == map[] && r.queue == s.queue && r.bib.statics == s.bib.statics
  {
    hide Good, Covers, DeleteRange, TcpOf, TimeOf;
    var r := DeleteRange(s, PROTOS, Everything);
    DeleteRangeGood(s, PROTOS, Everything, Idle(late));
    DeleteRangeTimers(s, PROTOS, Everything, Idle(late));
    DeleteRangeStatics(s, PROTOS, Everything, Idle(late));
    StoredFlows(s, Idle(late));
    forall i | i in s.ses.expirer ensures i !in r.ses.expirer {
      EveryProto(s.ses.flows[i].proto);
      EverythingIsCovered(s.ses.flows[i].local4);
    }
    ListMembers(r, Idle(late), e);
    SomeMember(ListOf(r.ses.lists, e));
  }

  lemma SomeMember(l: seq<SesId>)
    ensures l != [] ==> exists i :: i in l
  {
    if l != [] {
      assert l[0] in l;
    }
  }

  /** Without sessions, stored SYNs and static entries there is no entry at all. */
  lemma NothingLeft(s: State)
    requires Good(s, IDLE) && s.ses.expirer == map[] && s.queue.nodes == [] && s.bib.statics == {}
    ensures s.ses.by6 == map[] && s.ses.by4 == map[] && s.bib.by6 == map[] && s.bib.by4 == map[]
  {
    hide Good, Uses;
    FoundFacts(s, IDLE);
    BibFacts(s, IDLE);
    AllocatedMeansStored(s, ANY);
    forall b | b in s.bib.entries ensures false {
      RefsOf(s, b, ANY);
      UsesNone(s.ses.flows, b);
    }
  }

  lemma OpensAgain(s: State)
    requires s.ses.by6 == map[] && s.ses.by4 == map[] && s.bib.by6 == map[] && s.bib.by4 == map[]
    ensures Opens6(s, PING, NORMAL)
  {
  }

  /**
   A session, a flush, and a lower timeout: the timer of the emptied list is still set for the old timeout. All is
   well until the next packet opens a session, which will wait for it.
   */
  lemma LateTimerExample(ts: Timeouts, lower: Timeouts)
    requires ts.udp == 100_000 && lower.udp == 1
    ensures var s := Run(Init(ts, 10), [Arrive6(PING, NORMAL), FlushPool6, Configure(lower)]);
            Good(s, IDLE) && Live(s) && !Live(Step(s, Arrive6(PING, NORMAL)))
  {
    hide Good, Step, SetTimeouts, Live, Opens6;
    var s0 := Init(ts, 10);
    var e1, e2, e3 := Arrive6(PING, NORMAL), FlushPool6, Configure(lower);
    var s1 := Step(s0, e1);
    var s2 := Step(s1, e2);
    var s3 := SetTimeouts(s2, lower);
    assert Run(s0, [e1, e2, e3]) == s3 by { ThreeSteps(s0, e1, e2, lower); }
    FirstPacket(ts);
    InitGood(ts, 10, ANY);
    StepKeepsIff(s0, e1, ANY);
    FlushLeavesTimers(s1, ANY, UDP_EST);
    NothingLeft(s2);
    SetTimeoutsGood(s2, lower, IDLE);
    ConfigureLive(s2, lower);
    SetTimeoutsDoes(s2, lower);
    OpensAgain(s3);
    assert LateIdle(s3, UDP_EST) && Joins(s3, e1, UDP_EST);
    StepKeepsLiveIff(s3, e1);
  }

  lemma ThreeSteps(s: State, e1: Event, e2: Event, ts: Timeouts)
    requires ValidEvent(e1) && ValidEvent(e2)
    ensures Run(s, [e1, e2, Configure(ts)]) == SetTimeouts(Step(Step(s, e1), e2), ts)
  {
    var m := Step(s, e1);
    assert [e1, e2, Configure(ts)][1..] == [e2, Configure(ts)];
    TwoSteps(m, e2, Configure(ts));
    assert Step(Step(m, e2), Configure(ts)) == SetTimeouts(Step(m, e2), ts);
  }

  /**
   The block of addresses 4 to 7, named by the address 5, leaves pool4: the session whose mask is at address 4 is in
   the block, and stays.
   */
  lemma RangeDeletionExample(ts: Timeouts)
    ensures var block := Block(5, 4, 0, 0xFFFF);
            var s := Run(Init(ts, 10), [Arrive6(PING, NORMAL), LeavePool4(block)]);
            && Good(s, IDLE) && 0 in s.ses.expirer && 0 in s.ses.flows && Matches(block, s.ses.flows[0].local4)
  {
    hide Good, Step, TcpOf, TimeOf;
    var s0, block := Init(ts, 10), Block(5, 4, 0, 0xFFFF);
    var e1, e2 := Arrive6(PING, NORMAL), LeavePool4(block);
    var s1 := Step(s0, e1);
    TwoSteps(s0, e1, e2);
    FirstPacket(ts);
    InitGood(ts, 10, ANY);
    StepKeepsIff(s0, e1, ANY);
    assert NoSynOnStatic(s1, block);
    StepKeepsIff(s1, e2, ANY);
    LeaveKeeps(s1, block);
  }

  lemma LeaveKeeps(s: State, r: Scope)
    requires Good(s, IDLE) && ValidScope(r)
    ensures Step(s, LeavePool4(r)).ses == DeleteRange(s, PROTOS, r).ses
    ensures DeletedRange(s, DeleteRange(s, PROTOS, r), PROTOS, r)
  {
    hide Good, DeleteRange, RmPool4, DeletedRange;
    RmPool4Sessions(s, r);
    DeleteRangeGood(s, PROTOS, r, IDLE);
  }
}
