/** Requests that empty part of the BIB, and changes of the timeouts: exactly when they keep the invariants. */
module Nat64Flush {

  import opened Types
  import opened TableWalk
  import opened Nat64
  import opened Nat64Inv
  import opened Nat64Tables
  import opened Nat64Steps
  import opened Nat64Packets
  import opened Nat64Timers
  import opened Nat64Requests
  import opened Nat64Ranges

  // ------------------------------------------------------------------ flushing BIB entries

  lemma LoneRefs(s: State, b: BibId, c: Ctx)
    requires Good(s, c) && b in s.bib.statics && b !in c.hb
    ensures b in s.bib.refs && b in s.bib.entries && s.bib.refs[b] == Uses(s.ses.flows, b) + 1
  {
    hide BibIndex, Uses, Links, SesIndex, Lists, Sorted, Past, SesRefs, QueueIndex, QueueTimes, Conserved, Exclusive;
    hide Armed, TcpLists, Prompt;
  }

  lemma BibFlushOneGood(s: State, b: BibId, c: Ctx)
    requires Good(s, c) && (b in s.bib.statics ==> Uses(s.ses.flows, b) == 0 && b !in c.hb)
    ensures Good(s.(bib := BibFlushOne(s.bib, b)), c)
  {
    hide Good, Uses;
    if b in s.bib.statics {
      LoneRefs(s, b, c);
      UnstaticGood(s, b, c);
      var s1 := s.(bib := s.bib.(statics := s.bib.statics - {b}));
      BibReturnGood(s1, b, HoldBib(c, b));
      HoldFree(c, b);
      assert s.bib.statics - {b} - {b} == s.bib.statics - {b};
      assert BibFlushOne(s.bib, b) == BibReturn(s1.bib, b);
    }
  }

  lemma BibFlushOneStatics(db: BibDb, b: BibId)
    ensures forall x :: x in BibFlushOne(db, b).statics ==> x in db.statics
  {
  }

  lemma {:induction false} BibFlushGood(s: State, ids: seq<BibId>, c: Ctx)
    requires Good(s, c)
    requires forall b :: b in ids && b in s.bib.statics ==> Uses(s.ses.flows, b) == 0 && b !in c.hb
    ensures Good(s.(bib := BibFlush(s.bib, ids)), c)
    decreases |ids|
  {
    hide Good, Uses, BibFlushOne;
    if ids == [] {
    } else {
      assert ids[0] in ids;
      BibFlushOneGood(s, ids[0], c);
      BibFlushOneStatics(s.bib, ids[0]);
      BibFlushGood(s.(bib := BibFlushOne(s.bib, ids[0])), ids[1..], c);
    }
  }

  /** An entry that is still referenced keeps is_static while its fake user goes. */
  lemma {:induction false} BibFlushAt(db: BibDb, ids: seq<BibId>, b: BibId)
    requires b in db.entries && b in db.refs && db.refs[b] > Bit(b in ids) && b in db.statics && Distinct(ids)
    ensures var r := BibFlush(db, ids);
            b in r.entries && b in r.refs && b in r.statics && r.refs[b] == db.refs[b] - Bit(b in ids)
    decreases |ids|
  {
    if ids == [] {
    } else {
      var x, rest := ids[0], ids[1..];
      assert ids == [x] + rest;
      assert b == x ==> b !in rest;
      BibFlushOneAt(db, x, b);
      hide BibFlushOne;
      BibFlushAt(BibFlushOne(db, x), rest, b);
    }
  }

  lemma BibFlushOneAt(db: BibDb, x: BibId, b: BibId)
    requires b in db.entries && b in db.refs && b in db.statics && db.refs[b] > Bit(x == b)
    ensures var r := BibFlushOne(db, x);
            b in r.entries && b in r.refs && b in r.statics && r.refs[b] == db.refs[b] - Bit(x == b)
  {
  }

  lemma RefsOf(s: State, b: BibId, late: set<Expirer>)
    requires Good(s, Idle(late)) && b in s.bib.refs
    ensures s.bib.refs[b] == Uses(s.ses.flows, b) + Bit(b in s.bib.statics)
  {
    hide BibIndex, Uses, Links, SesIndex, Lists, Sorted, Past, SesRefs, QueueIndex, QueueTimes, Conserved, Exclusive;
    hide Armed, TcpLists, Prompt;
  }

  /** __flush keeps reference counts right exactly when no static entry it visits is still in use. */
  lemma BibFlushIff(s: State, ids: seq<BibId>, late: set<Expirer>)
    requires Good(s, Idle(late)) && Distinct(ids)
    ensures Good(s.(bib := BibFlush(s.bib, ids)), Idle(late)) <==>
            forall b :: b in ids && b in s.bib.statics ==> Uses(s.ses.flows, b) == 0
  {
    hide Good, Uses, BibFlush, Distinct;
    var r := s.(bib := BibFlush(s.bib, ids));
    if forall b :: b in ids && b in s.bib.statics ==> Uses(s.ses.flows, b) == 0 {
      BibFlushGood(s, ids, Idle(late));
    } else {
      var b :| b in ids && b in s.bib.statics && Uses(s.ses.flows, b) != 0;
      LoneRefs(s, b, Idle(late));
      BibFlushAt(s.bib, ids, b);
      assert r.bib.refs[b] != Uses(r.ses.flows, b) + Bit(b in r.bib.statics);
      NotGood(r, b, late);
    }
  }

  lemma NotGood(s: State, b: BibId, late: set<Expirer>)
    requires b in s.bib.refs && s.bib.refs[b] != Uses(s.ses.flows, b) + Bit(b in s.bib.statics)
    ensures !Good(s, Idle(late))
  {
    hide BibIndex, Uses, Links, SesIndex, Lists, Sorted, Past, SesRefs, QueueIndex, QueueTimes, Conserved, Exclusive;
    hide Armed, TcpLists, Prompt;
  }

  // ------------------------------------------------------------------ static entries while sessions are deleted

  ghost predicate SameStatics(s: State, r: State) {
    r.bib.statics == s.bib.statics && forall b :: b in s.bib.statics && b in s.bib.entries ==>
      b in r.bib.entries && r.bib.entries[b] == s.bib.entries[b]
  }

  lemma UsedStaticRefs(s: State, i: SesId, c: Ctx)
    requires Good(s, c) && i in s.ses.flows && s.ses.flows[i].bib.Some? && s.ses.flows[i].bib.value in s.bib.statics
    ensures BibCount(s.bib, s.ses.flows[i].bib.value) >= 2
  {
    hide BibIndex, Links, SesIndex, Lists, Sorted, Past, SesRefs, QueueIndex, QueueTimes, Conserved, Exclusive;
    hide Armed, TcpLists, Prompt;
    var b := s.ses.flows[i].bib.value;
    UsesNone(s.ses.flows, b);
    hide Uses;
  }

  lemma SessionReturnStatics(s: State, i: SesId, c: Ctx)
    requires Good(s, c) && i in c.hs
    ensures SameStatics(s, SessionReturn(s, i))
  {
    hide Good, Unlisted;
    HeldFacts(s, c, i);
    var b := s.ses.flows[i].bib;
    if b.Some? && b.value in s.bib.statics {
      UsedStaticRefs(s, i, c);
    }
  }

  lemma {:induction false} ReturnAllStatics(s: State, ids: seq<SesId>, c: Ctx)
    requires Good(s, HoldAll(c, ids))
    ensures SameStatics(s, ReturnAll(s, ids))
    decreases |ids|
  {
    hide Good, SessionReturn;
    if ids == [] {
    } else {
      HoldFirst(c, ids);
      SessionReturnStatics(s, ids[0], HoldAll(c, ids));
      SessionReturnGood(s, ids[0], HoldAll(c, ids));
      ReturnAllStatics(SessionReturn(s, ids[0]), ids[1..], c);
    }
  }

  lemma DeleteSessionsStatics(s: State, ids: seq<SesId>, c: Ctx)
    requires Good(s, c) && c.changing == None && Distinct(ids) && forall i :: i in ids ==> i in s.ses.expirer
    ensures SameStatics(s, DeleteSessions(s, ids))
  {
    hide Good, RmAll, ReturnAll, Distinct, Reversed;
    RmAllGood(s, ids, c);
    ReversedSame(ids);
    assert HoldAll(c, Reversed(ids)) == HoldAll(c, ids);
    ReturnAllStatics(s.(ses := RmAll(s.ses, ids)), Reversed(ids), c);
  }

  lemma {:induction false} DeleteRangeStatics(s: State, protos: seq<Proto>, r: Scope, c: Ctx)
    requires Good(s, c) && c.changing == None && ValidScope(r)
    ensures SameStatics(s, DeleteRange(s, protos, r))
    decreases |protos|
  {
    hide Good, Covers, Distinct, DeleteSessions, RangeIds, Deleted;
    if protos == [] {
    } else {
      var ids := RangeIds(s.ses, protos[0], r);
      RangeIdsAre(s, protos[0], r, c);
      DeleteSessionsGood(s, ids, c);
      DeleteSessionsStatics(s, ids, c);
      DeleteRangeStatics(DeleteSessions(s, ids), protos[1..], r, c);
    }
  }

  // ------------------------------------------------------------------ taking addresses out of pool4

  const PROTOS := [TCP, ICMP, UDP]

  /** The BIB entries bibtable_delete_taddr4s and bibtable_flush visit, in the three tables. */
  ghost function Visited(db: BibDb, r: Scope): seq<BibId>
    requires ValidScope(r)
  {
    TakenBib(db, TCP, Chosen(TreeBib(db, TCP), r)) + TakenBib(db, UDP, Chosen(TreeBib(db, UDP), r))
    + TakenBib(db, ICMP, Chosen(TreeBib(db, ICMP), r))
  }

  /** handle_pool4_rm and handle_pool4_flush: sessions first, then the fake users of static BIB entries. */
  ghost function RmPool4(s: State, r: Scope): State
    requires ValidScope(r)
  {
    var m := DeleteRange(s, PROTOS, r);
    m.(bib := BibFlush(m.bib, Visited(m.bib, r)))
  }

  lemma TakenBibAre(db: BibDb, proto: Proto, r: Scope)
    requires ValidScope(r) && BibIndex(db.entries, db.by6, db.by4, db.next)
    ensures var ids := TakenBib(db, proto, Chosen(TreeBib(db, proto), r));
            && Distinct(ids)
            && forall b :: b in ids <==> b in db.entries && db.entries[b].proto == proto && Covers(r, db.entries[b].ipv4)
  {
    hide Ascending, Chosen, Covers, TreeBib;
    TreeBibMembers(db, proto);
    ChosenAre(TreeBib(db, proto), r);
    var w := Chosen(TreeBib(db, proto), r);
    var ids := TakenBib(db, proto, w);
    forall n | 0 <= n < |w|
      ensures ids[n] in db.entries && EndOf4(db.entries[ids[n]]) == End4Of(proto, w[n]) && w[n].c == 0 && w[n].d == 0
    {
      assert w[n] in w;
    }
    forall n, m | 0 <= n < m < |ids| ensures ids[n] != ids[m] {
      AscendingDistinct(w, n, m);
    }
    forall b | b in db.entries && db.entries[b].proto == proto && Covers(r, db.entries[b].ipv4) ensures b in ids {
      var q := Quad(db.entries[b].ipv4.l3, db.entries[b].ipv4.l4, 0, 0);
      assert End4Of(proto, q) == EndOf4(db.entries[b]);
      assert q in w;
      var n :| 0 <= n < |w| && w[n] == q;
      assert ids[n] == b;
    }
    forall b | b in ids ensures db.entries[b].proto == proto && Covers(r, db.entries[b].ipv4) {
      var n :| 0 <= n < |ids| && ids[n] == b;
      assert w[n] in w && Taddr4(w[n].a, w[n].b) == db.entries[b].ipv4;
    }
  }

  lemma VisitedAre(s: State, r: Scope, c: Ctx)
    requires Good(s, c) && ValidScope(r)
    ensures Distinct(Visited(s.bib, r))
    ensures forall b :: b in Visited(s.bib, r) <==> b in s.bib.entries && Covers(r, s.bib.entries[b].ipv4)
  {
    hide Good, BibIndex, Covers, TakenBib, Chosen, TreeBib;
    var db := s.bib;
    BibIndexOf(s, c);
    TakenBibAre(db, TCP, r);
    TakenBibAre(db, UDP, r);
    TakenBibAre(db, ICMP, r);
    var t, u, i := TakenBib(db, TCP, Chosen(TreeBib(db, TCP), r)), TakenBib(db, UDP, Chosen(TreeBib(db, UDP), r)),
                   TakenBib(db, ICMP, Chosen(TreeBib(db, ICMP), r));
    DistinctAppend(t, u);
    DistinctAppend(t + u, i);
    assert forall b :: b in t + u + i <==> b in t || b in u || b in i;
  }

  lemma BibIndexOf(s: State, c: Ctx)
    requires Good(s, c)
    ensures BibIndex(s.bib.entries, s.bib.by6, s.bib.by4, s.bib.next)
  {
    hide BibIndex, BibRefs, Links, SesIndex, Lists, Sorted, Past, SesRefs, QueueIndex, QueueTimes, Conserved, Exclusive;
    hide Armed, TcpLists, Prompt;
  }

  lemma DistinctAppend(x: seq<BibId>, y: seq<BibId>)
    requires Distinct(x) && Distinct(y) && forall b :: b in x ==> b !in y
    ensures Distinct(x + y)
  {
    forall j, k | 0 <= j < k < |x + y| ensures (x + y)[j] != (x + y)[k] {
      if j < |x| <= k {
        assert x[j] in x && y[k - |x|] in y;
      }
    }
  }

  /** No stored SYN belongs to a static BIB entry in the range. */
  ghost predicate NoSynOnStatic(s: State, r: Scope)
    requires ValidScope(r)
  {
    forall n :: n in s.queue.nodes && n in s.ses.flows && s.ses.flows[n].bib.Some? ==>
      s.ses.flows[n].bib.value in s.bib.statics ==> !Covers(r, s.ses.flows[n].local4)
  }

  lemma EveryProto(p: Proto)
    ensures p in PROTOS
  {
    assert PROTOS[0] == TCP && PROTOS[1] == ICMP && PROTOS[2] == UDP;
  }

  lemma StoredElsewhere(s: State, m: State, r: Scope, b: BibId, i: SesId, late: set<Expirer>)
    requires Good(m, Idle(late)) && ValidScope(r) && DeletedRange(s, m, PROTOS, r) && i in m.ses.expirer
    requires i in s.ses.flows && b in m.bib.entries && Covers(r, m.bib.entries[b].ipv4)
    ensures i in m.ses.flows && m.ses.flows[i].bib != Some(b)
  {
    hide Good, Covers, TcpOf, TimeOf;
    FoundIs(m, Idle(late), i);
    EveryProto(m.ses.flows[i].proto);
  }

  /** After the sessions in the range are gone, only stored SYNs can still use its entries. */
  lemma UsersLeft(s: State, m: State, r: Scope, b: BibId, late: set<Expirer>)
    requires Good(s, Idle(late)) && Good(m, Idle(late)) && ValidScope(r) && DeletedRange(s, m, PROTOS, r)
    requires b in m.bib.entries && Covers(r, m.bib.entries[b].ipv4)
    ensures Uses(m.ses.flows, b) == 0 <==>
            forall n :: n in s.queue.nodes && n in s.ses.flows ==> s.ses.flows[n].bib != Some(b)
  {
    hide Good, Covers, Uses, DeletedRange;
    UsesNone(m.ses.flows, b);
    AllocatedMeansStored(s, late);
    AllocatedMeansStored(m, late);
    QueuedSame(s, m, r);
    forall i | i in m.ses.expirer ensures i in m.ses.flows && m.ses.flows[i].bib != Some(b) {
      StoredElsewhere(s, m, r, b, i, late);
    }
  }

  lemma QueuedSame(s: State, m: State, r: Scope)
    requires ValidScope(r) && DeletedRange(s, m, PROTOS, r)
    ensures m.queue == s.queue && forall i :: i in m.ses.expirer ==> i in s.ses.expirer
    ensures forall n :: n in s.queue.nodes && n in s.ses.flows ==>
              n in m.ses.flows && m.ses.flows[n] == s.ses.flows[n]
  {
    hide Covers, TcpOf, TimeOf;
  }

  /** Taking a range out of pool4 keeps the invariants exactly when no stored SYN belongs to a static entry in it. */
  lemma RmPool4Iff(s: State, r: Scope, late: set<Expirer>)
    requires Good(s, Idle(late)) && ValidScope(r)
    ensures Good(RmPool4(s, r), Idle(late)) <==> NoSynOnStatic(s, r)
  {
    hide Good, Covers, DeleteRange, Uses, BibFlush, Visited, DeletedRange;
    DeleteRangeGood(s, PROTOS, r, Idle(late));
    DeleteRangeStatics(s, PROTOS, r, Idle(late));
    var m := DeleteRange(s, PROTOS, r);
    VisitedAre(m, r, Idle(late));
    BibFlushIff(m, Visited(m.bib, r), late);
    StaticEntries(s, Idle(late));
    StaticEntries(m, Idle(late));
    forall b | b in m.bib.statics && Covers(r, m.bib.entries[b].ipv4)
      ensures Uses(m.ses.flows, b) == 0 <==>
              forall n :: n in s.queue.nodes && n in s.ses.flows ==> s.ses.flows[n].bib != Some(b)
    {
      UsersLeft(s, m, r, b, late);
    }
    forall n | n in s.queue.nodes && n in s.ses.flows && s.ses.flows[n].bib.Some?
      ensures var b := s.ses.flows[n].bib.value; b in s.bib.entries && s.bib.entries[b].ipv4 == s.ses.flows[n].local4
    {
      QueuedLink(s, Idle(late), n);
    }
  }

  lemma QueuedLink(s: State, c: Ctx, n: SesId)
    requires Good(s, c) && n in s.ses.flows
    ensures Linked(s.bib.entries, s.ses.flows[n])
  {
    hide Core;
    LinkFacts(s, c.hb, c.hs, n);
  }

  lemma StaticEntries(s: State, c: Ctx)
    requires Good(s, c)
    ensures forall b :: b in s.bib.statics ==> b in s.bib.entries
  {
    hide BibIndex, Links, Uses, SesIndex, Lists, Sorted, Past, SesRefs, QueueIndex, QueueTimes, Conserved, Exclusive;
    hide Armed, TcpLists, Prompt;
  }

  // ------------------------------------------------------------------ new timeouts

  lemma {:induction false} UpdateTimersDoes(d: SessionDb, es: seq<Expirer>, ts: Timeouts, now: nat)
    ensures var r := UpdateTimersOf(d, es, ts, now);
            && r == d.(timers := r.timers)
            && (forall e :: e in r.timers <==> e in d.timers || (e in es && ListOf(d.lists, e) != []))
            && (forall e :: e in r.timers ==>
                  r.timers[e] == if e in es && ListOf(d.lists, e) != []
                                 then Deadline(ListOf(d.lists, e), d.time, TimeoutOf(ts, e), now) else d.timers[e])
    decreases |es|
  {
    hide ListOf, TimeoutOf, TimeOf, Max, Deadline, ForceReschedule;
    if es == [] {
    } else {
      assert es == [es[0]] + es[1..];
      ForceFields(d, es[0], ts, now);
      UpdateTimersDoes(ForceReschedule(d, es[0], ts, now), es[1..], ts, now);
    }
  }

  lemma ForceFields(d: SessionDb, e: Expirer, ts: Timeouts, now: nat)
    ensures var r := ForceReschedule(d, e, ts, now);
            r == d.(timers := if ListOf(d.lists, e) == [] then d.timers
                              else d.timers[e := Deadline(ListOf(d.lists, e), d.time, TimeoutOf(ts, e), now)])
  {
  }

  lemma EveryExpirer(e: Expirer)
    ensures e in EXPIRERS
  {
    var n := (if e.proto.UDP? then 0 else if e.proto.TCP? then 2 else 4) + if e.kind.Est? then 0 else 1;
    assert EXPIRERS[n] == e;
  }

  lemma SetTimeoutsDoes(s: State, ts: Timeouts)
    ensures var r := SetTimeouts(s, ts);
            && r.bib == s.bib && r.queue == s.queue && r.now == s.now && r.timeouts == ts && r.maxPackets == s.maxPackets
            && r.ses == s.ses.(timers := r.ses.timers)
            && (forall e :: e in r.ses.timers <==> e in s.ses.timers || ListOf(s.ses.lists, e) != [])
            && (forall e :: e in r.ses.timers ==>
                  r.ses.timers[e] == if ListOf(s.ses.lists, e) != []
                                     then Deadline(ListOf(s.ses.lists, e), s.ses.time, TimeoutOf(ts, e), s.now)
                                     else s.ses.timers[e])
  {
    hide ListOf, TimeoutOf, TimeOf, Max, Deadline, UpdateTimersOf;
    UpdateTimersDoes(s.ses, EXPIRERS, ts, s.now);
    forall e ensures e in EXPIRERS { EveryExpirer(e); }
  }

  lemma SetTimeoutsGood(s: State, ts: Timeouts, c: Ctx)
    requires Good(s, c) && c.late == ANY && c.changing == None
    ensures Good(SetTimeouts(s, ts), c)
  {
    hide BibIndex, Links, BibRefs, SesIndex, Lists, Sorted, Past, SesRefs, QueueIndex, QueueTimes, Conserved, Exclusive;
    hide TcpLists, ListOf, SetTimeouts, Deadline, HasTimeout;
    forall e ensures ListOf(s.ses.lists, e) != [] ==> HasTimeout(e) {
      ListHasTimeout(s, e, c);
    }
    forall e ensures e in ANY { AnyHasAll(e); }
    SetTimeoutsDoes(s, ts);
  }

  lemma TickGood(s: State, ticks: nat, c: Ctx)
    requires Good(s, c)
    ensures Good(s.(now := s.now + ticks), c)
  {
    hide BibIndex, Links, BibRefs, SesIndex, Lists, Sorted, SesRefs, QueueIndex, QueueTimes, Conserved, Exclusive;
    hide TcpLists, Armed, ListOf, TimeoutOf;
  }
}
