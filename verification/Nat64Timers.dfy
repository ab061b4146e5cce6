/** The expiry timers: what their handlers keep, and exactly what they do. */
module Nat64Timers {

  import opened Types
  import opened Nat64
  import opened Nat64Inv
  import opened Nat64Tables
  import opened Nat64Steps
  import opened Nat64Packets

  // ------------------------------------------------------------------ references in flight

  /** The handler also holds the sessions to return and the clones to probe. */
  function Carry(c: Ctx, p: Pending): Ctx { c.(hs := c.hs + multiset(p.rms) + multiset(p.probes)) }

  lemma CarryMore(c: Ctx, p: Pending, i: SesId)
    ensures Carry(c, p.(rms := [i] + p.rms)) == HoldSes(Carry(c, p), i)
    ensures Carry(c, p.(probes := [i] + p.probes)) == HoldSes(Carry(c, p), i)
  {
    assert multiset([i] + p.rms) == multiset{i} + multiset(p.rms);
    assert multiset([i] + p.probes) == multiset{i} + multiset(p.probes);
    assert c.hs + (multiset{i} + multiset(p.rms)) + multiset(p.probes)
        == c.hs + multiset(p.rms) + multiset(p.probes) + multiset{i};
    assert c.hs + multiset(p.rms) + (multiset{i} + multiset(p.probes))
        == c.hs + multiset(p.rms) + multiset(p.probes) + multiset{i};
  }

  function HoldAll(c: Ctx, ids: seq<SesId>): Ctx { c.(hs := c.hs + multiset(ids)) }

  lemma HoldFirst(c: Ctx, ids: seq<SesId>)
    requires ids != []
    ensures ids[0] in HoldAll(c, ids).hs && FreeSes(HoldAll(c, ids), ids[0]) == HoldAll(c, ids[1..])
  {
    assert ids == [ids[0]] + ids[1..];
    assert c.hs + multiset(ids) - multiset{ids[0]} == c.hs + multiset(ids[1..]);
  }

  lemma {:induction false} ReturnAllGood(s: State, ids: seq<SesId>, c: Ctx)
    requires Good(s, HoldAll(c, ids))
    ensures Good(ReturnAll(s, ids), c)
    decreases |ids|
  {
    hide Good, SessionReturn;
    if ids == [] {
      assert HoldAll(c, ids) == c;
    } else {
      HoldFirst(c, ids);
      SessionReturnGood(s, ids[0], HoldAll(c, ids));
      ReturnAllGood(SessionReturn(s, ids[0]), ids[1..], c);
    }
  }

  lemma ProbesFree(s: State, probes: seq<Flow>, c: Ctx)
    requires Good(s, c)
    ensures Good(s.(probes := probes), c)
  {
    hide BibIndex, Links, BibRefs, SesIndex, Lists, Sorted, Past, SesRefs, QueueIndex, QueueTimes, Conserved, Exclusive;
    hide Armed, TcpLists, Prompt;
  }

  function Logged(s: State, i: SesId): State {
    if i in s.ses.flows then s.(probes := s.probes + [s.ses.flows[i]]) else s
  }

  lemma {:induction false} SendProbesGood(s: State, ids: seq<SesId>, c: Ctx)
    requires Good(s, HoldAll(c, ids))
    ensures Good(SendProbes(s, ids), c)
    decreases |ids|
  {
    hide Good, SessionReturn;
    if ids == [] {
      assert HoldAll(c, ids) == c;
    } else {
      var s1 := Logged(s, ids[0]);
      HoldFirst(c, ids);
      ProbesFree(s, s1.probes, HoldAll(c, ids));
      SessionReturnGood(s1, ids[0], HoldAll(c, ids));
      SendProbesGood(SessionReturn(s1, ids[0]), ids[1..], c);
    }
  }

  lemma PostFateGood(s: State, p: Pending, c: Ctx)
    requires Good(s, Carry(c, p))
    ensures Good(PostFate(s, p), c)
  {
    hide Good, SendProbes, ReturnAll;
    assert Carry(c, p) == HoldAll(HoldAll(c, p.rms), p.probes);
    SendProbesGood(s, p.probes, HoldAll(c, p.rms));
    ReturnAllGood(SendProbes(s, p.probes), p.rms, c);
  }

  // ------------------------------------------------------------------ one expired session

  /** Expired sessions that are moved and probed rather than removed. */
  predicate Probed(s: State, i: SesId) {
    i in s.ses.flows && s.ses.flows[i].proto.TCP? && TcpOf(s.ses.tcp, i).state.ESTABLISHED?
  }

  const TCP_TRANS := Expirer(TCP, Trans)

  /** What the loop body does to the table when `i` is an expired session of a list. */
  ghost predicate CleanedOne(s: State, r: State, i: SesId) {
    && i in s.ses.expirer && i in s.ses.flows
    && r.ses.expirer == (if Probed(s, i) then (s.ses.expirer - {i})[i := TCP_TRANS] else s.ses.expirer - {i})
    && (Probed(s, i) ==>
          TcpOf(r.ses.tcp, i) == TcpOf(s.ses.tcp, i).(state := TRANS) && TimeOf(r.ses.time, i) == s.now)
    && (forall j :: j in s.ses.flows ==> j in r.ses.flows && r.ses.flows[j] == s.ses.flows[j])
    && (forall j :: j in s.ses.flows && j != i ==>
          TcpOf(r.ses.tcp, j) == TcpOf(s.ses.tcp, j) && TimeOf(r.ses.time, j) == TimeOf(s.ses.time, j))
    && (forall e :: ListOf(r.ses.lists, e) ==
          (var l := if e == s.ses.expirer[i] then Without(ListOf(s.ses.lists, e), i) else ListOf(s.ses.lists, e);
           if Probed(s, i) && e == TCP_TRANS then l + [i] else l))
    && r.queue == s.queue && r.now == s.now && r.timeouts == s.timeouts && r.probes == s.probes
  }

  lemma MovedLists(lists: map<Expirer, seq<SesId>>, e0: Expirer, w: seq<SesId>, i: SesId)
    ensures var l1 := lists[e0 := w];
            forall e :: ListOf(l1[TCP_TRANS := ListOf(l1, TCP_TRANS) + [i]], e) ==
              (var l := if e == e0 then w else ListOf(lists, e); if e == TCP_TRANS then l + [i] else l)
  {
  }

  lemma RemovedLists(lists: map<Expirer, seq<SesId>>, e0: Expirer, w: seq<SesId>)
    ensures forall e :: ListOf(lists[e0 := w], e) == if e == e0 then w else ListOf(lists, e)
  {
  }

  lemma RemoveFields(s: State, p: Pending, i: SesId, memory: bool)
    requires i in s.ses.expirer && i in s.ses.flows && !Probed(s, i)
    ensures var r, e0 := CleanOne(s, p, i, memory).0, s.ses.expirer[i];
            && r.ses.expirer == s.ses.expirer - {i}
            && r.ses.lists == s.ses.lists[e0 := Without(ListOf(s.ses.lists, e0), i)]
            && r.ses.flows == s.ses.flows && r.ses.time == s.ses.time
            && r.ses.tcp == s.ses.tcp[i := Expire(s.ses.flows[i].proto, TcpOf(s.ses.tcp, i)).0]
            && r.queue == s.queue && r.now == s.now && r.timeouts == s.timeouts && r.probes == s.probes
  {
    hide Without, ListOf;
    var (t, fate) := Expire(s.ses.flows[i].proto, TcpOf(s.ses.tcp, i));
    assert fate == Remove;
    hide Expire, TcpOf;
    var s1 := SetTcp(s, i, t);
    assert CleanOne(s, p, i, memory).0 == s1.(ses := TableRm(s1.ses, i));
    hide CleanOne, DecideFate;
  }

  lemma RemoveDoes(s: State, p: Pending, i: SesId, memory: bool)
    requires i in s.ses.expirer && i in s.ses.flows && !Probed(s, i)
    ensures CleanedOne(s, CleanOne(s, p, i, memory).0, i)
  {
    hide Without, CleanOne, ListOf, TimeOf, Expire;
    var e0 := s.ses.expirer[i];
    RemoveFields(s, p, i, memory);
    RemovedLists(s.ses.lists, e0, Without(ListOf(s.ses.lists, e0), i));
  }

  lemma ProbeDoes(s: State, p: Pending, i: SesId, memory: bool)
    requires i in s.ses.expirer && i in s.ses.flows && s.ses.next !in s.ses.flows && Probed(s, i)
    ensures CleanedOne(s, CleanOne(s, p, i, memory).0, i)
  {
    hide Without, CleanOne, ListOf;
    var e0 := s.ses.expirer[i];
    ProbeFields(s, p, i, memory);
    MovedLists(s.ses.lists, e0, Without(ListOf(s.ses.lists, e0), i), i);
  }

  lemma ProbeFields(s: State, p: Pending, i: SesId, memory: bool)
    requires i in s.ses.expirer && i in s.ses.flows && s.ses.next !in s.ses.flows && Probed(s, i)
    ensures var r, n := CleanOne(s, p, i, memory).0, s.ses.next;
            var t := TcpOf(s.ses.tcp, i).(state := TRANS);
            var e0 := s.ses.expirer[i];
            var l1 := s.ses.lists[e0 := Without(ListOf(s.ses.lists, e0), i)];
            && r.ses.expirer == (s.ses.expirer - {i})[i := TCP_TRANS]
            && r.ses.lists == l1[TCP_TRANS := ListOf(l1, TCP_TRANS) + [i]]
            && r.ses.flows == (if memory then s.ses.flows[n := s.ses.flows[i]] else s.ses.flows)
            && r.ses.tcp == (if memory then s.ses.tcp[i := t][n := t] else s.ses.tcp[i := t])
            && r.ses.time == (if memory then s.ses.time[n := s.now] else s.ses.time)[i := s.now]
            && r.queue == s.queue && r.now == s.now && r.timeouts == s.timeouts && r.probes == s.probes
  {
    hide Without, Attach, ListOf;
    var t := TcpOf(s.ses.tcp, i).(state := TRANS);
    var s1 := SetTcp(s, i, t);
    var s2 := if memory then SessionAlloc(s1, s.ses.flows[i], t, s.now) else s1;
    AttachFields(Detach(s2.ses, i), i, TCP_TRANS, s.timeouts, s.now);
  }

  lemma CleanOneDoes(s: State, p: Pending, i: SesId, memory: bool)
    requires i in s.ses.expirer && i in s.ses.flows && s.ses.next !in s.ses.flows
    ensures CleanedOne(s, CleanOne(s, p, i, memory).0, i)
  {
    hide CleanedOne, CleanOne;
    if Probed(s, i) {
      ProbeDoes(s, p, i, memory);
    } else {
      RemoveDoes(s, p, i, memory);
    }
  }

  lemma CleanOneGood(s: State, p: Pending, i: SesId, memory: bool, c: Ctx)
    requires Good(s, Carry(c, p)) && c.changing == None
    requires i in s.ses.expirer && i in s.ses.flows
    ensures var (r, q) := CleanOne(s, p, i, memory); Good(r, Carry(c, q))
  {
    hide Good, Move, TableRm, SessionAlloc;
    TableFacts(s, Carry(c, p), i);
    ListFacts(s, i, Carry(c, p));
    var (t, fate) := Expire(s.ses.flows[i].proto, TcpOf(s.ses.tcp, i));
    SetTcpGood(s, i, t, Carry(c, p));
    var s1, c1 := SetTcp(s, i, t), Carry(c, p).(changing := Some(i));
    if Probed(s, i) {
      ProbeGood(s1, p, i, memory, c);
    } else {
      TableRmGood(s1, i, c1);
      CarryMore(c, p, i);
    }
  }

  lemma ProbeGood(s: State, p: Pending, i: SesId, memory: bool, c: Ctx)
    requires Good(s, Carry(c, p).(changing := Some(i))) && c.changing == None
    requires i in s.ses.expirer && i in s.ses.flows && s.ses.flows[i].proto.TCP? && Agrees(TcpOf(s.ses.tcp, i), Trans)
    ensures var (r, q) := DecideFate(s, p, i, Probe, memory); Good(r, Carry(c, q))
  {
    hide Good, Move, SessionAlloc, Linked, Agrees;
    var c1 := Carry(c, p).(changing := Some(i));
    if memory {
      var f, t, time := s.ses.flows[i], TcpOf(s.ses.tcp, i), s.now;
      StoredIn(s, c1);
      FoundIs(s, c1, i);
      SessionAllocGood(s, f, t, time, c1);
      AllocFrame(s, f, t, time, i);
      MoveGood(SessionAlloc(s, f, t, time), i, Trans, HoldSes(c1, s.ses.next));
      CarryMore(c, p, s.ses.next);
    } else {
      MoveGood(s, i, Trans, c1);
    }
  }

  lemma AllocFrame(s: State, f: Flow, t: Tcp, time: int, i: SesId)
    requires i in s.ses.flows && s.ses.next !in s.ses.flows
    ensures var r := SessionAlloc(s, f, t, time);
            && i in r.ses.flows && r.ses.flows[i] == s.ses.flows[i] && TcpOf(r.ses.tcp, i) == TcpOf(s.ses.tcp, i)
            && r.ses.expirer == s.ses.expirer
  {
  }

  // ------------------------------------------------------------------ the loop

  /** How many sessions, from the front of the list, have expired. */
  function ExpiredCount(s: State, e: Expirer, ids: seq<SesId>): (n: nat)
    ensures n <= |ids|
    ensures forall j :: 0 <= j < n ==> Expired(s, e, ids[j])
    ensures n < |ids| ==> !Expired(s, e, ids[n])
  {
    if ids == [] || !Expired(s, e, ids[0]) then 0 else ExpiredCount(s, e, ids[1..]) + 1
  }

  /** On a sorted list the first unexpired session is followed by unexpired ones only. */
  lemma BreakIsSound(s: State, e: Expirer, ids: seq<SesId>)
    requires Ordered(ids, s.ses.time)
    ensures forall j :: ExpiredCount(s, e, ids) <= j < |ids| ==> !Expired(s, e, ids[j])
  {
  }

  /** An expired session: moved, to be probed, if its connection was established; out of the table otherwise. */
  ghost predicate Gone(s: State, r: State, i: SesId) {
    if Probed(s, i) then
      && i in r.ses.expirer && r.ses.expirer[i] == TCP_TRANS
      && TcpOf(r.ses.tcp, i) == TcpOf(s.ses.tcp, i).(state := TRANS) && TimeOf(r.ses.time, i) == s.now
    else i !in r.ses.expirer
  }

  ghost predicate Untouched(s: State, r: State, j: SesId) {
    && (j in r.ses.expirer <==> j in s.ses.expirer)
    && (j in s.ses.expirer ==>
          && r.ses.expirer[j] == s.ses.expirer[j]
          && TcpOf(r.ses.tcp, j) == TcpOf(s.ses.tcp, j) && TimeOf(r.ses.time, j) == TimeOf(s.ses.time, j))
  }

  ghost predicate Cleaned(s: State, r: State, gone: seq<SesId>) {
    && (forall i :: i in gone ==> Gone(s, r, i))
    && (forall j :: j !in gone ==> Untouched(s, r, j))
    && r.queue == s.queue && r.now == s.now && r.timeouts == s.timeouts
  }

  ghost predicate FlowsKept(s: State, r: State) {
    forall j :: j in s.ses.flows ==> j in r.ses.flows && r.ses.flows[j] == s.ses.flows[j]
  }

  lemma CleanedOneSplit(s: State, m: State, i: SesId)
    requires CleanedOne(s, m, i)
    requires forall j :: j in s.ses.expirer ==> j in s.ses.flows
    ensures Gone(s, m, i) && forall j :: j != i ==> Untouched(s, m, j)
    ensures m.queue == s.queue && m.now == s.now && m.timeouts == s.timeouts
  {
    hide ListOf, Without, TimeOf, TcpOf, Probed;
  }

  lemma GoneCompose(s: State, m: State, r: State, i: SesId)
    requires Probed(m, i) == Probed(s, i) && m.now == s.now && i in s.ses.expirer
    requires Untouched(s, m, i) && Gone(m, r, i)
    ensures Gone(s, r, i)
  {
  }

  lemma UntouchedCompose(s: State, m: State, r: State, i: SesId)
    requires Untouched(s, m, i) && Untouched(m, r, i)
    ensures Untouched(s, r, i)
  {
  }

  lemma CleanedCompose(s: State, m: State, r: State, i: SesId, rest: seq<SesId>)
    requires CleanedOne(s, m, i) && Cleaned(m, r, rest) && i !in rest
    requires forall j :: j in rest ==> j in s.ses.expirer
    requires forall j :: j in s.ses.expirer ==> j in s.ses.flows
    ensures Cleaned(s, r, [i] + rest)
  {
    hide Gone, Untouched, Probed, CleanedOne;
    CleanedOneSplit(s, m, i);
    GoneThenUntouched(s, m, r, i);
    forall j | j in rest ensures Gone(s, r, j) {
      ProbedSame(s, m, i, j);
      GoneCompose(s, m, r, j);
    }
    forall j | j != i && j !in rest ensures Untouched(s, r, j) {
      UntouchedCompose(s, m, r, j);
    }
    assert forall j :: j in [i] + rest <==> j == i || j in rest;
  }

  lemma GoneThenUntouched(s: State, m: State, r: State, i: SesId)
    requires Gone(s, m, i) && Untouched(m, r, i)
    ensures Gone(s, r, i)
  {
  }

  lemma ProbedSame(s: State, m: State, i: SesId, j: SesId)
    requires CleanedOne(s, m, i) && j != i && j in s.ses.flows
    ensures Probed(m, j) == Probed(s, j)
  {
    hide ListOf, Without, TimeOf, TcpOf;
  }

  lemma {:induction false} ExpiredCountFrame(s: State, m: State, e: Expirer, ids: seq<SesId>)
    requires m.now == s.now && m.timeouts == s.timeouts
    requires forall j :: j in ids ==> TimeOf(m.ses.time, j) == TimeOf(s.ses.time, j)
    ensures ExpiredCount(m, e, ids) == ExpiredCount(s, e, ids)
    decreases |ids|
  {
    if ids == [] {
    } else {
      assert ids[0] in ids;
      ExpiredCountFrame(s, m, e, ids[1..]);
    }
  }

  lemma WithoutHead(ids: seq<SesId>)
    requires ids != []
    ensures Without(ids, ids[0]) == ids[1..]
  {
  }

  /** The flows of a list of clones. */
  function Clones(flows: map<SesId, Flow>, ids: seq<SesId>): seq<Flow>
    requires forall i :: i in ids ==> i in flows
  {
    seq(|ids|, k requires 0 <= k < |ids| => flows[ids[k]])
  }

  /** The flows to probe among expired sessions; the last one found is probed first. */
  function ToProbe(s: State, ids: seq<SesId>, starved: set<SesId>): seq<Flow> {
    if ids == [] then []
    else
      var rest := ToProbe(s, ids[1..], starved);
      if Probed(s, ids[0]) && ids[0] !in starved then rest + [s.ses.flows[ids[0]]] else rest
  }

  lemma ListMembers(s: State, c: Ctx, e: Expirer)
    requires Good(s, c)
    ensures var l := ListOf(s.ses.lists, e);
            && Distinct(l) && Ordered(l, s.ses.time)
            && forall i :: i in l ==> i in s.ses.expirer && s.ses.expirer[i] == e && i in s.ses.flows
  {
    hide BibIndex, Links, BibRefs, Past, SesRefs, QueueIndex, QueueTimes, Conserved, Exclusive;
    hide Armed, TcpLists, Prompt;
    var l := ListOf(s.ses.lists, e);
    assert Listed(l, e, s.ses.expirer);
  }

  lemma NoneProbedInTrans(s: State, c: Ctx, i: SesId)
    requires Good(s, c) && c.changing == None && i in s.ses.expirer && s.ses.expirer[i] == TCP_TRANS
    ensures !Probed(s, i)
  {
    hide Good;
    ListFacts(s, i, c);
  }

  /** One turn of the loop: the first session of the list is dealt with and the list starts at the second. */
  lemma CleanStep(s: State, p: Pending, e: Expirer, ids: seq<SesId>, starved: set<SesId>, memory: bool, c: Ctx)
    requires Good(s, Carry(c, p)) && c.changing == None && ids == ListOf(s.ses.lists, e)
    requires ids != [] && Expired(s, e, ids[0]) && memory == (ids[0] !in starved)
    ensures ids[0] in s.ses.flows && s.ses.next !in s.ses.flows
    ensures var (m, q) := CleanOne(s, p, ids[0], memory);
            && Good(m, Carry(c, q)) && CleanedOne(s, m, ids[0]) && ListOf(m.ses.lists, e) == ids[1..]
            && ExpiredCount(s, e, ids) == ExpiredCount(m, e, ids[1..]) + 1
            && CleanLoop(s, p, e, ids, starved) == CleanLoop(m, q, e, ids[1..], starved)
    ensures ids[0] !in ids[1..] && forall j :: j in ids ==> j in s.ses.expirer && j in s.ses.flows
  {
    hide Good, CleanOne, CleanedOne, TimeOf, TimeoutOf, ListOf;
    var i := ids[0];
    ListMembers(s, Carry(c, p), e);
    var m := CleanOne(s, p, i, memory).0;
    StoredIn(s, Carry(c, p));
    CleanOneGood(s, p, i, memory, c);
    CleanOneDoes(s, p, i, memory);
    CleanOneLeaves(s, m, e, ids, Carry(c, p));
    ExpiredCountFrame(s, m, e, ids[1..]);
  }

  /** cleaner_timer's loop takes exactly the expired sessions off its list. */
  lemma {:induction false} CleanLoopDoes(s: State, p: Pending, e: Expirer, ids: seq<SesId>, starved: set<SesId>, c: Ctx)
    requires Good(s, Carry(c, p)) && c.changing == None && ids == ListOf(s.ses.lists, e)
    ensures var (r, q) := CleanLoop(s, p, e, ids, starved);
            var n := ExpiredCount(s, e, ids);
            && Good(r, Carry(c, q))
            && Cleaned(s, r, ids[..n]) && FlowsKept(s, r) && r.probes == s.probes
            && ListOf(r.ses.lists, e) == ids[n..]
    decreases |ids|
  {
    hide Good, CleanOne, Cleaned, FlowsKept, CleanedOne, Expired, ListOf, Carry;
    if ids == [] || !Expired(s, e, ids[0]) {
      CleanedNone(s);
      assert ids[..0] == [];
    } else {
      hide CleanLoop, ExpiredCount;
      var i, rest := ids[0], ids[1..];
      var memory := i !in starved;
      CleanStep(s, p, e, ids, starved, memory, c);
      var (m, p1) := CleanOne(s, p, i, memory);
      CleanLoopDoes(m, p1, e, rest, starved, c);
      var n := ExpiredCount(s, e, ids);
      var r := CleanLoop(m, p1, e, rest, starved).0;
      assert ids[..n] == [i] + rest[..n - 1] && ids[n..] == rest[n - 1..];
      StoredFlows(s, Carry(c, p));
      CleanedCompose(s, m, r, i, rest[..n - 1]);
      FlowsKeptCompose(s, m, r, i);
    }
  }

  lemma CleanedNone(s: State)
    ensures Cleaned(s, s, []) && FlowsKept(s, s)
  {
  }

  lemma StoredFlows(s: State, c: Ctx)
    requires Good(s, c)
    ensures forall j :: j in s.ses.expirer ==> j in s.ses.flows
  {
    hide Core;
    SessionFacts(s, c.hb, c.hs);
  }

  lemma FlowsKeptCompose(s: State, m: State, r: State, i: SesId)
    requires CleanedOne(s, m, i) && FlowsKept(m, r)
    ensures FlowsKept(s, r) && m.probes == s.probes
  {
    hide ListOf, Without, TimeOf, TcpOf, Probed;
  }

  /** After its first session has been dealt with, the list starts at the second. */
  lemma CleanOneLeaves(s: State, m: State, e: Expirer, ids: seq<SesId>, c: Ctx)
    requires Good(s, c) && c.changing == None && ids == ListOf(s.ses.lists, e) && ids != []
    requires CleanedOne(s, m, ids[0])
    ensures ListOf(m.ses.lists, e) == ids[1..]
    ensures m.now == s.now && m.timeouts == s.timeouts
    ensures ids[0] !in ids[1..]
    ensures forall j :: j in ids[1..] ==> j in s.ses.flows && TimeOf(m.ses.time, j) == TimeOf(s.ses.time, j)
  {
    hide Good, Without, ListOf, TimeOf, TcpOf, Probed;
    ListMembers(s, c, e);
    WithoutHead(ids);
    if e == TCP_TRANS {
      NoneProbedInTrans(s, c, ids[0]);
    }
  }

  // ------------------------------------------------------------------ after the loop

  /** The sessions in the table and in the queue are the same, and so are lists, timers and indexes. */
  ghost predicate SameTable(s: State, r: State) {
    && r.ses.expirer == s.ses.expirer && r.ses.lists == s.ses.lists && r.ses.timers == s.ses.timers
    && r.ses.by6 == s.ses.by6 && r.ses.by4 == s.ses.by4
    && r.queue == s.queue && r.now == s.now && r.timeouts == s.timeouts
    && (forall j :: (j in s.ses.expirer || j in s.queue.nodes) && j in s.ses.flows ==>
          && j in r.ses.flows && r.ses.flows[j] == s.ses.flows[j]
          && TcpOf(r.ses.tcp, j) == TcpOf(s.ses.tcp, j) && TimeOf(r.ses.time, j) == TimeOf(s.ses.time, j))
  }

  lemma SameTableTrans(s: State, m: State, r: State)
    requires SameTable(s, m) && SameTable(m, r)
    ensures SameTable(s, r)
  {
    hide TcpOf, TimeOf;
  }

  lemma SessionReturnSame(s: State, i: SesId, c: Ctx)
    requires Good(s, c) && i in c.hs
    ensures SameTable(s, SessionReturn(s, i))
  {
    hide Good, Unlisted;
    HeldFacts(s, c, i);
    SessionReturnFrame(s, i);
    hide BibReturn;
  }

  lemma {:induction false} ReturnAllSame(s: State, ids: seq<SesId>, c: Ctx)
    requires Good(s, HoldAll(c, ids))
    ensures SameTable(s, ReturnAll(s, ids)) && ReturnAll(s, ids).probes == s.probes
    decreases |ids|
  {
    hide Good, SameTable, SessionReturn;
    if ids == [] {
      SameTableRefl(s);
    } else {
      var m := SessionReturn(s, ids[0]);
      HoldFirst(c, ids);
      SessionReturnFrame(s, ids[0]);
      SessionReturnSame(s, ids[0], HoldAll(c, ids));
      SessionReturnGood(s, ids[0], HoldAll(c, ids));
      ReturnAllSame(m, ids[1..], c);
      SameTableTrans(s, m, ReturnAll(m, ids[1..]));
    }
  }

  lemma SameTableRefl(s: State)
    ensures SameTable(s, s)
  {
  }

  lemma LoggedSame(s: State, i: SesId)
    ensures SameTable(s, Logged(s, i)) && Logged(s, i).ses == s.ses
  {
  }

  /** Each clone is probed once. */
  lemma {:induction false} SendProbesSame(s: State, ids: seq<SesId>, c: Ctx)
    requires Good(s, HoldAll(c, ids)) && Distinct(ids) && forall i :: i in ids ==> i in s.ses.flows
    ensures SameTable(s, SendProbes(s, ids))
    ensures SendProbes(s, ids).probes == s.probes + Clones(s.ses.flows, ids)
    decreases |ids|
  {
    hide Good, SameTable, SessionReturn;
    if ids == [] {
      SameTableRefl(s);
    } else {
      var s1 := Logged(s, ids[0]);
      var m := SessionReturn(s1, ids[0]);
      HoldFirst(c, ids);
      ProbesFree(s, s1.probes, HoldAll(c, ids));
      LoggedSame(s, ids[0]);
      SessionReturnFrame(s1, ids[0]);
      SessionReturnSame(s1, ids[0], HoldAll(c, ids));
      SessionReturnGood(s1, ids[0], HoldAll(c, ids));
      forall i | i in ids[1..] ensures i in m.ses.flows && m.ses.flows[i] == s.ses.flows[i] {
        assert i != ids[0];
      }
      SendProbesSame(m, ids[1..], c);
      SameTableTrans(s, s1, m);
      SameTableTrans(s, m, SendProbes(m, ids[1..]));
      assert Clones(s.ses.flows, ids) == [s.ses.flows[ids[0]]] + Clones(m.ses.flows, ids[1..]);
    }
  }

  lemma PostFateSame(s: State, p: Pending, c: Ctx)
    requires Good(s, Carry(c, p)) && Distinct(p.probes) && forall i :: i in p.probes ==> i in s.ses.flows
    ensures SameTable(s, PostFate(s, p)) && PostFate(s, p).probes == s.probes + Clones(s.ses.flows, p.probes)
  {
    hide Good, SameTable, SendProbes, ReturnAll, Clones;
    assert Carry(c, p) == HoldAll(HoldAll(c, p.rms), p.probes);
    var m := SendProbes(s, p.probes);
    SendProbesGood(s, p.probes, HoldAll(c, p.rms));
    SendProbesSame(s, p.probes, HoldAll(c, p.rms));
    ReturnAllSame(m, p.rms, c);
    SameTableTrans(s, m, ReturnAll(m, p.rms));
  }

  // ------------------------------------------------------------------ which flows are probed

  lemma CleanOneProbes(s: State, p: Pending, i: SesId, memory: bool)
    requires i in s.ses.flows
    ensures var (m, p1) := CleanOne(s, p, i, memory);
            if Probed(s, i) && memory then
              && p1.probes == [s.ses.next] + p.probes
              && s.ses.next in m.ses.flows && m.ses.flows[s.ses.next] == s.ses.flows[i]
            else p1.probes == p.probes
  {
    hide Attach, Detach;
    if Probed(s, i) {
      var t := TcpOf(s.ses.tcp, i).(state := TRANS);
      var s1 := SetTcp(s, i, t);
      var s2 := SessionAlloc(s1, s.ses.flows[i], t, s.now);
      AttachFields(Detach(s2.ses, i), i, TCP_TRANS, s.timeouts, s.now);
      DetachFlows(s2.ses, i);
    }
  }

  lemma DetachFlows(d: SessionDb, i: SesId)
    ensures Detach(d, i).flows == d.flows
  {
  }

  lemma {:induction false} ToProbeFrame(s: State, m: State, i: SesId, ids: seq<SesId>, starved: set<SesId>)
    requires CleanedOne(s, m, i) && i !in ids && forall j :: j in ids ==> j in s.ses.flows
    ensures ToProbe(m, ids, starved) == ToProbe(s, ids, starved)
    decreases |ids|
  {
    hide CleanedOne;
    if ids == [] {
    } else {
      assert ids[0] in ids && ids[0] != i;
      ProbedSame(s, m, i, ids[0]);
      FlowSame(s, m, i, ids[0]);
      ToProbeFrame(s, m, i, ids[1..], starved);
    }
  }

  lemma FlowSame(s: State, m: State, i: SesId, j: SesId)
    requires CleanedOne(s, m, i) && j in s.ses.flows
    ensures j in m.ses.flows && m.ses.flows[j] == s.ses.flows[j]
  {
    hide ListOf, Without, TimeOf, TcpOf, Probed;
  }

  ghost predicate ProbesOk(s: State, p: Pending) {
    Distinct(p.probes) && forall i :: i in p.probes ==> i in s.ses.flows
  }

  lemma CleanOneClones(s: State, p: Pending, i: SesId, memory: bool)
    requires ProbesOk(s, p) && i in s.ses.flows && s.ses.next !in s.ses.flows
    requires CleanedOne(s, CleanOne(s, p, i, memory).0, i)
    ensures var (m, p1) := CleanOne(s, p, i, memory);
            && ProbesOk(m, p1)
            && Clones(m.ses.flows, p1.probes)
               == (if Probed(s, i) && memory then [s.ses.flows[i]] else []) + Clones(s.ses.flows, p.probes)
  {
    hide CleanedOne, CleanOne, Probed;
    var (m, p1) := CleanOne(s, p, i, memory);
    CleanOneProbes(s, p, i, memory);
    forall j | j in p.probes ensures j in m.ses.flows && m.ses.flows[j] == s.ses.flows[j] && j != s.ses.next {
      FlowSame(s, m, i, j);
    }
  }

  lemma {:induction false} CleanLoopProbes(s: State, p: Pending, e: Expirer, ids: seq<SesId>, starved: set<SesId>, c: Ctx)
    requires Good(s, Carry(c, p)) && c.changing == None && ids == ListOf(s.ses.lists, e) && ProbesOk(s, p)
    ensures var (r, q) := CleanLoop(s, p, e, ids, starved);
            && ProbesOk(r, q)
            && Clones(r.ses.flows, q.probes)
               == ToProbe(s, ids[..ExpiredCount(s, e, ids)], starved) + Clones(s.ses.flows, p.probes)
    decreases |ids|
  {
    hide Good, CleanOne, CleanedOne, ProbesOk, Clones, Probed, ToProbe, Expired, ListOf, Carry;
    if ids == [] || !Expired(s, e, ids[0]) {
      assert ids[..0] == [];
      ToProbeNone(s, starved);
    } else {
      hide CleanLoop, ExpiredCount;
      var i, rest := ids[0], ids[1..];
      var memory := i !in starved;
      CleanStep(s, p, e, ids, starved, memory, c);
      var (m, p1) := CleanOne(s, p, i, memory);
      CleanOneClones(s, p, i, memory);
      CleanLoopProbes(m, p1, e, rest, starved, c);
      var n := ExpiredCount(s, e, ids);
      assert ids[..n] == [i] + rest[..n - 1];
      ToProbeCons(s, i, rest[..n - 1], starved);
      ToProbeFrame(s, m, i, rest[..n - 1], starved);
    }
  }

  lemma ToProbeNone(s: State, starved: set<SesId>)
    ensures ToProbe(s, [], starved) == []
  {
  }

  lemma ToProbeCons(s: State, i: SesId, ids: seq<SesId>, starved: set<SesId>)
    requires i in s.ses.flows
    ensures ToProbe(s, [i] + ids, starved)
         == ToProbe(s, ids, starved) + (if Probed(s, i) && i !in starved then [s.ses.flows[i]] else [])
  {
    assert ([i] + ids)[1..] == ids;
  }

  // ------------------------------------------------------------------ cleaner_timer

  lemma StartGood(s: State, e: Expirer, c: Ctx)
    requires Good(s, c) && c.running == None
    ensures Good(s.(ses := s.ses.(timers := s.ses.timers - {e})), c.(running := Some(e)))
  {
    hide BibIndex, Links, BibRefs, SesIndex, Lists, Sorted, Past, SesRefs, QueueIndex, QueueTimes, Conserved, Exclusive;
    hide TcpLists;
  }

  lemma ListHasTimeout(s: State, e: Expirer, c: Ctx)
    requires Good(s, c) && c.changing == None
    ensures ListOf(s.ses.lists, e) != [] ==> HasTimeout(e)
  {
    hide Good, ListOf, OnRightList, HasTimeout;
    ListMembers(s, c, e);
    var l := ListOf(s.ses.lists, e);
    if l != [] {
      assert l[0] in l;
      ListFacts(s, l[0], c);
      KindFacts(TcpOf(s.ses.tcp, l[0]), e);
    }
  }

  lemma RescheduleGood(s: State, e: Expirer, c: Ctx)
    requires Good(s, c) && c.running == Some(e) && c.changing == None
    ensures Good(s.(ses := Reschedule(s.ses, e, s.timeouts, s.now)), c.(running := None))
  {
    hide BibIndex, Links, BibRefs, SesIndex, Lists, Sorted, Past, SesRefs, QueueIndex, QueueTimes, Conserved, Exclusive;
    hide TcpLists, HasTimeout;
    ListHasTimeout(s, e, c);
  }

  lemma CleanGood(s: State, e: Expirer, starved: set<SesId>, late: set<Expirer>)
    requires Good(s, Idle(late))
    ensures Good(Clean(s, e, starved), Idle(late))
  {
    hide Good, CleanLoop, PostFate, Reschedule;
    var c := Idle(late).(running := Some(e));
    var s0, none := s.(ses := s.ses.(timers := s.ses.timers - {e})), Pending([], []);
    StartGood(s, e, Idle(late));
    assert Carry(c, none) == c;
    CleanLoopDoes(s0, none, e, ListOf(s0.ses.lists, e), starved, c);
    var (s1, p) := CleanLoop(s0, none, e, ListOf(s0.ses.lists, e), starved);
    RescheduleGood(s1, e, Carry(c, p));
    PostFateGood(s1.(ses := Reschedule(s1.ses, e, s1.timeouts, s1.now)), p, Idle(late));
  }

  lemma CleanedSame(s: State, m: State, r: State, gone: seq<SesId>)
    requires Cleaned(s, m, gone) && SameTable(m, r)
    requires forall j :: j in m.ses.expirer ==> j in m.ses.flows
    ensures Cleaned(s, r, gone)
  {
    hide TcpOf, TimeOf, Probed;
  }

  /** Between steps, an allocated session is in the table or in the queue. */
  lemma AllocatedMeansStored(s: State, late: set<Expirer>)
    requires Good(s, Idle(late))
    ensures forall i :: i in s.ses.flows <==> i in s.ses.expirer || i in s.queue.nodes
    ensures forall i :: i in s.ses.expirer ==> i !in s.queue.nodes
  {
    hide BibIndex, Links, BibRefs, Lists, Sorted, Past, QueueTimes, Conserved, Exclusive;
    hide Armed, TcpLists, Prompt;
  }

  lemma {:induction false} ToProbeTimers(s: State, timers: map<Expirer, int>, ids: seq<SesId>, starved: set<SesId>)
    ensures ToProbe(s.(ses := s.ses.(timers := timers)), ids, starved) == ToProbe(s, ids, starved)
    decreases |ids|
  {
    if ids == [] {
    } else {
      ToProbeTimers(s, timers, ids[1..], starved);
    }
  }

  lemma CleanedTimers(s: State, m: State, before: map<Expirer, int>, after: map<Expirer, int>, gone: seq<SesId>)
    requires Cleaned(s.(ses := s.ses.(timers := before)), m, gone)
    ensures Cleaned(s, m.(ses := m.ses.(timers := after)), gone)
  {
    hide TcpOf, TimeOf;
    var s0, m1 := s.(ses := s.ses.(timers := before)), m.(ses := m.ses.(timers := after));
    forall i | i in gone ensures Gone(s, m1, i) {
      assert Gone(s0, m, i);
    }
    forall j | j !in gone ensures Untouched(s, m1, j) {
      assert Untouched(s0, m, j);
    }
  }

  /** `m` is the state when the loop is over and the timer has been set again. */
  lemma CleanStages(s: State, e: Expirer, starved: set<SesId>, late: set<Expirer>) returns (m: State)
    requires Good(s, Idle(late))
    ensures var r, l := Clean(s, e, starved), ListOf(s.ses.lists, e);
            var n := ExpiredCount(s, e, l);
            && Cleaned(s, m, l[..n]) && ListOf(m.ses.lists, e) == l[n..]
            && (forall j :: j in m.ses.expirer ==> j in m.ses.flows)
            && SameTable(m, r)
            && r.probes == s.probes + ToProbe(s, l[..n], starved)
  {
    hide Good, CleanLoop, PostFate, Cleaned, SameTable, ProbesOk, Clones, Probed, ToProbe, ExpiredCount;
    var c := Idle(late).(running := Some(e));
    var l := ListOf(s.ses.lists, e);
    var n := ExpiredCount(s, e, l);
    var s0, none := s.(ses := s.ses.(timers := s.ses.timers - {e})), Pending([], []);
    StartGood(s, e, Idle(late));
    assert Carry(c, none) == c;
    CleanLoopDoes(s0, none, e, l, starved, c);
    NoProbesYet(s0);
    CleanLoopProbes(s0, none, e, l, starved, c);
    ExpiredCountFrame(s, s0, e, l);
    ToProbeTimers(s, s0.ses.timers, l[..n], starved);
    var (s1, p) := CleanLoop(s0, none, e, l, starved);
    RescheduleGood(s1, e, Carry(c, p));
    RescheduleFields(s1.ses, e, s1.timeouts, s1.now);
    m := s1.(ses := Reschedule(s1.ses, e, s1.timeouts, s1.now));
    hide Reschedule;
    CleanedTimers(s, s1, s0.ses.timers, m.ses.timers, l[..n]);
    StoredFlows(m, Carry(Idle(late), p));
    ProbesOkFlows(s1, m, p);
    PostFateSame(m, p, Idle(late));
  }

  lemma RescheduleFields(d: SessionDb, e: Expirer, ts: Timeouts, now: nat)
    ensures var r := Reschedule(d, e, ts, now); r == d.(timers := r.timers)
  {
  }

  lemma ProbesOkFlows(s: State, m: State, p: Pending)
    requires ProbesOk(s, p) && m.ses.flows == s.ses.flows
    ensures Distinct(p.probes) && forall i :: i in p.probes ==> i in m.ses.flows
  {
  }

  ghost predicate CleanedExactly(s: State, r: State, e: Expirer, starved: set<SesId>) {
    var l := ListOf(s.ses.lists, e);
    var n := ExpiredCount(s, e, l);
    && (forall i :: i in l[..n] <==> i in l && Expired(s, e, i))
    && ListOf(r.ses.lists, e) == l[n..]
    && (forall i :: i in ListOf(r.ses.lists, e) ==> !Expired(r, e, i))
    && Cleaned(s, r, l[..n])
    && (forall i :: i in l[..n] && !Probed(s, i) ==> i !in r.ses.flows)
    && r.probes == s.probes + ToProbe(s, l[..n], starved)
  }

  /**
   A timer that fires takes exactly the expired sessions off its list: those that were established are moved to the
   transitory list and probed, the others cease to exist. No other session changes.
   */
  lemma CleanIsExact(s: State, e: Expirer, starved: set<SesId>, late: set<Expirer>)
    requires Good(s, Idle(late))
    ensures CleanedExactly(s, Clean(s, e, starved), e, starved)
  {
    hide Good, Clean, Probed, ToProbe, ExpiredCount, SameTable, Cleaned;
    var l := ListOf(s.ses.lists, e);
    var n := ExpiredCount(s, e, l);
    var r := Clean(s, e, starved);
    ListMembers(s, Idle(late), e);
    BreakIsSound(s, e, l);
    Prefix(l, n, s, e);
    var m := CleanStages(s, e, starved, late);
    CleanedSame(s, m, r, l[..n]);
    CleanGood(s, e, starved, late);
    AllocatedMeansStored(s, late);
    AllocatedMeansStored(r, late);
    CleanedDead(s, m, r, l, n);
    SameLists(m, r);
  }

  lemma SameLists(m: State, r: State)
    requires SameTable(m, r)
    ensures r.ses.lists == m.ses.lists
  {
  }

  lemma Prefix(l: seq<SesId>, n: nat, s: State, e: Expirer)
    requires n <= |l|
    requires forall j :: 0 <= j < n ==> Expired(s, e, l[j])
    requires forall j :: n <= j < |l| ==> !Expired(s, e, l[j])
    ensures forall i :: i in l[..n] <==> i in l && Expired(s, e, i)
    ensures forall i :: i in l[n..] <==> i in l && !Expired(s, e, i)
  {
    assert l == l[..n] + l[n..];
    assert forall i :: i in l <==> i in l[..n] || i in l[n..];
  }

  lemma CleanedDead(s: State, m: State, r: State, l: seq<SesId>, n: nat)
    requires n <= |l| && Distinct(l) && Cleaned(s, r, l[..n])
    requires forall i :: i in l ==> i in s.ses.expirer && i in s.ses.flows
    requires forall i :: i in s.ses.expirer ==> i !in s.queue.nodes
    requires forall i :: i in r.ses.flows <==> i in r.ses.expirer || i in r.queue.nodes
    ensures forall i :: i in l[..n] && !Probed(s, i) ==> i !in r.ses.flows
    ensures r.now == s.now && r.timeouts == s.timeouts
    ensures forall i :: i in l[n..] ==> TimeOf(r.ses.time, i) == TimeOf(s.ses.time, i)
  {
    hide Probed, TimeOf, TcpOf;
    forall i | i in l[..n] && !Probed(s, i) ensures i !in r.ses.flows {
      assert i in l;
    }
    forall i | i in l[n..] ensures i in l && i !in l[..n] {
    }
  }

  lemma NoProbesYet(s: State)
    ensures ProbesOk(s, Pending([], [])) && Clones(s.ses.flows, []) == []
  {
  }
}
