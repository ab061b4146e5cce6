/** The queue's timer and the administrator's requests. */
module Nat64Requests {

  import opened Types
  import opened Nat64
  import opened Nat64Inv
  import opened Nat64Tables
  import opened Nat64Steps
  import opened Nat64Packets
  import opened Nat64Timers

  // ------------------------------------------------------------------ expired SYNs

  lemma TimerSet(s: State, q: Queue, t: Option<int>, u: Option<int>, c: Ctx)
    requires Good(s.(queue := q.(timer := t)), c)
    requires q.nodes == [] || u == Some(TimeOf(s.ses.time, q.nodes[0]) + SYN_TIMEOUT)
    ensures Good(s.(queue := q.(timer := u)), c)
  {
    hide BibIndex, Links, BibRefs, SesIndex, Lists, Sorted, Past, SesRefs, QueueIndex, Exclusive;
    hide Armed, TcpLists, Prompt, Ordered, Stored, TimeOf;
  }

  predicate SynExpired(s: State, i: SesId) {
    TimeOf(s.ses.time, i) + SYN_TIMEOUT <= s.now
  }

  function SynExpiredCount(s: State, ids: seq<SesId>): (n: nat)
    ensures n <= |ids|
    ensures forall j :: 0 <= j < n ==> SynExpired(s, ids[j])
    ensures n < |ids| ==> !SynExpired(s, ids[n])
  {
    if ids == [] || !SynExpired(s, ids[0]) then 0 else SynExpiredCount(s, ids[1..]) + 1
  }

  lemma HoldMore(c: Ctx, i: SesId, ids: seq<SesId>)
    ensures HoldAll(c, [i] + ids) == HoldSes(HoldAll(c, ids), i)
  {
    assert multiset([i] + ids) == multiset{i} + multiset(ids);
  }

  /** One turn of the loop: the first node leaves the queue and will be answered. */
  lemma AnswerGood(s: State, q: Queue, t: Option<int>, icmps: seq<SesId>, c: Ctx)
    requires q.nodes != [] && Good(s.(queue := q.(timer := t)), HoldAll(c, icmps))
    ensures q.nodes[0] in s.ses.flows
    ensures var n := q.nodes[0];
            var q1 := QueueUnlink(q, n, KeyOf4(s.ses.flows[n])).(answered := q.answered + multiset{PacketOf(q, n)});
            && q1.nodes == q.nodes[1..] && q1.cancelled == q.cancelled && q1.entered == q.entered
            && Good(s.(queue := q1.(timer := t)), HoldAll(c, [n] + icmps))
  {
    hide Core, Armed, TcpLists, Prompt, Without;
    var s0, n := s.(queue := q.(timer := t)), q.nodes[0];
    CoreOf(s0, HoldAll(c, icmps));
    QueueFacts(s0, c.hb, HoldAll(c, icmps).hs);
    WithoutHead(q.nodes);
    var q1 := QueueUnlink(q, n, KeyOf4(s.ses.flows[n])).(answered := q.answered + multiset{PacketOf(q, n)});
    UnlinkKeeps(s0, n, q1.(timer := t), c.hb, HoldAll(c, icmps).hs);
    HoldMore(c, n, icmps);
  }

  /** The loop takes exactly the expired nodes out, in order. */
  lemma {:induction false} QueueCleanLoopGood(s: State, q: Queue, t: Option<int>, icmps: seq<SesId>, c: Ctx)
    requires Good(s.(queue := q.(timer := t)), HoldAll(c, icmps))
    ensures var (r, out) := QueueCleanLoop(q, s.ses, s.now, q.nodes, icmps);
            && Good(s.(queue := r), HoldAll(c, out))
            && r.nodes == q.nodes[SynExpiredCount(s, q.nodes)..]
            && r.cancelled == q.cancelled && r.entered == q.entered
    decreases |q.nodes|
  {
    hide Good, QueueUnlink, PacketOf, KeyOf4, HoldAll, TimeOf;
    if q.nodes == [] {
      TimerSet(s, q, t, q.timer, HoldAll(c, icmps));
      assert q.(timer := q.timer) == q;
    } else {
      var n := q.nodes[0];
      AnswerGood(s, q, t, icmps, c);
      if SynExpired(s, n) {
        var q1 := QueueUnlink(q, n, KeyOf4(s.ses.flows[n])).(answered := q.answered + multiset{PacketOf(q, n)});
        QueueCleanLoopGood(s, q1, t, [n] + icmps, c);
      } else {
        TimerSet(s, q, t, Some(TimeOf(s.ses.time, n) + SYN_TIMEOUT), HoldAll(c, icmps));
      }
    }
  }

  lemma QueueCleanGood(s: State, c: Ctx)
    requires Good(s, c)
    ensures Good(QueueClean(s), c)
    ensures QueueClean(s).queue.nodes == s.queue.nodes[SynExpiredCount(s, s.queue.nodes)..]
    ensures QueueClean(s).queue.cancelled == s.queue.cancelled && QueueClean(s).queue.entered == s.queue.entered
  {
    hide Good, QueueCleanLoop, ReturnAll;
    var q := s.queue.(timer := None);
    assert s.queue == q.(timer := s.queue.timer);
    assert HoldAll(c, []) == c;
    QueueCleanLoopGood(s, q, s.queue.timer, [], c);
    var (r, out) := QueueCleanLoop(q, s.ses, s.now, q.nodes, []);
    ReturnAllGood(s.(queue := r), out, c);
    hide SameTable;
    ReturnAllSame(s.(queue := r), out, c);
    SameQueue(s.(queue := r), ReturnAll(s.(queue := r), out));
  }

  lemma SameQueue(m: State, r: State)
    requires SameTable(m, r)
    ensures r.queue == m.queue
  {
  }

  lemma QueueOrder(s: State, c: Ctx)
    requires Good(s, c)
    ensures Ordered(s.queue.nodes, s.ses.time)
  {
    hide BibIndex, Links, BibRefs, SesIndex, Lists, Sorted, Past, SesRefs, QueueIndex, Conserved, Exclusive;
    hide Armed, TcpLists, Prompt;
  }

  /** So, the queue being sorted, no expired SYN stays and no other leaves. */
  lemma QueueCleanIsExact(s: State, c: Ctx)
    requires Good(s, c)
    ensures forall i :: i in QueueClean(s).queue.nodes <==> i in s.queue.nodes && !SynExpired(s, i)
  {
    hide Good, QueueClean;
    QueueCleanGood(s, c);
    QueueOrder(s, c);
    var l, n := s.queue.nodes, SynExpiredCount(s, s.queue.nodes);
    assert forall j :: n <= j < |l| ==> !SynExpired(s, l[j]);
    assert l == l[..n] + l[n..];
    assert forall i :: i in l <==> i in l[..n] || i in l[n..];
  }

  // ------------------------------------------------------------------ deleting sessions

  lemma RmOne(s: State, i: SesId, c: Ctx)
    requires Good(s, c) && c.changing == None && i in s.ses.expirer
    ensures Good(s.(ses := TableRm(s.ses, i)), HoldSes(c, i))
    ensures var d := TableRm(s.ses, i);
            && d.expirer == s.ses.expirer - {i} && d.flows == s.ses.flows && d.tcp == s.ses.tcp && d.time == s.ses.time
            && d.next == s.ses.next
  {
    hide Good, Without;
    TouchGood(s, i, c);
    TableRmGood(s, i, c.(changing := Some(i)));
    TableFacts(s, c, i);
  }

  lemma {:induction false} RmAllGood(s: State, ids: seq<SesId>, c: Ctx)
    requires Good(s, c) && c.changing == None && Distinct(ids) && forall i :: i in ids ==> i in s.ses.expirer
    ensures Good(s.(ses := RmAll(s.ses, ids)), HoldAll(c, ids))
    ensures var d := RmAll(s.ses, ids);
            && d.flows == s.ses.flows && d.tcp == s.ses.tcp && d.time == s.ses.time
            && (forall i :: i in d.expirer <==> i in s.ses.expirer && i !in ids)
            && (forall i :: i in d.expirer ==> d.expirer[i] == s.ses.expirer[i])
    decreases |ids|
  {
    hide Good, TableRm;
    if ids == [] {
      assert HoldAll(c, ids) == c && s.(ses := s.ses) == s;
    } else {
      var i, rest := ids[0], ids[1..];
      assert ids == [i] + rest;
      RmOne(s, i, c);
      RmAllGood(s.(ses := TableRm(s.ses, i)), rest, HoldSes(c, i));
      HoldMore(c, i, rest);
      assert HoldAll(HoldSes(c, i), rest) == HoldSes(HoldAll(c, rest), i);
    }
  }

  lemma {:induction false} ReversedSame(ids: seq<SesId>)
    ensures multiset(Reversed(ids)) == multiset(ids)
  {
    if ids == [] {
    } else {
      ReversedSame(ids[1..]);
      assert ids == [ids[0]] + ids[1..];
    }
  }

  /** What deleting a selection of sessions does: they leave the table, the others are not touched. */
  ghost predicate Deleted(s: State, r: State, ids: seq<SesId>) {
    && (forall i :: i in r.ses.expirer <==> i in s.ses.expirer && i !in ids)
    && (forall i :: i in r.ses.expirer ==> r.ses.expirer[i] == s.ses.expirer[i])
    && (forall i :: (i in r.ses.expirer || i in s.queue.nodes) && i in s.ses.flows ==>
          && i in r.ses.flows && r.ses.flows[i] == s.ses.flows[i]
          && TcpOf(r.ses.tcp, i) == TcpOf(s.ses.tcp, i) && TimeOf(r.ses.time, i) == TimeOf(s.ses.time, i))
    && r.queue == s.queue && r.now == s.now && r.timeouts == s.timeouts
  }

  lemma DeleteSessionsGood(s: State, ids: seq<SesId>, c: Ctx)
    requires Good(s, c) && c.changing == None && Distinct(ids) && forall i :: i in ids ==> i in s.ses.expirer
    ensures Good(DeleteSessions(s, ids), c) && Deleted(s, DeleteSessions(s, ids), ids)
  {
    hide Good, RmAll, ReturnAll, Distinct, SameTable;
    RmAllGood(s, ids, c);
    ReversedSame(ids);
    hide Reversed;
    var m := s.(ses := RmAll(s.ses, ids));
    assert HoldAll(c, Reversed(ids)) == HoldAll(c, ids);
    ReturnAllGood(m, Reversed(ids), c);
    ReturnAllSame(m, Reversed(ids), c);
    DeletedSame(s, m, ReturnAll(m, Reversed(ids)), ids);
  }

  lemma DeletedSame(s: State, m: State, r: State, ids: seq<SesId>)
    requires SameTable(m, r)
    requires m.ses.flows == s.ses.flows && m.ses.tcp == s.ses.tcp && m.ses.time == s.ses.time
    requires forall i :: i in m.ses.expirer <==> i in s.ses.expirer && i !in ids
    requires forall i :: i in m.ses.expirer ==> m.ses.expirer[i] == s.ses.expirer[i]
    requires m.queue == s.queue && m.now == s.now && m.timeouts == s.timeouts
    ensures Deleted(s, r, ids)
  {
    hide TcpOf, TimeOf;
  }

  // ------------------------------------------------------------------ static routes

  lemma AddStaticGood(s: State, m: Mapping, inPool4: bool, memory: bool, c: Ctx)
    requires Good(s, c)
    ensures Good(AddStatic(s, m, inPool4, memory).0, c)
    ensures AddStatic(s, m, inPool4, memory).1 <==>
              inPool4 && memory && EndOf4(m) !in s.bib.by4 && EndOf6(m) !in s.bib.by6
    ensures AddStatic(s, m, inPool4, memory).1 ==>
              var db := AddStatic(s, m, inPool4, memory).0.bib;
              && db.entries == s.bib.entries[s.bib.next := m] && db.statics == s.bib.statics + {s.bib.next}
              && db.by6 == s.bib.by6[EndOf6(m) := s.bib.next] && db.by4 == s.bib.by4[EndOf4(m) := s.bib.next]
    ensures !AddStatic(s, m, inPool4, memory).1 ==> AddStatic(s, m, inPool4, memory).0 == s
  {
    hide Good;
    BibFacts(s, c);
    var other4, other6 := BibFind4(s.bib, EndOf4(m)), BibFind6(s.bib, EndOf6(m));
    if other4.Some? {
      BibGetReturn(s.bib, other4.value);
    } else if other6.Some? {
      BibGetReturn(s.bib, other6.value);
    } else {
      BibAddGood(s, m, true, c);
    }
  }

  /** The fake user's reference becomes a held one. */
  lemma UnstaticRefs(db: BibDb, flows: map<SesId, Flow>, hb: multiset<BibId>, b: BibId)
    requires BibRefs(db.entries, db.refs, db.statics, flows, hb) && b in db.statics
    ensures BibRefs(db.entries, db.refs, db.statics - {b}, flows, hb + multiset{b})
  {
    hide Uses;
  }

  lemma UnstaticGood(s: State, b: BibId, c: Ctx)
    requires Good(s, c) && b in s.bib.statics
    ensures Good(s.(bib := s.bib.(statics := s.bib.statics - {b})), HoldBib(c, b))
  {
    hide BibIndex, Links, BibRefs, SesIndex, Lists, Sorted, Past, SesRefs, QueueIndex, QueueTimes, Conserved, Exclusive;
    hide Armed, TcpLists, Prompt;
    UnstaticRefs(s.bib, s.ses.flows, c.hb, b);
  }

  lemma SharedRefs(s: State, b: BibId, c: Ctx)
    requires Good(s, c) && b in s.bib.statics && b in c.hb
    ensures b in s.bib.refs && s.bib.refs[b] > 1
  {
    hide BibIndex, Uses, Links, SesIndex, Lists, Sorted, Past, SesRefs, QueueIndex, QueueTimes, Conserved, Exclusive;
    hide Armed, TcpLists, Prompt;
  }

  lemma DropFakeUserGood(s: State, b: BibId, c: Ctx)
    requires Good(s, c) && b in c.hb
    ensures Good(s.(bib := DropFakeUser(s.bib, b)), c)
  {
    hide Good;
    if b in s.bib.statics {
      SharedRefs(s, b, c);
      UnstaticGood(s, b, c);
      var s1 := s.(bib := s.bib.(statics := s.bib.statics - {b}));
      BibReturnGood(s1, b, HoldBib(c, b));
      HoldFree(c, b);
      assert DropFakeUser(s.bib, b) == BibReturn(s1.bib, b);
    }
  }

  lemma DeleteStaticGood(s: State, b: BibId, addr6: Option<Taddr6>, addr4: Option<Taddr4>, ids: seq<SesId>, c: Ctx)
    requires Good(s, c) && c.changing == None && b in s.bib.entries
    requires Distinct(ids) && forall i :: i in ids ==> i in s.ses.expirer
    ensures Good(DeleteStatic(s, b, addr6, addr4, ids), c)
  {
    hide Good, BibGet, BibReturn, DropFakeUser, DeleteSessions, Distinct;
    BibGetGood(s, b, c);
    HoldFree(c, b);
    var s1 := s.(bib := BibGet(s.bib, b));
    if addr6.Some? && addr4.Some? && s.bib.entries[b].ipv4 != addr4.value {
      BibReturnGood(s1, b, HoldBib(c, b));
    } else {
      DropFakeUserGood(s1, b, HoldBib(c, b));
      var s2 := s1.(bib := DropFakeUser(s1.bib, b));
      DeleteSessionsGood(s2, ids, HoldBib(c, b));
      BibReturnGood(DeleteSessions(s2, ids), b, HoldBib(c, b));
    }
  }
}
