/** The invariants through the session table and the queue of stored SYNs. */
module Nat64Tables {

  import opened Types
  import opened Nat64
  import opened Nat64Inv

  // ------------------------------------------------------------------ lists

  function Cut<T>(l: seq<T>, n: nat): seq<T>
    requires n < |l|
  {
    l[..n] + l[n + 1..]
  }

  lemma CutMembers(l: seq<SesId>, n: nat)
    requires Distinct(l) && n < |l|
    ensures Distinct(Cut(l, n)) && l[n] !in Cut(l, n)
    ensures forall x :: x in Cut(l, n) <==> x in l && x != l[n]
  {
    var w := Cut(l, n);
    assert forall j :: 0 <= j < |w| ==> w[j] == l[if j < n then j else j + 1];
    forall x | x in l && x != l[n] ensures x in w {
      var j :| 0 <= j < |l| && l[j] == x;
      assert w[if j < n then j else j - 1] == x;
    }
  }

  lemma WithoutFacts(l: seq<SesId>, i: SesId)
    requires Distinct(l) && i in l
    ensures Without(l, i) == Cut(l, IndexOf(l, i)) && |Without(l, i)| == |l| - 1
    ensures Distinct(Without(l, i)) && i !in Without(l, i)
    ensures forall x :: x in Without(l, i) <==> x in l && x != i
  {
    var n := IndexOf(l, i);
    hide IndexOf;
    CutMembers(l, n);
  }

  lemma WithoutOrdered(l: seq<SesId>, time: map<SesId, int>, i: SesId)
    requires Distinct(l) && i in l && Ordered(l, time)
    ensures Ordered(Without(l, i), time)
    ensures Without(l, i) != [] ==> TimeOf(time, l[0]) <= TimeOf(time, Without(l, i)[0])
  {
    var n := IndexOf(l, i);
    hide IndexOf, TimeOf;
    assert forall j :: 0 <= j < |Without(l, i)| ==> Without(l, i)[j] == l[if j < n then j else j + 1];
  }

  lemma ListsDetach(lists: map<Expirer, seq<SesId>>, expirer: map<SesId, Expirer>, i: SesId)
    requires Lists(lists, expirer) && i in expirer
    ensures Lists(lists[expirer[i] := Without(ListOf(lists, expirer[i]), i)], expirer - {i})
  {
    hide Without, Listed, Distinct;
    var e0 := expirer[i];
    var l := ListOf(lists, e0);
    WithoutFacts(l, i);
    ListedLess(Without(l, i), l, e0, expirer, i);
    var r, x2 := lists[e0 := Without(l, i)], expirer - {i};
    forall e ensures Listed(ListOf(r, e), e, x2) && Distinct(ListOf(r, e)) {
      assert Listed(ListOf(lists, e), e, expirer) && Distinct(ListOf(lists, e));
      if e != e0 {
        ListedOther(ListOf(lists, e), e, expirer, i);
      }
    }
    forall x | x in x2 ensures x in ListOf(r, x2[x]) {
      assert x in ListOf(lists, expirer[x]);
    }
  }

  lemma ListedOther(l: seq<SesId>, e: Expirer, expirer: map<SesId, Expirer>, i: SesId)
    requires Listed(l, e, expirer) && i in expirer && expirer[i] != e
    ensures Listed(l, e, expirer - {i})
  {
  }

  lemma ListedLess(w: seq<SesId>, l: seq<SesId>, e: Expirer, expirer: map<SesId, Expirer>, i: SesId)
    requires Listed(l, e, expirer) && forall x :: x in w ==> x in l && x != i
    ensures Listed(w, e, expirer - {i})
  {
    forall j | 0 <= j < |w| ensures w[j] in expirer - {i} && (expirer - {i})[w[j]] == e {
      assert w[j] in w;
    }
  }

  lemma ListsAttach(lists: map<Expirer, seq<SesId>>, expirer: map<SesId, Expirer>, i: SesId, e0: Expirer)
    requires Lists(lists, expirer) && i !in expirer
    ensures Lists(lists[e0 := ListOf(lists, e0) + [i]], expirer[i := e0])
  {
    var l := ListOf(lists, e0);
    var r, x2 := lists[e0 := l + [i]], expirer[i := e0];
    forall e ensures Listed(ListOf(r, e), e, x2) && Distinct(ListOf(r, e)) {
      assert Listed(ListOf(lists, e), e, expirer) && Distinct(ListOf(lists, e));
    }
    forall x | x in x2 ensures x in ListOf(r, x2[x]) {
      if x == i {
        assert (l + [i])[|l|] == i;
      } else {
        ListStill(lists, expirer, x, l, i);
      }
    }
  }

  lemma ListStill(lists: map<Expirer, seq<SesId>>, expirer: map<SesId, Expirer>, x: SesId, l: seq<SesId>, i: SesId)
    requires Lists(lists, expirer) && x in expirer
    ensures x in ListOf(lists, expirer[x]) && (x in l ==> x in l + [i])
  {
  }

  lemma SortedDetach(lists: map<Expirer, seq<SesId>>, expirer: map<SesId, Expirer>, time: map<SesId, int>, i: SesId)
    requires Lists(lists, expirer) && i in expirer && Sorted(lists, time)
    ensures Sorted(lists[expirer[i] := Without(ListOf(lists, expirer[i]), i)], time)
  {
    var e0 := expirer[i];
    var r := lists[e0 := Without(ListOf(lists, e0), i)];
    assert Distinct(ListOf(lists, e0)) && Ordered(ListOf(lists, e0), time);
    WithoutOrdered(ListOf(lists, e0), time, i);
    forall e ensures Ordered(ListOf(r, e), time) {
      assert Ordered(ListOf(lists, e), time);
    }
  }

  lemma SortedAttach(lists: map<Expirer, seq<SesId>>, time: map<SesId, int>, now: nat, i: SesId, e0: Expirer)
    requires Sorted(lists, time) && Past(time, now) && Unlisted(lists, i)
    ensures Sorted(lists[e0 := ListOf(lists, e0) + [i]], time[i := now])
  {
    SortedFrame(lists, time, i, now);
    var r := lists[e0 := ListOf(lists, e0) + [i]];
    forall e ensures Ordered(ListOf(r, e), time[i := now]) {
      assert Ordered(ListOf(lists, e), time[i := now]);
    }
  }

  // ------------------------------------------------------------------ taking a session out of the table

  lemma RmIndex(flows: map<SesId, Flow>, expirer: map<SesId, Expirer>, by6: map<Key6, SesId>, by4: map<Key4, SesId>,
                i: SesId)
    requires SesIndex(flows, expirer, by6, by4) && i in expirer
    ensures SesIndex(flows, expirer - {i}, by6 - {KeyOf6(flows[i])}, by4 - {KeyOf4(flows[i])})
  {
  }

  lemma RmRefs(d: SessionDb, nodes: seq<SesId>, hs: multiset<SesId>, i: SesId)
    requires SesRefs(d.flows, d.refs, d.tcp, d.time, d.expirer, nodes, d.next, hs) && i in d.expirer && i in d.flows
    ensures SesRefs(d.flows, d.refs, d.tcp, d.time, d.expirer - {i}, nodes, d.next, hs + multiset{i})
  {
  }

  lemma RmQueue(q: Queue, d: SessionDb, i: SesId)
    requires QueueIndex(q.nodes, q.tree, q.packets, q.count, d.flows, d.expirer)
    requires Exclusive(q.tree, d.by4)
    ensures QueueIndex(q.nodes, q.tree, q.packets, q.count, d.flows, d.expirer - {i})
    ensures i in d.flows ==> Exclusive(q.tree, d.by4 - {KeyOf4(d.flows[i])})
  {
  }

  /** The table's reference passes to the caller. */
  lemma TableRmKeeps(s: State, i: SesId, hb: multiset<BibId>, hs: multiset<SesId>)
    requires Core(s, hb, hs) && i in s.ses.expirer
    ensures Core(s.(ses := TableRm(s.ses, i)), hb, hs + multiset{i})
  {
    var d := s.ses;
    hide BibIndex, Links, BibRefs, SesIndex, Lists, Sorted, Past, SesRefs, QueueIndex, QueueTimes, Conserved, Exclusive;
    SessionFacts(s, hb, hs);
    RmIndex(d.flows, d.expirer, d.by6, d.by4, i);
    ListsDetach(d.lists, d.expirer, i);
    SortedDetach(d.lists, d.expirer, d.time, i);
    RmRefs(d, s.queue.nodes, hs, i);
    RmQueue(s.queue, d, i);
  }

  // ------------------------------------------------------------------ moving between lists

  lemma MoveIndex(flows: map<SesId, Flow>, expirer: map<SesId, Expirer>, by6: map<Key6, SesId>, by4: map<Key4, SesId>,
                  i: SesId, kind: Kind)
    requires SesIndex(flows, expirer, by6, by4) && i in expirer
    ensures i in flows && SesIndex(flows, (expirer - {i})[i := Expirer(flows[i].proto, kind)], by6, by4)
  {
  }

  lemma MoveRefs(d: SessionDb, nodes: seq<SesId>, hs: multiset<SesId>, i: SesId, e: Expirer, now: int)
    requires SesRefs(d.flows, d.refs, d.tcp, d.time, d.expirer, nodes, d.next, hs) && i in d.expirer && i in d.flows
    ensures SesRefs(d.flows, d.refs, d.tcp, d.time[i := now], (d.expirer - {i})[i := e], nodes, d.next, hs)
  {
  }

  lemma MoveQueue(q: Queue, d: SessionDb, i: SesId, e: Expirer)
    requires QueueIndex(q.nodes, q.tree, q.packets, q.count, d.flows, d.expirer) && i in d.expirer
    ensures QueueIndex(q.nodes, q.tree, q.packets, q.count, d.flows, (d.expirer - {i})[i := e])
  {
  }

  lemma PastNow(time: map<SesId, int>, now: nat, i: SesId)
    requires Past(time, now)
    ensures Past(time[i := now], now)
  {
  }

  /** What attach_timer changes, apart from timers. */
  lemma AttachFields(d: SessionDb, i: SesId, e: Expirer, ts: Timeouts, now: nat)
    ensures var r := Attach(d, i, e, ts, now);
            && r.flows == d.flows && r.refs == d.refs && r.tcp == d.tcp && r.by6 == d.by6 && r.by4 == d.by4
            && r.next == d.next
            && r.time == d.time[i := now] && r.expirer == d.expirer[i := e]
            && r.lists == d.lists[e := ListOf(d.lists, e) + [i]]
  {
  }

  lemma MoveKeeps(s: State, i: SesId, kind: Kind, hb: multiset<BibId>, hs: multiset<SesId>)
    requires Core(s, hb, hs) && i in s.ses.expirer
    ensures i in s.ses.flows && Core(Move(s, i, kind), hb, hs)
  {
    var d := s.ses;
    hide BibIndex, Links, BibRefs, SesIndex, Lists, Sorted, Past, SesRefs, QueueIndex, QueueTimes, Conserved, Exclusive;
    SessionFacts(s, hb, hs);
    var e := Expirer(d.flows[i].proto, kind);
    var d1 := Detach(d, i);
    MoveIndex(d.flows, d.expirer, d.by6, d.by4, i, kind);
    ListsDetach(d.lists, d.expirer, i);
    ListsAttach(d1.lists, d1.expirer, i, e);
    NotListed(d1.lists, d1.expirer, i);
    SortedDetach(d.lists, d.expirer, d.time, i);
    SortedAttach(d1.lists, d.time, s.now, i, e);
    MoveRefs(d, s.queue.nodes, hs, i, e, s.now);
    MoveQueue(s.queue, d, i, e);
    QueueTimesFrame(s.queue.nodes, d.time, s.queue.timer, i, s.now);
    PastNow(d.time, s.now, i);
  }

  // ------------------------------------------------------------------ taking a stored SYN out of the queue

  lemma CutMultiset(l: seq<PacketId>, n: nat)
    requires n < |l|
    ensures multiset(l) == multiset(Cut(l, n)) + multiset{l[n]}
  {
    assert l == l[..n] + [l[n]] + l[n + 1..];
  }

  lemma StoredWithout(nodes: seq<SesId>, packets: map<SesId, PacketId>, n: SesId)
    requires Distinct(nodes) && n in nodes && n in packets
    ensures multiset(Stored(nodes, packets))
         == multiset(Stored(Without(nodes, n), packets - {n})) + multiset{packets[n]}
  {
    var k := IndexOf(nodes, n);
    hide IndexOf;
    assert Stored(Without(nodes, n), packets - {n}) == Cut(Stored(nodes, packets), k);
    CutMultiset(Stored(nodes, packets), k);
  }

  lemma UnlinkQueue(nodes: seq<SesId>, tree: map<Key4, SesId>, packets: map<SesId, PacketId>, count: int,
                    flows: map<SesId, Flow>, expirer: map<SesId, Expirer>, n: SesId)
    requires QueueIndex(nodes, tree, packets, count, flows, expirer) && n in nodes
    ensures n in flows
    ensures QueueIndex(Without(nodes, n), tree - {KeyOf4(flows[n])}, packets - {n}, count - 1, flows, expirer)
  {
    hide Without, Distinct;
    WithoutFacts(nodes, n);
  }

  lemma UnlinkRefs(d: SessionDb, nodes: seq<SesId>, hs: multiset<SesId>, n: SesId)
    requires SesRefs(d.flows, d.refs, d.tcp, d.time, d.expirer, nodes, d.next, hs)
    requires Distinct(nodes) && n in nodes && n in d.flows
    ensures SesRefs(d.flows, d.refs, d.tcp, d.time, d.expirer, Without(nodes, n), d.next, hs + multiset{n})
  {
    WithoutFacts(nodes, n);
  }

  lemma UnlinkTimes(nodes: seq<SesId>, time: map<SesId, int>, timer: Option<int>, n: SesId)
    requires QueueTimes(nodes, time, timer) && Distinct(nodes) && n in nodes
    ensures QueueTimes(Without(nodes, n), time, timer)
  {
    WithoutOrdered(nodes, time, n);
  }

  lemma QueueFacts(s: State, hb: multiset<BibId>, hs: multiset<SesId>)
    requires Core(s, hb, hs)
    ensures Distinct(s.queue.nodes) && s.queue.count == |s.queue.nodes|
    ensures forall n :: n in s.queue.nodes ==>
              && n in s.ses.flows && n !in s.ses.expirer && n in s.queue.packets
              && KeyOf4(s.ses.flows[n]) in s.queue.tree && s.queue.tree[KeyOf4(s.ses.flows[n])] == n
    ensures forall k :: k in s.queue.tree ==>
              && s.queue.tree[k] in s.queue.nodes && s.queue.tree[k] in s.ses.flows
              && KeyOf4(s.ses.flows[s.queue.tree[k]]) == k && k.proto.TCP?
  {
    hide BibIndex, Links, BibRefs, SesIndex, Lists, Sorted, Past, SesRefs, QueueTimes, Conserved, Exclusive;
  }

  lemma UnlinkConserved(q: Queue, n: SesId, k: Key4, r: Queue)
    requires Conserved(q) && Distinct(q.nodes) && n in q.nodes && n in q.packets
    requires var u := QueueUnlink(q, n, k);
             var gone := multiset{q.packets[n]};
             r == u.(cancelled := u.cancelled + gone) || r == u.(answered := u.answered + gone)
    ensures Conserved(r)
  {
    StoredWithout(q.nodes, q.packets, n);
    hide Stored, Without;
  }

  /** Either way of leaving: cancelled or answered. The queue's reference passes to the caller. */
  lemma UnlinkKeeps(s: State, n: SesId, q: Queue, hb: multiset<BibId>, hs: multiset<SesId>)
    requires Core(s, hb, hs) && n in s.queue.nodes && n in s.ses.flows && n in s.queue.packets
    requires var u := QueueUnlink(s.queue, n, KeyOf4(s.ses.flows[n]));
             var gone := multiset{s.queue.packets[n]};
             q == u.(cancelled := u.cancelled + gone) || q == u.(answered := u.answered + gone)
    ensures Core(s.(queue := q), hb, hs + multiset{n})
  {
    var d := s.ses;
    hide BibIndex, Links, BibRefs, SesIndex, Lists, Sorted, Past, SesRefs, QueueIndex, QueueTimes, Conserved, Exclusive;
    QueueFacts(s, hb, hs);
    UnlinkConserved(s.queue, n, KeyOf4(d.flows[n]), q);
    UnlinkQueue(s.queue.nodes, s.queue.tree, s.queue.packets, s.queue.count, d.flows, d.expirer, n);
    UnlinkRefs(d, s.queue.nodes, hs, n);
    UnlinkTimes(s.queue.nodes, d.time, s.queue.timer, n);
    ExclusiveLess(s.queue.tree, d.by4, KeyOf4(d.flows[n]));
  }

  lemma ExclusiveLess(tree: map<Key4, SesId>, by4: map<Key4, SesId>, k: Key4)
    requires Exclusive(tree, by4)
    ensures Exclusive(tree - {k}, by4)
  {
  }

  /** What giving back a session reference leaves alone. */
  lemma SessionReturnFrame(s: State, i: SesId)
    ensures var r := SessionReturn(s, i);
            && r.queue == s.queue && r.now == s.now && r.timeouts == s.timeouts && r.maxPackets == s.maxPackets
            && r.ses.expirer == s.ses.expirer && r.ses.by6 == s.ses.by6 && r.ses.by4 == s.ses.by4
            && r.ses.lists == s.ses.lists && r.ses.timers == s.ses.timers && r.ses.next == s.ses.next
            && r.probes == s.probes
    ensures var r := SessionReturn(s, i);
            forall j :: j in s.ses.flows && j != i ==> j in r.ses.flows && r.ses.flows[j] == s.ses.flows[j]
    ensures var r := SessionReturn(s, i);
            forall j :: j != i ==> TcpOf(r.ses.tcp, j) == TcpOf(s.ses.tcp, j) && TimeOf(r.ses.time, j) == TimeOf(s.ses.time, j)
  {
  }

  lemma QueueRemoveKeeps(s: State, k: Key4, hb: multiset<BibId>, hs: multiset<SesId>)
    requires Core(s, hb, hs)
    ensures Core(QueueRemove(s, k), hb, hs)
    ensures k !in QueueRemove(s, k).queue.tree
    ensures forall n :: n in QueueRemove(s, k).queue.nodes ==> n in s.queue.nodes
  {
    hide Core;
    QueueFacts(s, hb, hs);
    if k in s.queue.tree {
      var n := s.queue.tree[k];
      var s1 := s.(queue := QueueUnlink(s.queue, n, k).(
                     cancelled := s.queue.cancelled + multiset{PacketOf(s.queue, n)}));
      UnlinkKeeps(s, n, s1.queue, hb, hs);
      SessionReturnKeeps(s1, n, hb, hs + multiset{n});
      SessionReturnFrame(s1, n);
      WithoutFacts(s.queue.nodes, n);
      assert hs + multiset{n} - multiset{n} == hs;
    }
  }

  // ------------------------------------------------------------------ storing a SYN

  lemma LinkQueue(nodes: seq<SesId>, tree: map<Key4, SesId>, packets: map<SesId, PacketId>, count: int,
                  flows: map<SesId, Flow>, expirer: map<SesId, Expirer>, i: SesId, packet: PacketId)
    requires QueueIndex(nodes, tree, packets, count, flows, expirer)
    requires i in flows && i !in expirer && i !in nodes && flows[i].proto.TCP? && KeyOf4(flows[i]) !in tree
    ensures QueueIndex(nodes + [i], tree[KeyOf4(flows[i]) := i], packets[i := packet], count + 1, flows, expirer)
  {
  }

  lemma LinkRefs(d: SessionDb, nodes: seq<SesId>, hs: multiset<SesId>, i: SesId)
    requires SesRefs(d.flows, d.refs, d.tcp, d.time, d.expirer, nodes, d.next, hs) && i in d.flows && i !in nodes
    ensures SesRefs(d.flows, d.refs[i := d.refs[i] + 1], d.tcp, d.time, d.expirer, nodes + [i], d.next, hs)
  {
  }

  lemma LinkTimes(nodes: seq<SesId>, time: map<SesId, int>, timer: Option<int>, i: SesId, now: nat)
    requires QueueTimes(nodes, time, timer) && Past(time, now) && TimeOf(time, i) == now
    ensures QueueTimes(nodes + [i], time, Some(TimeOf(time, (nodes + [i])[0]) + SYN_TIMEOUT))
  {
  }

  lemma LinkConserved(q: Queue, i: SesId, packet: PacketId, r: Queue)
    requires Conserved(q) && i !in q.nodes
    requires r.nodes == q.nodes + [i] && r.packets == q.packets[i := packet]
    requires r.entered == q.entered + multiset{packet} && r.cancelled == q.cancelled && r.answered == q.answered
    ensures Conserved(r)
  {
    assert Stored(r.nodes, r.packets) == Stored(q.nodes, q.packets) + [packet];
  }

  lemma ExclusiveMore(tree: map<Key4, SesId>, by4: map<Key4, SesId>, k: Key4, i: SesId)
    requires Exclusive(tree, by4)
    ensures k !in by4 ==> Exclusive(tree[k := i], by4)
    ensures k !in tree ==> Exclusive(tree, by4[k := i])
  {
  }

  lemma QueueAddKeeps(s: State, i: SesId, packet: PacketId, memory: bool, hb: multiset<BibId>, hs: multiset<SesId>)
    requires Core(s, hb, hs) && i in hs && i in s.ses.flows && i !in s.ses.expirer && i !in s.queue.nodes
    requires s.ses.flows[i].proto.TCP? && KeyOf4(s.ses.flows[i]) !in s.ses.by4 && TimeOf(s.ses.time, i) == s.now
    ensures Core(QueueAdd(s, i, packet, memory).0, hb, hs)
  {
    hide BibIndex, Links, BibRefs, SesIndex, Lists, Sorted, Past, SesRefs, QueueIndex, QueueTimes, Conserved, Exclusive;
    if QueueAdd(s, i, packet, memory).1 {
      var d, q := s.ses, s.queue;
      SessionFacts(s, hb, hs);
      LinkQueue(q.nodes, q.tree, q.packets, q.count, d.flows, d.expirer, i, packet);
      LinkRefs(d, q.nodes, hs, i);
      LinkTimes(q.nodes, d.time, q.timer, i, s.now);
      LinkConserved(q, i, packet, QueueAdd(s, i, packet, memory).0.queue);
      ExclusiveMore(q.tree, d.by4, KeyOf4(d.flows[i]), i);
    }
  }

  // ------------------------------------------------------------------ adding a session to the table

  lemma InsertIndex(flows: map<SesId, Flow>, expirer: map<SesId, Expirer>, by6: map<Key6, SesId>, by4: map<Key4, SesId>,
                    i: SesId, kind: Kind)
    requires SesIndex(flows, expirer, by6, by4) && i in flows && i !in expirer && flows[i].bib.Some?
    requires KeyOf6(flows[i]) !in by6 && KeyOf4(flows[i]) !in by4
    ensures SesIndex(flows, expirer[i := Expirer(flows[i].proto, kind)],
                     by6[KeyOf6(flows[i]) := i], by4[KeyOf4(flows[i]) := i])
  {
  }

  lemma InsertRefs(d: SessionDb, nodes: seq<SesId>, hs: multiset<SesId>, i: SesId, e: Expirer, now: int)
    requires SesRefs(d.flows, d.refs, d.tcp, d.time, d.expirer, nodes, d.next, hs) && i in d.flows && i !in d.expirer
    ensures SesRefs(d.flows, d.refs[i := d.refs[i] + 1], d.tcp, d.time[i := now], d.expirer[i := e], nodes, d.next, hs)
  {
  }

  lemma InsertQueue(q: Queue, d: SessionDb, i: SesId, e: Expirer)
    requires QueueIndex(q.nodes, q.tree, q.packets, q.count, d.flows, d.expirer) && i !in q.nodes
    ensures QueueIndex(q.nodes, q.tree, q.packets, q.count, d.flows, d.expirer[i := e])
  {
  }

  /** Everything sessiontable_add does once both indexes have accepted. */
  function Insert(s: State, i: SesId, kind: Kind): State
    requires i in s.ses.flows
  {
    var f, d := s.ses.flows[i], s.ses;
    var d1 := d.(by6 := d.by6[KeyOf6(f) := i], by4 := d.by4[KeyOf4(f) := i]);
    SessionGet(s.(ses := Attach(d1, i, Expirer(f.proto, kind), s.timeouts, s.now)), i)
  }

  lemma InsertKeeps(s: State, i: SesId, kind: Kind, hb: multiset<BibId>, hs: multiset<SesId>)
    requires Core(s, hb, hs) && i in hs && i in s.ses.flows && i !in s.ses.expirer && i !in s.queue.nodes
    requires s.ses.flows[i].bib.Some?
    requires KeyOf6(s.ses.flows[i]) !in s.ses.by6 && KeyOf4(s.ses.flows[i]) !in s.ses.by4
    requires KeyOf4(s.ses.flows[i]) !in s.queue.tree
    ensures Core(Insert(s, i, kind), hb, hs)
  {
    var d := s.ses;
    var e := Expirer(d.flows[i].proto, kind);
    hide BibIndex, Links, BibRefs, SesIndex, Lists, Sorted, Past, SesRefs, QueueIndex, QueueTimes, Conserved, Exclusive;
    hide Attach;
    AttachFields(d.(by6 := d.by6[KeyOf6(d.flows[i]) := i], by4 := d.by4[KeyOf4(d.flows[i]) := i]), i, e, s.timeouts, s.now);
    SessionFacts(s, hb, hs);
    ExclusiveMore(s.queue.tree, d.by4, KeyOf4(d.flows[i]), i);
    InsertIndex(d.flows, d.expirer, d.by6, d.by4, i, kind);
    ListsAttach(d.lists, d.expirer, i, e);
    NotListed(d.lists, d.expirer, i);
    SortedAttach(d.lists, d.time, s.now, i, e);
    InsertRefs(d, s.queue.nodes, hs, i, e, s.now);
    InsertQueue(s.queue, d, i, e);
    QueueTimesFrame(s.queue.nodes, d.time, s.queue.timer, i, s.now);
    PastNow(d.time, s.now, i);
  }

  /** A refused session leaves both indexes as they were; an accepted one is in both. */
  lemma SessionAddCases(s: State, i: SesId, kind: Kind)
    requires i in s.ses.flows && i in QueueRemove(s, KeyOf4(s.ses.flows[i])).ses.flows
    requires var q := QueueRemove(s, KeyOf4(s.ses.flows[i]));
             q.ses.flows[i] == s.ses.flows[i] && q.timeouts == s.timeouts && q.now == s.now
    ensures var s1 := QueueRemove(s, KeyOf4(s.ses.flows[i]));
            var (r, ok) := SessionAdd(s, i, kind);
            && (ok <==> KeyOf6(s.ses.flows[i]) !in s1.ses.by6 && KeyOf4(s.ses.flows[i]) !in s1.ses.by4)
            && r == if ok then Insert(s1, i, kind) else s1
  {
    var s1, k6 := QueueRemove(s, KeyOf4(s.ses.flows[i])), KeyOf6(s.ses.flows[i]);
    if k6 !in s1.ses.by6 {
      assert s1.ses.by6[k6 := i] - {k6} == s1.ses.by6;
    }
  }

  lemma QueueRemoveFrame(s: State, k: Key4, hb: multiset<BibId>, hs: multiset<SesId>)
    requires Core(s, hb, hs)
    ensures var r := QueueRemove(s, k);
            && r.ses.expirer == s.ses.expirer && r.ses.by6 == s.ses.by6 && r.ses.by4 == s.ses.by4
            && r.ses.lists == s.ses.lists && r.ses.timers == s.ses.timers && r.ses.next == s.ses.next
            && r.now == s.now && r.timeouts == s.timeouts && r.maxPackets == s.maxPackets && r.probes == s.probes
    ensures var r := QueueRemove(s, k);
            forall j :: j in s.ses.flows && j !in s.queue.nodes ==>
              && j in r.ses.flows && r.ses.flows[j] == s.ses.flows[j]
              && TcpOf(r.ses.tcp, j) == TcpOf(s.ses.tcp, j) && TimeOf(r.ses.time, j) == TimeOf(s.ses.time, j)
  {
    hide Core;
    QueueFacts(s, hb, hs);
    if k in s.queue.tree {
      var n := s.queue.tree[k];
      SessionReturnFrame(s.(queue := QueueUnlink(s.queue, n, k).(
                              cancelled := s.queue.cancelled + multiset{PacketOf(s.queue, n)})), n);
    }
  }

  lemma SessionAddKeeps(s: State, i: SesId, kind: Kind, hb: multiset<BibId>, hs: multiset<SesId>)
    requires Core(s, hb, hs) && i in hs && i in s.ses.flows && i !in s.ses.expirer && i !in s.queue.nodes
    requires s.ses.flows[i].bib.Some?
    ensures Core(SessionAdd(s, i, kind).0, hb, hs)
  {
    hide Core;
    var k := KeyOf4(s.ses.flows[i]);
    QueueRemoveKeeps(s, k, hb, hs);
    QueueRemoveFrame(s, k, hb, hs);
    SessionAddCases(s, i, kind);
    if SessionAdd(s, i, kind).1 {
      InsertKeeps(QueueRemove(s, k), i, kind, hb, hs);
    }
  }
}
