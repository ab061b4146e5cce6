/**
 What every operation of the engine keeps. `hb` and `hs` are the references that running code holds at the
 moment, beyond those of the tables; between steps there are none.
 */
module Nat64Inv {

  import opened Types
  import opened Nat64

  // ------------------------------------------------------------------ the invariants

  /** Both BIB indexes hold exactly the entries, each under its own address. */
  ghost predicate BibIndex(entries: map<BibId, Mapping>, by6: map<End6, BibId>, by4: map<End4, BibId>, next: BibId) {
    && (forall b :: b in entries ==>
          && b < next
          && EndOf6(entries[b]) in by6 && by6[EndOf6(entries[b])] == b
          && EndOf4(entries[b]) in by4 && by4[EndOf4(entries[b])] == b)
    && (forall k :: k in by6 ==> by6[k] in entries && EndOf6(entries[by6[k]]) == k)
    && (forall k :: k in by4 ==> by4[k] in entries && EndOf4(entries[by4[k]]) == k)
  }

  /** The BIB entry of a session exists and maps the session's IPv6 node to the session's IPv4 mask. */
  ghost predicate Linked(entries: map<BibId, Mapping>, f: Flow) {
    f.bib.Some? ==>
      && f.bib.value in entries
      && entries[f.bib.value] == Mapping(f.proto, f.remote6, f.local4)
  }

  ghost predicate Links(entries: map<BibId, Mapping>, flows: map<SesId, Flow>) {
    forall i :: i in flows ==> Linked(entries, flows[i])
  }

  ghost function Users(flows: map<SesId, Flow>, b: BibId): set<SesId> {
    set i | i in flows && flows[i].bib == Some(b)
  }

  /** How many sessions refer to a BIB entry. */
  ghost function Uses(flows: map<SesId, Flow>, b: BibId): nat { |Users(flows, b)| }

  function Bit(b: bool): nat { if b then 1 else 0 }

  /** A BIB entry is allocated exactly while it is referenced, and its count is the number of its references. */
  ghost predicate BibRefs(entries: map<BibId, Mapping>, refs: map<BibId, int>, statics: set<BibId>,
                          flows: map<SesId, Flow>, held: multiset<BibId>)
  {
    && refs.Keys == entries.Keys
    && (forall b :: b in statics ==> b in entries)
    && (forall b :: b in held ==> b in entries)
    && (forall b :: b in refs ==> refs[b] == Uses(flows, b) + Bit(b in statics) + held[b] && refs[b] > 0)
  }

  /** Both session indexes hold exactly the sessions that are on a list, each under its own addresses. */
  ghost predicate SesIndex(flows: map<SesId, Flow>, expirer: map<SesId, Expirer>,
                           by6: map<Key6, SesId>, by4: map<Key4, SesId>)
  {
    && (forall i :: i in expirer ==>
          && i in flows && flows[i].bib.Some? && expirer[i].proto == flows[i].proto
          && KeyOf6(flows[i]) in by6 && by6[KeyOf6(flows[i])] == i
          && KeyOf4(flows[i]) in by4 && by4[KeyOf4(flows[i])] == i)
    && (forall k :: k in by6 ==> by6[k] in expirer && by6[k] in flows && KeyOf6(flows[by6[k]]) == k)
    && (forall k :: k in by4 ==> by4[k] in expirer && by4[k] in flows && KeyOf4(flows[by4[k]]) == k)
  }

  ghost predicate Listed(l: seq<SesId>, e: Expirer, expirer: map<SesId, Expirer>) {
    forall j :: 0 <= j < |l| ==> l[j] in expirer && expirer[l[j]] == e
  }

  ghost predicate Distinct(l: seq<SesId>) {
    forall j, k :: 0 <= j < k < |l| ==> l[j] != l[k]
  }

  /** A session is on the list it names, once, and on no other. */
  ghost predicate Lists(lists: map<Expirer, seq<SesId>>, expirer: map<SesId, Expirer>) {
    && (forall e :: Listed(ListOf(lists, e), e, expirer) && Distinct(ListOf(lists, e)))
    && (forall i :: i in expirer ==> i in ListOf(lists, expirer[i]))
  }

  ghost predicate Ordered(l: seq<SesId>, time: map<SesId, int>) {
    forall j, k :: 0 <= j < k < |l| ==> TimeOf(time, l[j]) <= TimeOf(time, l[k])
  }

  ghost predicate Sorted(lists: map<Expirer, seq<SesId>>, time: map<SesId, int>) {
    forall e :: Ordered(ListOf(lists, e), time)
  }

  ghost predicate Past(time: map<SesId, int>, now: nat) {
    forall i :: i in time ==> time[i] <= now
  }

  /** A session is allocated exactly while it is referenced: by the table, by the queue, or by running code. */
  ghost predicate SesRefs(flows: map<SesId, Flow>, refs: map<SesId, int>, tcp: map<SesId, Tcp>, time: map<SesId, int>,
                          expirer: map<SesId, Expirer>, nodes: seq<SesId>, next: SesId, held: multiset<SesId>)
  {
    && refs.Keys == flows.Keys && tcp.Keys == flows.Keys && time.Keys == flows.Keys
    && (forall i :: i in flows ==> i < next)
    && (forall i :: i in held ==> i in flows)
    && (forall i :: i in refs ==> refs[i] == Bit(i in expirer) + Bit(i in nodes) + held[i] && refs[i] > 0)
  }

  /** List, tree, packets and count of the queue agree, and queued is not stored. */
  ghost predicate QueueIndex(nodes: seq<SesId>, tree: map<Key4, SesId>, packets: map<SesId, PacketId>,
                             count: int, flows: map<SesId, Flow>, expirer: map<SesId, Expirer>)
  {
    && Distinct(nodes)
    && count == |nodes|
    && (forall n :: n in nodes ==>
          && n in flows && n !in expirer && n in packets && flows[n].proto.TCP?
          && KeyOf4(flows[n]) in tree && tree[KeyOf4(flows[n])] == n)
    && (forall k :: k in tree ==> tree[k] in nodes && tree[k] in flows && KeyOf4(flows[tree[k]]) == k)
    && (forall n :: n in packets ==> n in nodes)
  }

  ghost predicate QueueTimes(nodes: seq<SesId>, time: map<SesId, int>, timer: Option<int>) {
    && Ordered(nodes, time)
    && (nodes != [] ==> timer.Some? && timer.value <= TimeOf(time, nodes[0]) + SYN_TIMEOUT)
  }

  ghost function Stored(nodes: seq<SesId>, packets: map<SesId, PacketId>): seq<PacketId> {
    seq(|nodes|, j requires 0 <= j < |nodes| => if nodes[j] in packets then packets[nodes[j]] else 0)
  }

  /** Every packet that entered the queue is still there, or has left it exactly once. */
  ghost predicate Conserved(q: Queue) {
    q.entered == multiset(Stored(q.nodes, q.packets)) + q.cancelled + q.answered
  }

  /** No IPv4 four-tuple is both queued and in the table. */
  ghost predicate Exclusive(tree: map<Key4, SesId>, by4: map<Key4, SesId>) {
    forall k :: k in tree ==> k !in by4
  }

  ghost predicate Core(s: State, hb: multiset<BibId>, hs: multiset<SesId>) {
    && BibIndex(s.bib.entries, s.bib.by6, s.bib.by4, s.bib.next)
    && Links(s.bib.entries, s.ses.flows)
    && BibRefs(s.bib.entries, s.bib.refs, s.bib.statics, s.ses.flows, hb)
    && SesIndex(s.ses.flows, s.ses.expirer, s.ses.by6, s.ses.by4)
    && Lists(s.ses.lists, s.ses.expirer)
    && Sorted(s.ses.lists, s.ses.time)
    && Past(s.ses.time, s.now)
    && SesRefs(s.ses.flows, s.ses.refs, s.ses.tcp, s.ses.time, s.ses.expirer, s.queue.nodes, s.ses.next, hs)
    && QueueIndex(s.queue.nodes, s.queue.tree, s.queue.packets, s.queue.count, s.ses.flows, s.ses.expirer)
    && QueueTimes(s.queue.nodes, s.ses.time, s.queue.timer)
    && Conserved(s.queue)
    && Exclusive(s.queue.tree, s.ses.by4)
  }

  /** UDP and ICMP have no timeout function for a transitory list. */
  predicate HasTimeout(e: Expirer) { e.proto.TCP? || e.kind.Est? }

  /**
   Every non-empty list has a pending timer, except the one whose handler is running, and no timer is pending whose
   handler would look for a timeout that does not exist.
   */
  ghost predicate Armed(lists: map<Expirer, seq<SesId>>, timers: map<Expirer, int>, running: Option<Expirer>) {
    && (forall e :: ListOf(lists, e) != [] && running != Some(e) ==> e in timers)
    && (forall e :: e in timers ==> HasTimeout(e))
  }

  /** When the first session of a list expires, or would if one were added now; timers may be coarser. */
  function Deadline(l: seq<SesId>, time: map<SesId, int>, timeout: nat, now: nat): int {
    Max((if l == [] then now else TimeOf(time, l[0])) + timeout, now + MIN_TIMER_SLEEP)
  }

  /** No timer is pending for longer than that, but perhaps those of the lists in `late`. */
  ghost predicate Prompt(lists: map<Expirer, seq<SesId>>, time: map<SesId, int>, timers: map<Expirer, int>,
                         ts: Timeouts, now: nat, late: set<Expirer>)
  {
    forall e :: e in timers && e !in late ==> timers[e] <= Deadline(ListOf(lists, e), time, TimeoutOf(ts, e), now)
  }

  /** Section 3.5.2.2 of RFC 6146: which list each state belongs on, and what must have been seen to get there. */
  predicate Agrees(t: Tcp, kind: Kind) {
    match t.state
    case CLOSED => false
    case V6_INIT => kind.Trans? && t.syn6
    case V4_INIT => kind.Trans? && t.syn4
    case ESTABLISHED => kind.Est? && t.syn4 && t.syn6
    case V4_FIN_RCV => kind.Est? && t.syn4 && t.syn6 && t.fin4
    case V6_FIN_RCV => kind.Est? && t.syn4 && t.syn6 && t.fin6
    case V4_FIN_V6_FIN_RCV => kind.Trans? && t.syn4 && t.syn6 && t.fin4 && t.fin6
    case TRANS => kind.Trans? && t.syn4 && t.syn6
  }

  /** `changing` is a session whose state has been written and which has not been moved yet. */
  ghost predicate TcpLists(tcp: map<SesId, Tcp>, expirer: map<SesId, Expirer>, changing: Option<SesId>) {
    forall i :: i in expirer && changing != Some(i) ==> OnRightList(TcpOf(tcp, i), expirer[i])
  }

  /** The transitory lists of UDP and ICMP stay empty. */
  predicate OnRightList(t: Tcp, e: Expirer) {
    if e.proto.TCP? then Agrees(t, e.kind) else e.kind.Est?
  }

  // ------------------------------------------------------------------ users of a BIB entry

  lemma UsesAdd(flows: map<SesId, Flow>, i: SesId, f: Flow, b: BibId)
    requires i !in flows
    ensures Uses(flows[i := f], b) == Uses(flows, b) + Bit(f.bib == Some(b))
  {
    if f.bib == Some(b) {
      assert Users(flows[i := f], b) == Users(flows, b) + {i};
    } else {
      assert Users(flows[i := f], b) == Users(flows, b);
    }
  }

  lemma UsesRm(flows: map<SesId, Flow>, i: SesId, b: BibId)
    requires i in flows
    ensures Uses(flows - {i}, b) == Uses(flows, b) - Bit(flows[i].bib == Some(b))
  {
    if flows[i].bib == Some(b) {
      assert Users(flows, b) == Users(flows - {i}, b) + {i};
    } else {
      assert Users(flows - {i}, b) == Users(flows, b);
    }
  }

  lemma UsesNone(flows: map<SesId, Flow>, b: BibId)
    ensures Uses(flows, b) == 0 <==> forall i :: i in flows ==> flows[i].bib != Some(b)
  {
    if Uses(flows, b) == 0 {
      assert forall i :: i in flows && flows[i].bib == Some(b) ==> i in Users(flows, b);
    } else {
      var i :| i in Users(flows, b);
    }
  }

  // ------------------------------------------------------------------ BIB operations

  lemma BibGetRefs(entries: map<BibId, Mapping>, refs: map<BibId, int>, statics: set<BibId>,
                   flows: map<SesId, Flow>, hb: multiset<BibId>, b: BibId)
    requires BibRefs(entries, refs, statics, flows, hb) && b in entries
    ensures BibRefs(entries, refs[b := refs[b] + 1], statics, flows, hb + multiset{b})
  {
    hide Uses;
  }

  lemma BibGetKeeps(s: State, b: BibId, hb: multiset<BibId>, hs: multiset<SesId>)
    requires Core(s, hb, hs) && b in s.bib.entries
    ensures Core(s.(bib := BibGet(s.bib, b)), hb + multiset{b}, hs)
  {
    hide BibIndex, Links, BibRefs, SesIndex, Lists, Sorted, Past, SesRefs, QueueIndex, QueueTimes, Conserved, Exclusive;
    RefsDomain(s, hb, hs);
    BibGetRefs(s.bib.entries, s.bib.refs, s.bib.statics, s.ses.flows, hb, b);
  }

  lemma RefsDomain(s: State, hb: multiset<BibId>, hs: multiset<SesId>)
    requires Core(s, hb, hs)
    ensures s.bib.refs.Keys == s.bib.entries.Keys && s.bib.next !in s.bib.entries
    ensures forall b :: b in hb ==> b in s.bib.entries && s.bib.refs[b] > 0
  {
    hide Uses, Links, SesIndex, Lists, Sorted, Past, SesRefs, QueueIndex, QueueTimes, Conserved, Exclusive;
  }

  lemma BibFreeIndex(entries: map<BibId, Mapping>, by6: map<End6, BibId>, by4: map<End4, BibId>, next: BibId, b: BibId)
    requires BibIndex(entries, by6, by4, next) && b in entries
    ensures BibIndex(entries - {b}, by6 - {EndOf6(entries[b])}, by4 - {EndOf4(entries[b])}, next)
  {
  }

  lemma BibPutRefs(entries: map<BibId, Mapping>, refs: map<BibId, int>, statics: set<BibId>,
                   flows: map<SesId, Flow>, hb: multiset<BibId>, b: BibId)
    requires BibRefs(entries, refs, statics, flows, hb) && b in hb
    ensures refs[b] > 1 ==> BibRefs(entries, refs[b := refs[b] - 1], statics, flows, hb - multiset{b})
    ensures refs[b] == 1 ==> BibRefs(entries - {b}, refs - {b}, statics - {b}, flows, hb - multiset{b})
    ensures refs[b] == 1 ==> Uses(flows, b) == 0
  {
    hide Uses;
  }

  lemma BibFreeLinks(entries: map<BibId, Mapping>, flows: map<SesId, Flow>, b: BibId)
    requires Links(entries, flows) && Uses(flows, b) == 0
    ensures Links(entries - {b}, flows)
  {
    UsesNone(flows, b);
  }

  lemma BibReturnKeeps(s: State, b: BibId, hb: multiset<BibId>, hs: multiset<SesId>)
    requires Core(s, hb, hs) && b in hb
    ensures Core(s.(bib := BibReturn(s.bib, b)), hb - multiset{b}, hs)
  {
    hide BibIndex, Links, BibRefs, SesIndex, Lists, Sorted, Past, SesRefs, QueueIndex, QueueTimes, Conserved, Exclusive;
    RefsDomain(s, hb, hs);
    BibPutRefs(s.bib.entries, s.bib.refs, s.bib.statics, s.ses.flows, hb, b);
    if s.bib.refs[b] == 1 {
      BibFreeIndex(s.bib.entries, s.bib.by6, s.bib.by4, s.bib.next, b);
      BibFreeLinks(s.bib.entries, s.ses.flows, b);
    }
  }

  /** A refused entry leaves no trace, even when the IPv6 index had taken it already. */
  lemma BibAddRefused(db: BibDb, m: Mapping, isStatic: bool)
    requires !BibAdd(db, m, isStatic).1
    ensures BibAdd(db, m, isStatic).0 == db
  {
    if EndOf6(m) !in db.by6 {
      assert db.by6[EndOf6(m) := db.next] - {EndOf6(m)} == db.by6;
    }
  }

  lemma BibAddIndex(entries: map<BibId, Mapping>, by6: map<End6, BibId>, by4: map<End4, BibId>, next: BibId, m: Mapping)
    requires BibIndex(entries, by6, by4, next) && EndOf6(m) !in by6 && EndOf4(m) !in by4
    ensures BibIndex(entries[next := m], by6[EndOf6(m) := next], by4[EndOf4(m) := next], next + 1)
  {
  }

  lemma BibAddRefs(entries: map<BibId, Mapping>, refs: map<BibId, int>, statics: set<BibId>,
                   flows: map<SesId, Flow>, hb: multiset<BibId>, b: BibId, m: Mapping)
    requires BibRefs(entries, refs, statics, flows, hb) && b !in entries && Uses(flows, b) == 0
    ensures BibRefs(entries[b := m], refs[b := 1], statics, flows, hb + multiset{b})
    ensures BibRefs(entries[b := m], refs[b := 1], statics + {b}, flows, hb)
  {
    hide Uses;
  }

  lemma BibAddLinks(entries: map<BibId, Mapping>, flows: map<SesId, Flow>, b: BibId, m: Mapping)
    requires Links(entries, flows) && b !in entries
    ensures Links(entries[b := m], flows) && Uses(flows, b) == 0
  {
    UsesNone(flows, b);
  }

  lemma BibAddKeeps(s: State, m: Mapping, isStatic: bool, hb: multiset<BibId>, hs: multiset<SesId>)
    requires Core(s, hb, hs)
    ensures var (db, ok) := BibAdd(s.bib, m, isStatic);
            && (!ok ==> db == s.bib)
            && (ok ==> s.bib.next in db.entries && db.entries[s.bib.next] == m)
            && Core(s.(bib := db), if ok && !isStatic then hb + multiset{s.bib.next} else hb, hs)
  {
    hide BibIndex, Links, BibRefs, SesIndex, Lists, Sorted, Past, SesRefs, QueueIndex, QueueTimes, Conserved, Exclusive;
    RefsDomain(s, hb, hs);
    if BibAdd(s.bib, m, isStatic).1 {
      BibAddIndex(s.bib.entries, s.bib.by6, s.bib.by4, s.bib.next, m);
      BibAddLinks(s.bib.entries, s.ses.flows, s.bib.next, m);
      BibAddRefs(s.bib.entries, s.bib.refs, s.bib.statics, s.ses.flows, hb, s.bib.next, m);
    } else {
      BibAddRefused(s.bib, m, isStatic);
    }
  }

  // ------------------------------------------------------------------ allocating and freeing sessions

  lemma SessionFacts(s: State, hb: multiset<BibId>, hs: multiset<SesId>)
    requires Core(s, hb, hs)
    ensures s.ses.refs.Keys == s.ses.flows.Keys && s.ses.tcp.Keys == s.ses.flows.Keys
    ensures s.ses.time.Keys == s.ses.flows.Keys
    ensures s.ses.next !in s.ses.flows
    ensures forall i :: i in hs ==> i in s.ses.flows
    ensures forall i :: i in s.ses.expirer ==> i in s.ses.flows
    ensures forall i :: i in s.queue.nodes ==> i in s.ses.flows && i !in s.ses.expirer
  {
    hide BibIndex, Links, BibRefs, Lists, Sorted, Past, QueueTimes, Conserved, Exclusive;
  }

  lemma LinkFacts(s: State, hb: multiset<BibId>, hs: multiset<SesId>, i: SesId)
    requires Core(s, hb, hs) && i in s.ses.flows
    ensures Linked(s.bib.entries, s.ses.flows[i])
  {
    hide BibIndex, BibRefs, SesIndex, Lists, Sorted, Past, SesRefs, QueueIndex, QueueTimes, Conserved, Exclusive;
  }

  ghost predicate Unlisted(lists: map<Expirer, seq<SesId>>, i: SesId) {
    forall e :: i !in ListOf(lists, e)
  }

  lemma NotListed(lists: map<Expirer, seq<SesId>>, expirer: map<SesId, Expirer>, i: SesId)
    requires Lists(lists, expirer) && i !in expirer
    ensures Unlisted(lists, i)
  {
    forall e ensures i !in ListOf(lists, e) {
      assert Listed(ListOf(lists, e), e, expirer);
    }
  }

  lemma OrderedFrame(l: seq<SesId>, time: map<SesId, int>, i: SesId, t: int)
    requires Ordered(l, time) && i !in l
    ensures Ordered(l, time[i := t]) && Ordered(l, time - {i})
  {
    assert forall j :: 0 <= j < |l| ==> l[j] != i;
  }

  lemma SortedFrame(lists: map<Expirer, seq<SesId>>, time: map<SesId, int>, i: SesId, t: int)
    requires Sorted(lists, time) && Unlisted(lists, i)
    ensures Sorted(lists, time[i := t]) && Sorted(lists, time - {i})
  {
    forall e ensures Ordered(ListOf(lists, e), time[i := t]) && Ordered(ListOf(lists, e), time - {i}) {
      OrderedFrame(ListOf(lists, e), time, i, t);
    }
  }

  lemma QueueTimesFrame(nodes: seq<SesId>, time: map<SesId, int>, timer: Option<int>, i: SesId, t: int)
    requires QueueTimes(nodes, time, timer) && i !in nodes
    ensures QueueTimes(nodes, time[i := t], timer) && QueueTimes(nodes, time - {i}, timer)
  {
    OrderedFrame(nodes, time, i, t);
    assert nodes != [] ==> nodes[0] != i;
  }

  lemma FlowAddIndex(flows: map<SesId, Flow>, expirer: map<SesId, Expirer>, by6: map<Key6, SesId>,
                     by4: map<Key4, SesId>, i: SesId, f: Flow)
    requires SesIndex(flows, expirer, by6, by4) && i !in flows
    ensures SesIndex(flows[i := f], expirer, by6, by4)
  {
  }

  lemma FlowAddQueue(q: Queue, flows: map<SesId, Flow>, expirer: map<SesId, Expirer>, i: SesId, f: Flow)
    requires QueueIndex(q.nodes, q.tree, q.packets, q.count, flows, expirer) && i !in flows
    ensures QueueIndex(q.nodes, q.tree, q.packets, q.count, flows[i := f], expirer)
  {
  }

  lemma FlowAddRefs(d: SessionDb, nodes: seq<SesId>, hs: multiset<SesId>, f: Flow, t: Tcp, time: int)
    requires SesRefs(d.flows, d.refs, d.tcp, d.time, d.expirer, nodes, d.next, hs)
    requires d.next !in d.expirer && d.next !in nodes
    ensures var i := d.next;
            SesRefs(d.flows[i := f], d.refs[i := 1], d.tcp[i := t], d.time[i := time], d.expirer, nodes, i + 1,
                    hs + multiset{i})
  {
  }

  /** A held reference becomes the new session's. */
  lemma FlowAddBib(entries: map<BibId, Mapping>, refs: map<BibId, int>, statics: set<BibId>, flows: map<SesId, Flow>,
                   hb: multiset<BibId>, i: SesId, f: Flow)
    requires i !in flows
    requires f.bib.Some? ==> f.bib.value in hb
    requires BibRefs(entries, refs, statics, flows, hb)
    ensures BibRefs(entries, refs, statics, flows[i := f], if f.bib.Some? then hb - multiset{f.bib.value} else hb)
  {
    forall b: BibId ensures Uses(flows[i := f], b) == Uses(flows, b) + Bit(f.bib == Some(b)) {
      UsesAdd(flows, i, f, b);
    }
    hide Uses;
  }

  lemma FlowAddCore(s: State, f: Flow, t: Tcp, time: int, hb: multiset<BibId>, hs: multiset<SesId>)
    requires Core(s, hb, hs) && Linked(s.bib.entries, f) && time <= s.now
    requires f.bib.Some? ==> f.bib.value in hb
    ensures var i := s.ses.next;
            Core(s.(ses := s.ses.(flows := s.ses.flows[i := f], refs := s.ses.refs[i := 1], tcp := s.ses.tcp[i := t],
                                  time := s.ses.time[i := time], next := i + 1)),
                 if f.bib.Some? then hb - multiset{f.bib.value} else hb, hs + multiset{i})
  {
    var d, i := s.ses, s.ses.next;
    hide BibIndex, Links, BibRefs, SesIndex, Lists, Sorted, Past, SesRefs, QueueIndex, QueueTimes, Conserved, Exclusive;
    SessionFacts(s, hb, hs);
    FlowAddIndex(d.flows, d.expirer, d.by6, d.by4, i, f);
    FlowAddQueue(s.queue, d.flows, d.expirer, i, f);
    FlowAddRefs(d, s.queue.nodes, hs, f, t, time);
    FlowAddBib(s.bib.entries, s.bib.refs, s.bib.statics, d.flows, hb, i, f);
    NotListed(d.lists, d.expirer, i);
    SortedFrame(d.lists, d.time, i, time);
    QueueTimesFrame(s.queue.nodes, d.time, s.queue.timer, i, time);
    assert Past(d.time[i := time], s.now) && Links(s.bib.entries, d.flows[i := f]) by {
      FlowAddRest(s, i, f, time);
    }
  }

  lemma FlowAddRest(s: State, i: SesId, f: Flow, time: int)
    requires Past(s.ses.time, s.now) && time <= s.now
    requires Links(s.bib.entries, s.ses.flows) && Linked(s.bib.entries, f)
    ensures Past(s.ses.time[i := time], s.now) && Links(s.bib.entries, s.ses.flows[i := f])
  {
  }

  lemma SessionAllocKeeps(s: State, f: Flow, t: Tcp, time: int, hb: multiset<BibId>, hs: multiset<SesId>)
    requires Core(s, hb, hs) && Linked(s.bib.entries, f) && time <= s.now
    ensures Core(SessionAlloc(s, f, t, time), hb, hs + multiset{s.ses.next})
  {
    hide Core;
    if f.bib.Some? {
      var b := f.bib.value;
      BibGetKeeps(s, b, hb, hs);
      FlowAddCore(s.(bib := BibGet(s.bib, b)), f, t, time, hb + multiset{b}, hs);
      assert hb + multiset{b} - multiset{b} == hb;
    } else {
      FlowAddCore(s, f, t, time, hb, hs);
    }
  }

  lemma SessionGetRefs(d: SessionDb, nodes: seq<SesId>, hs: multiset<SesId>, i: SesId)
    requires SesRefs(d.flows, d.refs, d.tcp, d.time, d.expirer, nodes, d.next, hs) && i in d.flows
    ensures SesRefs(d.flows, d.refs[i := d.refs[i] + 1], d.tcp, d.time, d.expirer, nodes, d.next, hs + multiset{i})
  {
  }

  lemma SessionGetKeeps(s: State, i: SesId, hb: multiset<BibId>, hs: multiset<SesId>)
    requires Core(s, hb, hs) && i in s.ses.flows
    ensures Core(SessionGet(s, i), hb, hs + multiset{i})
  {
    hide BibIndex, Links, BibRefs, SesIndex, Lists, Sorted, Past, SesRefs, QueueIndex, QueueTimes, Conserved, Exclusive;
    SessionFacts(s, hb, hs);
    SessionGetRefs(s.ses, s.queue.nodes, hs, i);
  }

  lemma SessionPutRefs(d: SessionDb, nodes: seq<SesId>, hs: multiset<SesId>, i: SesId)
    requires SesRefs(d.flows, d.refs, d.tcp, d.time, d.expirer, nodes, d.next, hs) && i in hs
    ensures d.refs[i] >= 1
    ensures d.refs[i] > 1 ==>
              SesRefs(d.flows, d.refs[i := d.refs[i] - 1], d.tcp, d.time, d.expirer, nodes, d.next, hs - multiset{i})
  {
  }

  lemma FlowRmRefs(d: SessionDb, nodes: seq<SesId>, hs: multiset<SesId>, i: SesId)
    requires SesRefs(d.flows, d.refs, d.tcp, d.time, d.expirer, nodes, d.next, hs) && i in hs && d.refs[i] == 1
    ensures SesRefs(d.flows - {i}, d.refs - {i}, d.tcp - {i}, d.time - {i}, d.expirer, nodes, d.next, hs - multiset{i})
    ensures i !in d.expirer && i !in nodes
  {
    assert hs[i] == 1;
  }

  lemma FlowRmIndex(flows: map<SesId, Flow>, expirer: map<SesId, Expirer>, by6: map<Key6, SesId>,
                    by4: map<Key4, SesId>, i: SesId)
    requires SesIndex(flows, expirer, by6, by4) && i !in expirer
    ensures SesIndex(flows - {i}, expirer, by6, by4)
  {
  }

  lemma FlowRmQueue(q: Queue, flows: map<SesId, Flow>, expirer: map<SesId, Expirer>, i: SesId)
    requires QueueIndex(q.nodes, q.tree, q.packets, q.count, flows, expirer) && i !in q.nodes
    ensures QueueIndex(q.nodes, q.tree, q.packets, q.count, flows - {i}, expirer)
  {
  }

  /** The reference of a session that goes away becomes a held one. */
  lemma FlowRmBib(entries: map<BibId, Mapping>, refs: map<BibId, int>, statics: set<BibId>, flows: map<SesId, Flow>,
                  hb: multiset<BibId>, i: SesId)
    requires i in flows && Linked(entries, flows[i])
    requires BibRefs(entries, refs, statics, flows, hb)
    ensures BibRefs(entries, refs, statics, flows - {i},
                    if flows[i].bib.Some? then hb + multiset{flows[i].bib.value} else hb)
  {
    forall b: BibId ensures Uses(flows - {i}, b) == Uses(flows, b) - Bit(flows[i].bib == Some(b)) {
      UsesRm(flows, i, b);
    }
    hide Uses;
  }

  lemma FlowRmRest(s: State, i: SesId)
    requires Past(s.ses.time, s.now) && Links(s.bib.entries, s.ses.flows)
    ensures Past(s.ses.time - {i}, s.now) && Links(s.bib.entries, s.ses.flows - {i})
  {
  }

  lemma FlowRmCore(s: State, i: SesId, hb: multiset<BibId>, hs: multiset<SesId>)
    requires Core(s, hb, hs) && i in hs && i in s.ses.refs && s.ses.refs[i] == 1
    ensures i in s.ses.flows
    ensures var b := s.ses.flows[i].bib;
            Core(s.(ses := s.ses.(flows := s.ses.flows - {i}, refs := s.ses.refs - {i}, tcp := s.ses.tcp - {i},
                                  time := s.ses.time - {i})),
                 if b.Some? then hb + multiset{b.value} else hb, hs - multiset{i})
  {
    var d := s.ses;
    hide BibIndex, Links, BibRefs, SesIndex, Lists, Sorted, Past, SesRefs, QueueIndex, QueueTimes, Conserved, Exclusive;
    SessionFacts(s, hb, hs);
    LinkFacts(s, hb, hs, i);
    FlowRmRefs(d, s.queue.nodes, hs, i);
    FlowRmIndex(d.flows, d.expirer, d.by6, d.by4, i);
    FlowRmQueue(s.queue, d.flows, d.expirer, i);
    FlowRmBib(s.bib.entries, s.bib.refs, s.bib.statics, d.flows, hb, i);
    NotListed(d.lists, d.expirer, i);
    SortedFrame(d.lists, d.time, i, 0);
    QueueTimesFrame(s.queue.nodes, d.time, s.queue.timer, i, 0);
    FlowRmRest(s, i);
  }

  lemma SessionReturnKeeps(s: State, i: SesId, hb: multiset<BibId>, hs: multiset<SesId>)
    requires Core(s, hb, hs) && i in hs
    ensures Core(SessionReturn(s, i), hb, hs - multiset{i})
  {
    hide BibIndex, Links, BibRefs, SesIndex, Lists, Sorted, Past, SesRefs, QueueIndex, QueueTimes, Conserved, Exclusive;
    SessionFacts(s, hb, hs);
    SessionPutRefs(s.ses, s.queue.nodes, hs, i);
    if s.ses.refs[i] == 1 {
      SessionFreeKeeps(s, i, hb, hs);
    }
  }

  lemma SessionFreeKeeps(s: State, i: SesId, hb: multiset<BibId>, hs: multiset<SesId>)
    requires Core(s, hb, hs) && i in hs && i in s.ses.refs && s.ses.refs[i] == 1 && i in s.ses.flows
    ensures Core(SessionFree(s, i), hb, hs - multiset{i})
  {
    hide Core;
    FlowRmCore(s, i, hb, hs);
    var b := s.ses.flows[i].bib;
    if b.Some? {
      var s1 := s.(ses := s.ses.(flows := s.ses.flows - {i}, refs := s.ses.refs - {i}, tcp := s.ses.tcp - {i},
                                 time := s.ses.time - {i}));
      BibReturnKeeps(s1, b.value, hb + multiset{b.value}, hs - multiset{i});
      assert hb + multiset{b.value} - multiset{b.value} == hb;
    }
  }
}
