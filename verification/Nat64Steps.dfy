/** The invariants through whole packets, timers and requests. */
module Nat64Steps {

  import opened Types
  import opened Nat64
  import opened Nat64Inv
  import opened Nat64Tables

  /**
   The situation of running code: the references it holds, the list whose handler is running, the session whose
   TCP state it has just written, and the lists whose timers may be late.
   */
  datatype Ctx = Ctx(hb: multiset<BibId>, hs: multiset<SesId>, running: Option<Expirer>, changing: Option<SesId>,
                     late: set<Expirer>)

  ghost predicate Good(s: State, c: Ctx) {
    && Core(s, c.hb, c.hs)
    && Armed(s.ses.lists, s.ses.timers, c.running)
    && TcpLists(s.ses.tcp, s.ses.expirer, c.changing)
    && Prompt(s.ses.lists, s.ses.time, s.ses.timers, s.timeouts, s.now, c.late)
  }

  /** Between steps nothing is held and nothing is running. */
  function Idle(late: set<Expirer>): Ctx { Ctx(multiset{}, multiset{}, None, None, late) }

  /** Every list. */
  const ANY: set<Expirer> := {Expirer(UDP, Est), Expirer(UDP, Trans), Expirer(TCP, Est), Expirer(TCP, Trans),
                              Expirer(ICMP, Est), Expirer(ICMP, Trans)}

  /** Between steps, with no promise about when timers are due. */
  const IDLE := Idle(ANY)

  lemma AnyHasAll(e: Expirer)
    ensures e in ANY
  {
    assert e.proto.UDP? || e.proto.TCP? || e.proto.ICMP?;
    assert e.kind.Est? || e.kind.Trans?;
  }

  /** The promise about timers on top of everything else. */
  lemma Promise(s: State, c: Ctx, late: set<Expirer>)
    requires c.late == ANY
    ensures Good(s, c.(late := late)) <==>
            Good(s, c) && Prompt(s.ses.lists, s.ses.time, s.ses.timers, s.timeouts, s.now, late)
  {
    hide Core, Armed, TcpLists;
    forall e ensures e in ANY { AnyHasAll(e); }
  }

  function HoldBib(c: Ctx, b: BibId): Ctx { c.(hb := c.hb + multiset{b}) }
  function FreeBib(c: Ctx, b: BibId): Ctx { c.(hb := c.hb - multiset{b}) }
  function HoldSes(c: Ctx, i: SesId): Ctx { c.(hs := c.hs + multiset{i}) }
  function FreeSes(c: Ctx, i: SesId): Ctx { c.(hs := c.hs - multiset{i}) }

  lemma HoldFree(c: Ctx, x: nat)
    ensures FreeBib(HoldBib(c, x), x) == c && FreeSes(HoldSes(c, x), x) == c
  {
    assert c.hb + multiset{x} - multiset{x} == c.hb;
    assert c.hs + multiset{x} - multiset{x} == c.hs;
  }

  // ------------------------------------------------------------------ timers

  lemma PromptFrame(lists: map<Expirer, seq<SesId>>, time: map<SesId, int>, timers: map<Expirer, int>,
                    ts: Timeouts, now: nat, late: set<Expirer>, i: SesId, t: int)
    requires Prompt(lists, time, timers, ts, now, late) && Unlisted(lists, i)
    ensures Prompt(lists, time[i := t], timers, ts, now, late) && Prompt(lists, time - {i}, timers, ts, now, late)
  {
    forall e ensures ListOf(lists, e) != [] ==> ListOf(lists, e)[0] != i {
      assert i !in ListOf(lists, e);
    }
  }

  lemma PromptDetach(lists: map<Expirer, seq<SesId>>, expirer: map<SesId, Expirer>, time: map<SesId, int>,
                     timers: map<Expirer, int>, ts: Timeouts, now: nat, late: set<Expirer>, i: SesId)
    requires Lists(lists, expirer) && i in expirer && Sorted(lists, time) && Past(time, now)
    requires Prompt(lists, time, timers, ts, now, late)
    ensures Prompt(lists[expirer[i] := Without(ListOf(lists, expirer[i]), i)], time, timers, ts, now, late)
  {
    hide Without, Distinct, Ordered, Listed, Prompt, Past;
    var l := ListOf(lists, expirer[i]);
    assert Distinct(l) && i in l && Ordered(l, time);
    WithoutOrdered(l, time, i);
    TimeIsPast(time, now, l[0]);
    PromptShrink(lists, time, timers, ts, now, late, expirer[i], Without(l, i));
  }

  lemma PromptShrink(lists: map<Expirer, seq<SesId>>, time: map<SesId, int>, timers: map<Expirer, int>,
                     ts: Timeouts, now: nat, late: set<Expirer>, e: Expirer, w: seq<SesId>)
    requires Prompt(lists, time, timers, ts, now, late)
    requires var l := ListOf(lists, e);
             l != [] && TimeOf(time, l[0]) <= now && (w != [] ==> TimeOf(time, l[0]) <= TimeOf(time, w[0]))
    ensures Prompt(lists[e := w], time, timers, ts, now, late)
  {
  }

  lemma TimeIsPast(time: map<SesId, int>, now: nat, i: SesId)
    requires Past(time, now)
    ensures TimeOf(time, i) <= now
  {
  }

  lemma PromptAttach(lists: map<Expirer, seq<SesId>>, time: map<SesId, int>, timers: map<Expirer, int>,
                     ts: Timeouts, now: nat, late: set<Expirer>, i: SesId, e: Expirer, t: int)
    requires Prompt(lists, time, timers, ts, now, late) && Unlisted(lists, i)
    requires t <= Deadline(ListOf(lists, e) + [i], time[i := now], TimeoutOf(ts, e), now)
    ensures Prompt(lists[e := ListOf(lists, e) + [i]], time[i := now], timers, ts, now, late)
    ensures Prompt(lists[e := ListOf(lists, e) + [i]], time[i := now], timers[e := t], ts, now, late)
  {
    PromptFrame(lists, time, timers, ts, now, late, i, now);
  }

  /** The timers attach_timer leaves: the list it appends to has one. */
  lemma AttachTimers(d: SessionDb, i: SesId, e: Expirer, ts: Timeouts, now: nat)
    ensures var r := Attach(d, i, e, ts, now);
            var t := Deadline(ListOf(d.lists, e) + [i], d.time[i := now], TimeoutOf(ts, e), now);
            r.timers == if e in d.timers then d.timers else d.timers[e := t]
  {
  }

  lemma ArmedDetach(lists: map<Expirer, seq<SesId>>, timers: map<Expirer, int>, running: Option<Expirer>,
                    e: Expirer, i: SesId)
    requires Armed(lists, timers, running)
    ensures Armed(lists[e := Without(ListOf(lists, e), i)], timers, running)
  {
    hide IndexOf;
    assert ListOf(lists, e) == [] ==> Without(ListOf(lists, e), i) == [];
  }

  lemma ArmedAttach(lists: map<Expirer, seq<SesId>>, timers: map<Expirer, int>, running: Option<Expirer>,
                    e: Expirer, i: SesId, t: int)
    requires Armed(lists, timers, running) && HasTimeout(e)
    ensures Armed(lists[e := ListOf(lists, e) + [i]], if e in timers then timers else timers[e := t], running)
  {
  }

  // ------------------------------------------------------------------ BIB references

  lemma BibGetGood(s: State, b: BibId, c: Ctx)
    requires Good(s, c) && b in s.bib.entries
    ensures Good(s.(bib := BibGet(s.bib, b)), HoldBib(c, b))
  {
    hide Core, Armed, TcpLists, Prompt;
    BibGetKeeps(s, b, c.hb, c.hs);
  }

  lemma BibReturnGood(s: State, b: BibId, c: Ctx)
    requires Good(s, c) && b in c.hb
    ensures Good(s.(bib := BibReturn(s.bib, b)), FreeBib(c, b))
  {
    hide Core, Armed, TcpLists, Prompt;
    BibReturnKeeps(s, b, c.hb, c.hs);
  }

  lemma BibAddGood(s: State, m: Mapping, isStatic: bool, c: Ctx)
    requires Good(s, c)
    ensures var (db, ok) := BibAdd(s.bib, m, isStatic);
            && (!ok ==> db == s.bib)
            && (ok ==> s.bib.next in db.entries && db.entries[s.bib.next] == m)
            && Good(s.(bib := db), if ok && !isStatic then HoldBib(c, s.bib.next) else c)
  {
    hide Core, Armed, TcpLists, Prompt;
    BibAddKeeps(s, m, isStatic, c.hb, c.hs);
  }

  /** Taking a reference and giving it back changes nothing. */
  lemma BibGetReturn(db: BibDb, b: BibId)
    requires b in db.refs && db.refs[b] > 0
    ensures BibReturn(BibGet(db, b), b) == db
  {
    assert db.refs[b := db.refs[b] + 1][b := db.refs[b]] == db.refs;
  }

  // ------------------------------------------------------------------ session references

  lemma CoreOf(s: State, c: Ctx)
    requires Good(s, c)
    ensures Core(s, c.hb, c.hs)
  {
  }

  lemma StoredIn(s: State, c: Ctx)
    requires Good(s, c)
    ensures s.ses.next !in s.ses.flows && s.ses.next !in s.ses.expirer && s.ses.next !in s.queue.nodes
    ensures Unlisted(s.ses.lists, s.ses.next)
  {
    hide BibIndex, Links, BibRefs, SesIndex, Lists, Sorted, Past, SesRefs, QueueIndex, QueueTimes, Conserved, Exclusive;
    hide Armed, TcpLists, Prompt, Unlisted;
    SessionFacts(s, c.hb, c.hs);
    NotListed(s.ses.lists, s.ses.expirer, s.ses.next);
  }

  lemma TcpListsFrame(tcp: map<SesId, Tcp>, expirer: map<SesId, Expirer>, changing: Option<SesId>, i: SesId, t: Tcp)
    requires TcpLists(tcp, expirer, changing) && i !in expirer
    ensures TcpLists(tcp[i := t], expirer, changing) && TcpLists(tcp - {i}, expirer, changing)
  {
  }

  lemma SessionAllocGood(s: State, f: Flow, t: Tcp, time: int, c: Ctx)
    requires Good(s, c) && Linked(s.bib.entries, f) && time <= s.now
    ensures Good(SessionAlloc(s, f, t, time), HoldSes(c, s.ses.next))
  {
    hide Core, Armed, TcpLists, Prompt, Linked;
    SessionAllocKeeps(s, f, t, time, c.hb, c.hs);
    StoredIn(s, c);
    TcpListsFrame(s.ses.tcp, s.ses.expirer, c.changing, s.ses.next, t);
    PromptFrame(s.ses.lists, s.ses.time, s.ses.timers, s.timeouts, s.now, c.late, s.ses.next, time);
  }

  lemma SessionGetGood(s: State, i: SesId, c: Ctx)
    requires Good(s, c) && i in s.ses.flows
    ensures Good(SessionGet(s, i), HoldSes(c, i))
  {
    hide Core, Armed, TcpLists, Prompt;
    SessionGetKeeps(s, i, c.hb, c.hs);
  }

  lemma HeldFacts(s: State, c: Ctx, i: SesId)
    requires Good(s, c) && i in c.hs
    ensures i in s.ses.flows && i in s.ses.refs
    ensures s.ses.refs[i] == 1 ==> i !in s.ses.expirer && i !in s.queue.nodes && Unlisted(s.ses.lists, i)
  {
    hide BibIndex, Links, BibRefs, SesIndex, Lists, Sorted, Past, SesRefs, QueueIndex, QueueTimes, Conserved, Exclusive;
    hide Armed, TcpLists, Prompt, Unlisted;
    SessionFacts(s, c.hb, c.hs);
    if s.ses.refs[i] == 1 {
      FlowRmRefs(s.ses, s.queue.nodes, c.hs, i);
      NotListed(s.ses.lists, s.ses.expirer, i);
    }
  }

  lemma SessionReturnGood(s: State, i: SesId, c: Ctx)
    requires Good(s, c) && i in c.hs
    ensures Good(SessionReturn(s, i), FreeSes(c, i))
  {
    hide Core, Armed, TcpLists, Prompt, Unlisted, BibReturn;
    SessionReturnKeeps(s, i, c.hb, c.hs);
    HeldFacts(s, c, i);
    if s.ses.refs[i] == 1 {
      TcpListsFrame(s.ses.tcp, s.ses.expirer, c.changing, i, BLANK);
      PromptFrame(s.ses.lists, s.ses.time, s.ses.timers, s.timeouts, s.now, c.late, i, 0);
    }
  }

  // ------------------------------------------------------------------ the session table

  lemma TableFacts(s: State, c: Ctx, i: SesId)
    requires Good(s, c) && i in s.ses.expirer
    ensures i in s.ses.flows && s.ses.expirer[i].proto == s.ses.flows[i].proto && s.ses.flows[i].bib.Some?
    ensures KeyOf6(s.ses.flows[i]) in s.ses.by6 && s.ses.by6[KeyOf6(s.ses.flows[i])] == i
    ensures KeyOf4(s.ses.flows[i]) in s.ses.by4 && s.ses.by4[KeyOf4(s.ses.flows[i])] == i
  {
    hide BibIndex, Links, BibRefs, Lists, Sorted, Past, SesRefs, QueueIndex, QueueTimes, Conserved, Exclusive;
    hide Armed, TcpLists, Prompt;
  }

  lemma FoundFacts(s: State, c: Ctx)
    requires Good(s, c)
    ensures forall k :: k in s.ses.by6 ==>
              s.ses.by6[k] in s.ses.expirer && s.ses.by6[k] in s.ses.flows && KeyOf6(s.ses.flows[s.ses.by6[k]]) == k
    ensures forall k :: k in s.ses.by4 ==>
              s.ses.by4[k] in s.ses.expirer && s.ses.by4[k] in s.ses.flows && KeyOf4(s.ses.flows[s.ses.by4[k]]) == k
  {
    hide BibIndex, Links, BibRefs, Lists, Sorted, Past, SesRefs, QueueIndex, QueueTimes, Conserved, Exclusive;
    hide Armed, TcpLists, Prompt;
  }

  lemma DetachGood(s: State, c: Ctx, i: SesId)
    requires Good(s, c) && i in s.ses.expirer
    ensures var d := Detach(s.ses, i);
            && Armed(d.lists, d.timers, c.running)
            && Prompt(d.lists, d.time, d.timers, s.timeouts, s.now, c.late)
            && Unlisted(d.lists, i)
  {
    hide BibIndex, Links, BibRefs, SesIndex, Lists, Sorted, Past, SesRefs, QueueIndex, QueueTimes, Conserved, Exclusive;
    hide Armed, TcpLists, Prompt, Unlisted, Without;
    var d := s.ses;
    ArmedDetach(d.lists, d.timers, c.running, d.expirer[i], i);
    ListsDetach(d.lists, d.expirer, i);
    NotListed(Detach(d, i).lists, Detach(d, i).expirer, i);
    PromptDetach(d.lists, d.expirer, d.time, d.timers, s.timeouts, s.now, c.late, i);
  }

  lemma TcpListsRm(tcp: map<SesId, Tcp>, expirer: map<SesId, Expirer>, i: SesId, e: Expirer)
    requires TcpLists(tcp, expirer, Some(i))
    ensures TcpLists(tcp, expirer - {i}, None)
    ensures OnRightList(TcpOf(tcp, i), e) ==> TcpLists(tcp, (expirer - {i})[i := e], None)
  {
  }

  lemma TcpListsWeaken(tcp: map<SesId, Tcp>, expirer: map<SesId, Expirer>, i: SesId, t: Tcp)
    requires TcpLists(tcp, expirer, None)
    ensures TcpLists(tcp, expirer, Some(i)) && TcpLists(tcp[i := t], expirer, Some(i))
  {
  }

  lemma TableRmGood(s: State, i: SesId, c: Ctx)
    requires Good(s, c) && i in s.ses.expirer && c.changing == Some(i)
    ensures Good(s.(ses := TableRm(s.ses, i)), HoldSes(c, i).(changing := None))
  {
    hide Core, Armed, TcpLists, Prompt, Unlisted, Without;
    TableRmKeeps(s, i, c.hb, c.hs);
    TableFacts(s, c, i);
    DetachGood(s, c, i);
    TcpListsRm(s.ses.tcp, s.ses.expirer, i, s.ses.expirer[i]);
  }

  lemma MoveGood(s: State, i: SesId, kind: Kind, c: Ctx)
    requires Good(s, c) && i in s.ses.expirer && i in s.ses.flows && c.changing == Some(i)
    requires OnRightList(TcpOf(s.ses.tcp, i), Expirer(s.ses.flows[i].proto, kind))
    ensures Good(Move(s, i, kind), c.(changing := None))
  {
    hide Core, Armed, TcpLists, Prompt, Unlisted, Without, Attach, OnRightList;
    MoveKeeps(s, i, kind, c.hb, c.hs);
    DetachGood(s, c, i);
    var d, e := Detach(s.ses, i), Expirer(s.ses.flows[i].proto, kind);
    TcpListsRm(s.ses.tcp, s.ses.expirer, i, e);
    KindFacts(TcpOf(s.ses.tcp, i), e);
    AttachGood(d, c.running, c.late, s.timeouts, s.now, i, e);
    AttachFields(d, i, e, s.timeouts, s.now);
  }

  lemma KindFacts(t: Tcp, e: Expirer)
    requires OnRightList(t, e)
    ensures HasTimeout(e)
  {
  }

  lemma AttachGood(d: SessionDb, running: Option<Expirer>, late: set<Expirer>, ts: Timeouts, now: nat, i: SesId,
                   e: Expirer)
    requires Armed(d.lists, d.timers, running) && Unlisted(d.lists, i) && HasTimeout(e)
    requires Prompt(d.lists, d.time, d.timers, ts, now, late)
    ensures var r := Attach(d, i, e, ts, now);
            Armed(r.lists, r.timers, running) && Prompt(r.lists, r.time, r.timers, ts, now, late)
  {
    hide Armed, Prompt, Unlisted, Attach;
    AttachFields(d, i, e, ts, now);
    AttachTimers(d, i, e, ts, now);
    var t := Deadline(ListOf(d.lists, e) + [i], d.time[i := now], TimeoutOf(ts, e), now);
    ArmedAttach(d.lists, d.timers, running, e, i, t);
    PromptAttach(d.lists, d.time, d.timers, ts, now, late, i, e, t);
  }

  lemma SetTcpGood(s: State, i: SesId, t: Tcp, c: Ctx)
    requires Good(s, c) && i in s.ses.flows && c.changing == None
    ensures Good(SetTcp(s, i, t), c.(changing := Some(i)))
  {
    hide Armed, TcpLists, Prompt;
    TcpListsWeaken(s.ses.tcp, s.ses.expirer, i, t);
    SetTcpKeeps(s, i, t, c.hb, c.hs);
  }

  lemma SetTcpKeeps(s: State, i: SesId, t: Tcp, hb: multiset<BibId>, hs: multiset<SesId>)
    requires Core(s, hb, hs) && i in s.ses.flows
    ensures Core(SetTcp(s, i, t), hb, hs)
  {
    hide BibIndex, Links, BibRefs, SesIndex, Lists, Sorted, Past, QueueIndex, QueueTimes, Conserved, Exclusive;
  }

  /** A session that has not been written may be treated as if it had been. */
  lemma TouchGood(s: State, i: SesId, c: Ctx)
    requires Good(s, c) && c.changing == None
    ensures Good(s, c.(changing := Some(i)))
  {
    hide Core, Armed, TcpLists, Prompt;
    TcpListsWeaken(s.ses.tcp, s.ses.expirer, i, BLANK);
  }

  // ------------------------------------------------------------------ adding

  lemma QueueRemoveGood(s: State, k: Key4, c: Ctx)
    requires Good(s, c)
    ensures Good(QueueRemove(s, k), c)
  {
    hide Core, Armed, TcpLists, Prompt, SessionReturn;
    CoreOf(s, c);
    QueueFacts(s, c.hb, c.hs);
    if k in s.queue.tree {
      var n := s.queue.tree[k];
      var q := QueueUnlink(s.queue, n, k).(cancelled := s.queue.cancelled + multiset{PacketOf(s.queue, n)});
      UnlinkKeeps(s, n, q, c.hb, c.hs);
      SessionReturnGood(s.(queue := q), n, HoldSes(c, n));
      HoldFree(c, n);
    }
  }

  lemma TcpListsAdd(tcp: map<SesId, Tcp>, expirer: map<SesId, Expirer>, i: SesId, e: Expirer)
    requires TcpLists(tcp, expirer, None) && OnRightList(TcpOf(tcp, i), e)
    ensures TcpLists(tcp, expirer[i := e], None)
  {
  }

  lemma UnlistedGood(s: State, c: Ctx, i: SesId)
    requires Good(s, c) && i !in s.ses.expirer
    ensures Unlisted(s.ses.lists, i)
  {
    hide BibIndex, Links, BibRefs, SesIndex, Lists, Sorted, Past, SesRefs, QueueIndex, QueueTimes, Conserved, Exclusive;
    hide Armed, TcpLists, Prompt, Unlisted;
    NotListed(s.ses.lists, s.ses.expirer, i);
  }

  lemma InsertGood(s: State, i: SesId, kind: Kind, c: Ctx)
    requires Good(s, c) && c.changing == None && i in c.hs
    requires i in s.ses.flows && i !in s.ses.expirer && i !in s.queue.nodes && s.ses.flows[i].bib.Some?
    requires KeyOf6(s.ses.flows[i]) !in s.ses.by6 && KeyOf4(s.ses.flows[i]) !in s.ses.by4
    requires KeyOf4(s.ses.flows[i]) !in s.queue.tree
    requires OnRightList(TcpOf(s.ses.tcp, i), Expirer(s.ses.flows[i].proto, kind))
    ensures Good(Insert(s, i, kind), c)
  {
    hide Core, Armed, TcpLists, Prompt, Unlisted, Attach, OnRightList;
    var e, f := Expirer(s.ses.flows[i].proto, kind), s.ses.flows[i];
    var d := s.ses.(by6 := s.ses.by6[KeyOf6(f) := i], by4 := s.ses.by4[KeyOf4(f) := i]);
    InsertKeeps(s, i, kind, c.hb, c.hs);
    UnlistedGood(s, c, i);
    TcpListsAdd(s.ses.tcp, s.ses.expirer, i, e);
    KindFacts(TcpOf(s.ses.tcp, i), e);
    AttachGood(d, c.running, c.late, s.timeouts, s.now, i, e);
    AttachFields(d, i, e, s.timeouts, s.now);
  }

  lemma SessionAddGood(s: State, i: SesId, kind: Kind, c: Ctx)
    requires Good(s, c) && c.changing == None && i in c.hs
    requires i in s.ses.flows && i !in s.ses.expirer && i !in s.queue.nodes && s.ses.flows[i].bib.Some?
    requires OnRightList(TcpOf(s.ses.tcp, i), Expirer(s.ses.flows[i].proto, kind))
    ensures Good(SessionAdd(s, i, kind).0, c)
  {
    hide Core, Armed, TcpLists, Prompt, OnRightList, Insert, SessionAdd, QueueRemove;
    var k := KeyOf4(s.ses.flows[i]);
    CoreOf(s, c);
    QueueRemoveGood(s, k, c);
    QueueRemoveKeeps(s, k, c.hb, c.hs);
    QueueRemoveFrame(s, k, c.hb, c.hs);
    SessionAddCases(s, i, kind);
    if SessionAdd(s, i, kind).1 {
      InsertGood(QueueRemove(s, k), i, kind, c);
    }
  }

  lemma QueueAddGood(s: State, i: SesId, packet: PacketId, memory: bool, c: Ctx)
    requires Good(s, c) && i in c.hs && i in s.ses.flows && i !in s.ses.expirer && i !in s.queue.nodes
    requires s.ses.flows[i].proto.TCP? && KeyOf4(s.ses.flows[i]) !in s.ses.by4 && TimeOf(s.ses.time, i) == s.now
    ensures Good(QueueAdd(s, i, packet, memory).0, c)
  {
    hide Core, Armed, TcpLists, Prompt;
    QueueAddKeeps(s, i, packet, memory, c.hb, c.hs);
  }
}
