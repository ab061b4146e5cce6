/** When timers are due in time: exactly as long as no session joins an empty list whose timer is late. */
module Nat64Live {

  import opened Types
  import opened Nat64
  import opened Nat64Inv
  import opened Nat64Tables
  import opened Nat64Steps
  import opened Nat64Packets
  import opened Nat64Timers
  import opened Nat64Requests
  import opened Nat64Ranges
  import opened Nat64Flush
  import opened Nat64Runs
  import opened Nat64Evolution
  import opened Nat64Outcomes

  /** Every list with sessions has a timer, due when its first session expires, or as soon as timers can be. */
  ghost predicate Live(s: State) {
    forall e :: ListOf(s.ses.lists, e) != [] ==>
      && e in s.ses.timers
      && s.ses.timers[e] <= Max(TimeOf(s.ses.time, ListOf(s.ses.lists, e)[0]) + TimeoutOf(s.timeouts, e),
                                s.now + MIN_TIMER_SLEEP)
  }

  /** The list is empty, and its timer is pending for later than a session that joins now can wait. */
  ghost predicate LateIdle(s: State, e: Expirer) {
    && e in s.ses.timers && ListOf(s.ses.lists, e) == []
    && s.ses.timers[e] > Max(s.now + TimeoutOf(s.timeouts, e), s.now + MIN_TIMER_SLEEP)
  }

  ghost function LateSet(s: State): set<Expirer> {
    set e | e in s.ses.timers && LateIdle(s, e)
  }

  // ------------------------------------------------------------------ who joins

  /** The list a TCP packet puts its session on. */
  ghost predicate Rejoins(s: State, found: Option<SesId>, p: Flags, e: Expirer) {
    && found.Some? && found.value in s.ses.flows && s.ses.flows[found.value].proto.TCP?
    && (var kind := Restart(TCP, TcpOf(s.ses.tcp, found.value), p);
        kind.Some? && e == Expirer(TCP, kind.value))
  }

  function FirstList(proto: Proto): Expirer {
    Expirer(proto, if proto.TCP? then Trans else Est)
  }

  /** Whether a step puts a session on the list `e`, which is empty. */
  ghost predicate Joins(s: State, ev: Event, e: Expirer) {
    match ev
    case Arrive6(p, env) =>
      || (Opens6(s, p, env) && e == FirstList(p.proto))
      || (&& !env.hairpin && env.inPool6 && !env.icmpError && p.proto.TCP?
          && Rejoins(s, SessionFind6(s.ses, Key6(p.proto, p.dst, p.src)), Flags(true, p.syn, p.fin, p.rst), e))
    case Arrive4(p, env) =>
      || (Opens4(s, p, env) && e == FirstList(p.proto))
      || (&& env.inPool4 && !env.icmpError && p.proto.TCP?
          && Rejoins(s, SessionFind4(s.ses, Key4(p.proto, p.dst, p.src)), Flags(false, p.syn, p.fin, p.rst), e))
    case TimerFires(list, _) =>
      && list in s.ses.timers && s.ses.timers[list] <= s.now && e == TCP_TRANS
      && exists i :: i in ListOf(s.ses.lists, list) && Expired(s, list, i) && Probed(s, i)
    case _ => false
  }

  /** The step makes a session wait for a timer that is late. */
  ghost predicate JoinsLate(s: State, ev: Event) {
    exists e :: LateIdle(s, e) && Joins(s, ev, e)
  }

  // ------------------------------------------------------------------ lists and who is on them

  ghost predicate Nobody(d: SessionDb, e: Expirer) {
    forall i :: i in d.expirer ==> d.expirer[i] != e
  }

  lemma EmptyIff(s: State, c: Ctx, e: Expirer)
    requires Good(s, c)
    ensures ListOf(s.ses.lists, e) == [] <==> Nobody(s.ses, e)
  {
    hide Good, ListOf;
    ListMembers(s, c, e);
    var l := ListOf(s.ses.lists, e);
    if l != [] {
      assert l[0] in l;
    } else {
      forall i | i in s.ses.expirer ensures s.ses.expirer[i] != e {
        ListedFacts(s, i, c);
      }
    }
  }

  /** Those who are on a list were on it before. */
  ghost predicate Fewer(d: SessionDb, d': SessionDb) {
    forall i :: i in d'.expirer ==> i in d.expirer && d'.expirer[i] == d.expirer[i]
  }

  lemma {:induction false} ReturnAllFewer(s: State, ids: seq<SesId>)
    ensures ReturnAll(s, ids).ses.expirer == s.ses.expirer
    decreases |ids|
  {
    hide SessionReturn;
    if ids == [] {
      assert ReturnAll(s, ids) == s;
    } else {
      SessionReturnFrame(s, ids[0]);
      ReturnAllFewer(SessionReturn(s, ids[0]), ids[1..]);
    }
  }

  lemma {:induction false} RmAllFewer(d: SessionDb, ids: seq<SesId>)
    ensures Fewer(d, RmAll(d, ids))
    decreases |ids|
  {
    hide Without;
    if ids == [] {
      assert RmAll(d, ids) == d;
    } else {
      RmAllFewer(TableRm(d, ids[0]), ids[1..]);
    }
  }

  lemma DeleteSessionsFewer(s: State, ids: seq<SesId>)
    ensures Fewer(s.ses, DeleteSessions(s, ids).ses)
  {
    hide RmAll, ReturnAll, Reversed;
    RmAllFewer(s.ses, ids);
    ReturnAllFewer(s.(ses := RmAll(s.ses, ids)), Reversed(ids));
  }

  lemma {:induction false} DeleteRangeFewer(s: State, protos: seq<Proto>, r: Scope)
    requires ValidScope(r)
    ensures Fewer(s.ses, DeleteRange(s, protos, r).ses)
    decreases |protos|
  {
    hide DeleteSessions, RangeIds;
    if protos == [] {
      assert DeleteRange(s, protos, r) == s;
    } else {
      var ids := RangeIds(s.ses, protos[0], r);
      DeleteSessionsFewer(s, ids);
      DeleteRangeFewer(DeleteSessions(s, ids), protos[1..], r);
    }
  }

  lemma {:induction false} DeleteBlock6Fewer(s: State, protos: seq<Proto>, address: nat, size: nat)
    requires size > 0
    ensures Fewer(s.ses, DeleteBlock6(s, protos, address, size).ses)
    decreases |protos|
  {
    hide DeleteSessions, Block6Ids;
    if protos == [] {
      assert DeleteBlock6(s, protos, address, size) == s;
    } else {
      var ids := Block6Ids(s.ses, protos[0], address, size);
      DeleteSessionsFewer(s, ids);
      DeleteBlock6Fewer(DeleteSessions(s, ids), protos[1..], address, size);
    }
  }

  lemma DeleteStaticFewer(s: State, b: BibId, a6: Option<Taddr6>, a4: Option<Taddr4>, ids: seq<SesId>)
    requires b in s.bib.entries
    ensures Fewer(s.ses, DeleteStatic(s, b, a6, a4, ids).ses)
  {
    hide DeleteSessions, DropFakeUser, BibGet, BibReturn;
    var s1 := s.(bib := BibGet(s.bib, b));
    DeleteSessionsFewer(s1.(bib := DropFakeUser(s1.bib, b)), ids);
  }

  lemma AddStaticSame(s: State, m: Mapping, inPool4: bool, memory: bool)
    ensures AddStatic(s, m, inPool4, memory).0.ses == s.ses
  {
  }

  /** Steps other than packets and the timers of lists put nobody on any list. */
  lemma QuietStep(s: State, ev: Event)
    requires ValidEvent(ev) && !ev.Arrive6? && !ev.Arrive4? && !ev.TimerFires?
    ensures Fewer(s.ses, Step(s, ev).ses)
  {
    hide QueueClean, AddStatic, RmPool4, DeleteBlock6, DeleteRange, SetTimeouts, DeleteStatic, BibIds;
    match ev
    case QueueTimerFires => QueueCleanFewer(s);
    case AddRoute(m, inPool4, memory) => AddStaticSame(s, m, inPool4, memory);
    case DeleteRoute(proto, a6, a4) =>
      var b := StaticToDelete(s, proto, a6, a4);
      if b.Some? {
        DeleteStaticFewer(s, b.value, a6, a4, BibIds(s.ses, s.bib.entries[b.value]));
      }
    case LeavePool4(scope) =>
      RmPool4Sessions(s, scope);
      DeleteRangeFewer(s, PROTOS, scope);
    case LeavePool6(address, size) => DeleteBlock6Fewer(s, PROTOS, address, size);
    case FlushPool6 => DeleteRangeFewer(s, PROTOS, Everything);
    case Configure(ts) => SetTimeoutsDoes(s, ts);
    case Resize(_) =>
    case Pass(_) =>
  }

  lemma QueueCleanFewer(s: State)
    ensures QueueClean(s).ses.expirer == s.ses.expirer
  {
    hide QueueCleanLoop, ReturnAll;
    var (q, icmps) := QueueCleanLoop(s.queue.(timer := None), s.ses, s.now, s.queue.nodes, []);
    ReturnAllFewer(s.(queue := q), icmps);
  }

  /** The flush of the BIB does not touch the sessions that deleting the range has left. */
  lemma RmPool4Sessions(s: State, r: Scope)
    requires ValidScope(r)
    ensures var m := DeleteRange(s, PROTOS, r); RmPool4(s, r) == m.(bib := RmPool4(s, r).bib)
  {
    hide DeleteRange, BibFlush, Visited;
  }

  // ------------------------------------------------------------------ packets

  lemma OpenedNobody(s: State, r: State, i: SesId, f: Flow, kind: Kind, t: Tcp, e: Expirer)
    requires Opened(s, r, i, f, kind, t) && Nobody(s.ses, e)
    ensures Nobody(r.ses, e) <==> e != Expirer(f.proto, kind)
  {
    hide TcpOf, TimeOf;
    assert i in r.ses.expirer && r.ses.expirer[i] == Expirer(f.proto, kind);
  }

  lemma SameNobody(s: State, r: State, e: Expirer)
    requires TablesSame(s, r)
    ensures Nobody(s.ses, e) <==> Nobody(r.ses, e)
  {
  }

  lemma RestartedNobody(s: State, r: State, i: SesId, p: Flags, e: Expirer, c: Ctx)
    requires Good(s, c) && c.changing == None && i in s.ses.expirer && Restarted(s, r, i, p) && Nobody(s.ses, e)
    ensures Nobody(r.ses, e) <==> !(s.ses.flows[i].proto.TCP? && Rejoins(s, Some(i), p, e))
  {
    hide Good, TcpOf, Machine, Nat64.Seen, OnRightList;
    TableFacts(s, c, i);
    ListFacts(s, i, c);
    KindFacts(TcpOf(s.ses.tcp, i), s.ses.expirer[i]);
    assert s.ses.expirer[i] != e && i in r.ses.expirer;
    var kind := Restart(s.ses.flows[i].proto, TcpOf(s.ses.tcp, i), p);
    if kind.Some? {
      assert r.ses.expirer[i] == Expirer(s.ses.flows[i].proto, kind.value);
    }
  }

  lemma Arrive6Joins(s: State, p: Packet6, env: Env6, e: Expirer)
    requires Good(s, IDLE) && Nobody(s.ses, e)
    ensures !Nobody(From6(s, p, env).0.ses, e) <==> Joins(s, Arrive6(p, env), e)
  {
    hide Good, Nobody, Opened, TablesSame, Restarted, Rejoins, Opens6, From6, FlowOf6;
    var f := Packet6Outcome(s, p, env, ANY);
    Opens6Iff(s, p, env, ANY);
    FoundFacts(s, IDLE);
    var (r, v) := From6(s, p, env);
    var found := SessionFind6(s.ses, Key6(p.proto, p.dst, p.src));
    Passes6(s, p, env);
    if v.Continue? && !env.icmpError {
      if found.Some? {
        RestartedNobody(s, r, found.value, Flags(true, p.syn, p.fin, p.rst), e, IDLE);
      } else {
        NoRejoin(s, Flags(true, p.syn, p.fin, p.rst), e);
        if p.proto.TCP? && !p.syn {
          SameNobody(s, r, e);
        } else {
          FlowProto6(f, p, env, r.bib.entries);
          OpenedNobody(s, r, s.ses.next, f, if p.proto.TCP? then Trans else Est,
                       if p.proto.TCP? then OPENED_BY_6 else BLANK, e);
        }
      }
    } else {
      NoRejoin(s, Flags(true, p.syn, p.fin, p.rst), e);
      if !v.Continue? {
        SameNobody(s, r, e);
      }
    }
  }

  lemma NoRejoin(s: State, p: Flags, e: Expirer)
    ensures !Rejoins(s, None, p, e)
  {
  }

  lemma FlowProto6(f: Flow, p: Packet6, env: Env6, entries: map<BibId, Mapping>)
    requires FlowOf6(f, p, env, entries)
    ensures f.proto == p.proto
  {
  }

  lemma FlowProto4(f: Flow, p: Packet4, env: Env4, entries: map<BibId, Mapping>)
    requires FlowOf4(f, p, env, entries)
    ensures f.proto == p.proto
  {
  }

  /** What From6 does before it looks at the tables. */
  lemma Passes6(s: State, p: Packet6, env: Env6)
    ensures var (r, v) := From6(s, p, env);
            && (v.Continue? && env.icmpError ==> r == s)
            && (v.Continue? ==> !env.hairpin && env.inPool6)
            && (!env.hairpin && env.inPool6 && !env.icmpError && p.proto.TCP? ==>
                  (SessionFind6(s.ses, Key6(p.proto, p.dst, p.src)).Some? ==> v.Continue?))
  {
    hide TcpFound, ClosedSyn6, ClosedOther, Ipv6Simple;
  }

  lemma Passes4(s: State, p: Packet4, env: Env4)
    ensures var (r, v) := From4(s, p, env);
            && (v.Continue? && env.icmpError ==> r == s)
            && (v.Continue? ==> env.inPool4)
            && (env.inPool4 && !env.icmpError && p.proto.TCP? ==>
                  (SessionFind4(s.ses, Key4(p.proto, p.dst, p.src)).Some? ==> v.Continue?))
  {
    hide TcpFound, ClosedSyn4, ClosedOther, Ipv4Simple;
  }

  lemma Arrive4Joins(s: State, p: Packet4, env: Env4, e: Expirer)
    requires Good(s, IDLE) && Nobody(s.ses, e)
    ensures !Nobody(From4(s, p, env).0.ses, e) <==> Joins(s, Arrive4(p, env), e)
  {
    hide Good, Nobody, Opened, TablesSame, Restarted, Rejoins, Opens4, From4, FlowOf4;
    var f := Packet4Outcome(s, p, env, ANY);
    Opens4Iff(s, p, env, ANY);
    FoundFacts(s, IDLE);
    var (r, v) := From4(s, p, env);
    var found := SessionFind4(s.ses, Key4(p.proto, p.dst, p.src));
    Passes4(s, p, env);
    if v.Continue? && !env.icmpError {
      if found.Some? {
        RestartedNobody(s, r, found.value, Flags(false, p.syn, p.fin, p.rst), e, IDLE);
      } else {
        NoRejoin(s, Flags(false, p.syn, p.fin, p.rst), e);
        if p.proto.TCP? && !p.syn {
          SameNobody(s, r, e);
        } else {
          FlowProto4(f, p, env, s.bib.entries);
          OpenedNobody(s, r, s.ses.next, f, if p.proto.TCP? then Trans else Est,
                       if p.proto.TCP? then OPENED_BY_4 else BLANK, e);
        }
      }
    } else {
      NoRejoin(s, Flags(false, p.syn, p.fin, p.rst), e);
      if !v.Continue? {
        SameNobody(s, r, e);
      }
    }
  }

  // ------------------------------------------------------------------ timers that fire

  lemma CleanJoins(s: State, list: Expirer, starved: set<SesId>, e: Expirer)
    requires Good(s, IDLE) && Nobody(s.ses, e)
    ensures !Nobody(Clean(s, list, starved).ses, e) <==>
            e == TCP_TRANS && exists i :: i in ListOf(s.ses.lists, list) && Expired(s, list, i) && Probed(s, i)
  {
    hide Good, Clean, Probed, ToProbe, ExpiredCount, TcpOf, TimeOf, ListOf;
    CleanIsExact(s, list, starved, ANY);
    var r, l := Clean(s, list, starved), ListOf(s.ses.lists, list);
    var n := ExpiredCount(s, list, l);
    if !Nobody(r.ses, e) {
      var i :| i in r.ses.expirer && r.ses.expirer[i] == e;
      assert (i !in l[..n] ==> Untouched(s, r, i)) && (i in l[..n] ==> Gone(s, r, i));
    }
    if i :| i in l && Expired(s, list, i) && Probed(s, i) {
      assert i in l[..n] && Gone(s, r, i);
    }
  }

  /** On an empty list a session appears exactly if the step puts it there. */
  lemma JoinsIff(s: State, ev: Event, e: Expirer)
    requires Good(s, IDLE) && ValidEvent(ev) && Nobody(s.ses, e)
    ensures !Nobody(Step(s, ev).ses, e) <==> Joins(s, ev, e)
  {
    hide Good, From6, From4, Clean, Opens6, Opens4, Rejoins;
    match ev
    case Arrive6(p, env) => Arrive6Joins(s, p, env, e);
    case Arrive4(p, env) => Arrive4Joins(s, p, env, e);
    case TimerFires(list, starved) => CleanJoins(s, list, starved, e);
    case _ =>
      hide Step;
      QuietStep(s, ev);
  }

  // ------------------------------------------------------------------ the theorem

  lemma LateSetIs(s: State, e: Expirer)
    ensures e in LateSet(s) <==> LateIdle(s, e)
  {
  }

  /** A state is live exactly if every timer is prompt but those of the empty lists that are late. */
  lemma LiveIsPrompt(s: State)
    requires Good(s, IDLE)
    ensures Live(s) <==> Good(s, Idle(LateSet(s)))
  {
    hide Good, ListOf, TimeOf, TimeoutOf, LateSet;
    Promise(s, IDLE, LateSet(s));
    assert IDLE.(late := LateSet(s)) == Idle(LateSet(s));
    forall e ensures ListOf(s.ses.lists, e) != [] ==> e in s.ses.timers {
      ArmedFacts(s, IDLE, e);
    }
    forall e ensures e in LateSet(s) <==> LateIdle(s, e) {
      LateSetIs(s, e);
    }
  }

  /** The deadline of a list outside `late`, and what joining means inside. */
  lemma LiveAfter(s: State, r: State, late: set<Expirer>)
    requires Good(r, Idle(late)) && r.now == s.now && r.timeouts == s.timeouts
    requires forall e :: e in late ==> LateIdle(s, e)
    requires forall e :: e in late && ListOf(r.ses.lists, e) != [] ==>
               && e in s.ses.timers && e in r.ses.timers && r.ses.timers[e] == s.ses.timers[e]
               && TimeOf(r.ses.time, ListOf(r.ses.lists, e)[0]) == s.now
    ensures Live(r) <==> forall e :: e in late ==> ListOf(r.ses.lists, e) == []
  {
    hide ListOf, TimeOf, TimeoutOf, Core, TcpLists;
  }

  lemma OldIds(s: State)
    requires Good(s, IDLE)
    ensures IdsInOrder(s.ses)
  {
    hide Good;
    IdsAreOld(s, IDLE);
    forall i | i in s.ses.expirer ensures i in s.ses.flows {
      TableFacts(s, IDLE, i);
    }
  }

  /** A session on a list that was empty has joined it, and its clock has just started. */
  lemma JoinedNow(d: SessionDb, r: State, now: nat, e: Expirer, c: Ctx)
    requires IdsInOrder(d) && Good(r, c) && Clocks(d, r.ses, now)
    requires Nobody(d, e) && e in d.timers && ListOf(r.ses.lists, e) != []
    ensures e in r.ses.timers && r.ses.timers[e] == d.timers[e]
    ensures TimeOf(r.ses.time, ListOf(r.ses.lists, e)[0]) == now
  {
    hide Good, ListOf, TimeOf;
    ListMembers(r, c, e);
    var i := ListOf(r.ses.lists, e)[0];
    assert i in ListOf(r.ses.lists, e);
    assert StaysOrJoins(d, r.ses, now, i);
  }

  lemma AllLate(s: State)
    ensures forall e :: e in LateSet(s) ==> LateIdle(s, e)
  {
  }

  /** What a step leaves that moves no pending timer but, perhaps, that of a list it leaves empty. */
  lemma EvolvedLive(s: State, d: SessionDb, r: State, fired: Option<Expirer>)
    requires Good(s, IDLE) && Live(s) && Good(r, Idle(LateSet(s))) && r.now == s.now && r.timeouts == s.timeouts
    requires d == s.ses.(timers := d.timers) && Clocks(d, r.ses, s.now)
    requires d.timers == if fired.None? then s.ses.timers else s.ses.timers - {fired.value}
    requires fired.Some? && Nobody(s.ses, fired.value) ==> Nobody(r.ses, fired.value)
    ensures Live(r) <==> forall e :: LateIdle(s, e) ==> Nobody(r.ses, e)
  {
    hide Good, ListOf, TimeOf, TimeoutOf, LateSet, Clocks, Nobody, Live;
    AllLate(s);
    OldIds(s);
    forall e ensures ListOf(r.ses.lists, e) == [] <==> Nobody(r.ses, e) {
      EmptyIff(r, Idle(LateSet(s)), e);
    }
    forall e | e in LateSet(s) && ListOf(r.ses.lists, e) != []
      ensures e in s.ses.timers && e in r.ses.timers && r.ses.timers[e] == s.ses.timers[e]
      ensures TimeOf(r.ses.time, ListOf(r.ses.lists, e)[0]) == s.now
    {
      EmptyIff(s, IDLE, e);
      NobodyTimers(s.ses, d, e);
      JoinedNow(d, r, s.now, e, Idle(LateSet(s)));
    }
    LiveAfter(s, r, LateSet(s));
    forall e ensures LateIdle(s, e) <==> e in LateSet(s) {
      LateSetIs(s, e);
    }
  }

  lemma NobodyTimers(d: SessionDb, d': SessionDb, e: Expirer)
    requires d' == d.(timers := d'.timers)
    ensures Nobody(d, e) <==> Nobody(d', e)
  {
  }

  lemma LiveFields(s: State, r: State)
    requires r.ses == s.ses && r.now == s.now && r.timeouts == s.timeouts
    ensures Live(r) <==> Live(s)
  {
  }

  /** New timeouts set the timer of every list that has sessions anew, so none is late. */
  lemma ConfigureLive(s: State, ts: Timeouts)
    ensures Live(SetTimeouts(s, ts))
  {
    hide SetTimeouts, ListOf, TimeOf, TimeoutOf, Max;
    SetTimeoutsDoes(s, ts);
  }

  lemma PassLive(s: State, ticks: nat)
    requires Live(s)
    ensures Live(s.(now := s.now + ticks))
  {
    hide ListOf, TimeOf, TimeoutOf;
  }

  lemma CleanLive(s: State, list: Expirer, starved: set<SesId>)
    requires Good(s, IDLE) && Live(s)
    ensures Live(Clean(s, list, starved)) <==> forall e :: LateIdle(s, e) ==> Nobody(Clean(s, list, starved).ses, e)
  {
    hide Good, Clean, Live, LateSet, Nobody, Clocks, Survives, Quota, ListOf, LateIdle;
    var r := Clean(s, list, starved);
    LiveIsPrompt(s);
    CleanGood(s, list, starved, LateSet(s));
    EvolveClean(s, list, starved);
    EmptyIff(s, IDLE, list);
    EmptyIff(r, Idle(LateSet(s)), list);
    if ListOf(s.ses.lists, list) == [] {
      EmptyStays(s, list, starved);
    }
    EvolvedLive(s, Running(s, list).ses, r, Some(list));
  }

  lemma EmptyStays(s: State, list: Expirer, starved: set<SesId>)
    requires Good(s, IDLE) && ListOf(s.ses.lists, list) == []
    ensures ListOf(Clean(s, list, starved).ses.lists, list) == []
  {
    hide Good, Clean, Cleaned, ToProbe, Probed, ExpiredCount;
    CleanIsExact(s, list, starved, ANY);
  }

  /**
   From a live state a step leads to a live one exactly if it does not put a session on an empty list whose timer is
   pending for too late. New timeouts never break this at once, however they are chosen.
   */
  lemma StepKeepsLiveIff(s: State, ev: Event)
    requires Good(s, IDLE) && Live(s) && ValidEvent(ev)
    ensures Live(Step(s, ev)) <==> !JoinsLate(s, ev)
  {
    hide Good, Live, LateIdle, Nobody, Joins, Clocks, Survives, Quota, LateSet;
    forall e | LateIdle(s, e) ensures !Nobody(Step(s, ev).ses, e) <==> Joins(s, ev, e) {
      LateNobody(s, e);
      JoinsIff(s, ev, e);
    }
    assert JoinsLate(s, ev) <==> !(forall e :: LateIdle(s, e) ==> Nobody(Step(s, ev).ses, e));
    LiveOrNobody(s, ev);
  }

  lemma LateNobody(s: State, e: Expirer)
    requires Good(s, IDLE) && LateIdle(s, e)
    ensures Nobody(s.ses, e)
  {
    hide Good, Nobody;
    EmptyIff(s, IDLE, e);
  }

  lemma LiveOrNobody(s: State, ev: Event)
    requires Good(s, IDLE) && Live(s) && ValidEvent(ev)
    ensures Live(Step(s, ev)) <==> forall e :: LateIdle(s, e) ==> Nobody(Step(s, ev).ses, e)
  {
    hide Good, Live, LateIdle, Nobody, Clocks, Survives, Quota, LateSet, Clean, SetTimeouts, RmPool4, DeleteRange;
    LiveIsPrompt(s);
    if ev.Configure? || ev.Pass? || ev.Resize? {
      QuietLive(s, ev);
    } else if ev.TimerFires? {
      CleanLive(s, ev.list, ev.starved);
      StillLate(s);
    } else if ev.LeavePool4? {
      var m := DeleteRange(s, PROTOS, ev.scope);
      DeleteRangeGood(s, PROTOS, ev.scope, Idle(LateSet(s)));
      EvolveDeleteRange(s, PROTOS, ev.scope);
      EvolvedLive(s, s.ses, m, None);
      RmPool4Sessions(s, ev.scope);
      LiveFields(m, Step(s, ev));
    } else {
      StepKeepsIff(s, ev, LateSet(s));
      EvolveStep(s, ev);
      EvolvedLive(s, s.ses, Step(s, ev), None);
    }
  }

  lemma StillLate(s: State)
    requires Good(s, IDLE)
    ensures forall e :: LateIdle(s, e) ==> Nobody(s.ses, e)
  {
    hide Good, Nobody, LateIdle;
    forall e | LateIdle(s, e) ensures Nobody(s.ses, e) {
      LateNobody(s, e);
    }
  }

  lemma QuietLive(s: State, ev: Event)
    requires Good(s, IDLE) && Live(s) && ValidEvent(ev) && (ev.Configure? || ev.Pass? || ev.Resize?)
    ensures Live(Step(s, ev)) && forall e :: LateIdle(s, e) ==> Nobody(Step(s, ev).ses, e)
  {
    hide Good, Live, LateIdle, SetTimeouts;
    StillLate(s);
    match ev
    case Configure(ts) =>
      ConfigureLive(s, ts);
      SetTimeoutsDoes(s, ts);
    case Pass(ticks) => PassLive(s, ticks);
    case Resize(n) => LiveFields(s, s.(maxPackets := n));
  }

  // ------------------------------------------------------------------ runs

  ghost predicate AlwaysLive(s: State, evs: seq<Event>)
    requires forall ev :: ev in evs ==> ValidEvent(ev)
    decreases |evs|
  {
    Live(s) && (evs != [] ==> AlwaysLive(Step(s, evs[0]), evs[1..]))
  }

  ghost predicate NeverJoinsLate(s: State, evs: seq<Event>)
    requires forall ev :: ev in evs ==> ValidEvent(ev)
    decreases |evs|
  {
    evs != [] ==> !JoinsLate(s, evs[0]) && NeverJoinsLate(Step(s, evs[0]), evs[1..])
  }

  /** All along a run every timer is due in time, exactly if no step makes a session wait for a late one. */
  lemma {:induction false} TimersStayLiveIff(s: State, evs: seq<Event>)
    requires Good(s, IDLE) && Live(s) && (forall ev :: ev in evs ==> ValidEvent(ev)) && AllSafe(s, evs)
    ensures AlwaysLive(s, evs) <==> NeverJoinsLate(s, evs)
    ensures NeverJoinsLate(s, evs) ==> Live(Run(s, evs))
    decreases |evs|
  {
    hide Good, Live, Step, Safe, JoinsLate;
    if evs == [] {
      assert AlwaysLive(s, evs) && Run(s, evs) == s;
    } else {
      var r := Step(s, evs[0]);
      StepKeepsLiveIff(s, evs[0]);
      StepKeepsIff(s, evs[0], ANY);
      if Live(r) {
        TimersStayLiveIff(r, evs[1..]);
      }
    }
  }

  /** From the start: as long as no session joins an empty list whose timer is late, every timer is due in time. */
  lemma TimersAreLive(ts: Timeouts, maxPackets: nat, evs: seq<Event>)
    requires (forall ev :: ev in evs ==> ValidEvent(ev)) && AllSafe(Init(ts, maxPackets), evs)
    ensures AlwaysLive(Init(ts, maxPackets), evs) <==> NeverJoinsLate(Init(ts, maxPackets), evs)
    ensures NeverJoinsLate(Init(ts, maxPackets), evs) ==> Live(Run(Init(ts, maxPackets), evs))
  {
    hide Good, Step, Safe, JoinsLate, AllSafe;
    InitGood(ts, maxPackets, ANY);
    assert Live(Init(ts, maxPackets));
    TimersStayLiveIff(Init(ts, maxPackets), evs);
  }
}
