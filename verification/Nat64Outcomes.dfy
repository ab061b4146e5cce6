/** What each packet leaves behind: what one that goes on finds in the table, and that the others change nothing there. */
module Nat64Outcomes {

  import opened Types
  import opened TableWalk
  import opened Nat64
  import opened Nat64Inv
  import opened Nat64Tables
  import opened Nat64Steps
  import opened Nat64Packets
  import opened Nat64Timers
  import opened Nat64Requests
  import opened Nat64Ranges
  import opened Nat64Flush
  import opened Nat64Runs

  // ------------------------------------------------------------------ the state machine, seen from where it leads

  /** Section 3.5.2.2 of RFC 6146: which packets lead to each state, and which clock each packet restarts. */
  lemma MachineByTarget(t: Tcp, p: Flags)
    requires !t.state.CLOSED?
    ensures var (r, fate) := Machine(t, p);
            && r == t.(state := r.state)
            && (r.state.ESTABLISHED? <==>
                  || (t.state.V4_INIT? && p.from6 && p.syn) || (t.state.V6_INIT? && !p.from6 && p.syn)
                  || (t.state.ESTABLISHED? && !p.fin && !p.rst) || (t.state.TRANS? && !p.rst))
            && (r.state.TRANS? <==> (t.state.ESTABLISHED? && p.rst && !p.fin) || (t.state.TRANS? && p.rst))
            && (r.state.V4_FIN_RCV? <==>
                  || (t.state.ESTABLISHED? && p.fin && !p.from6) || (t.state.V4_FIN_RCV? && !(p.fin && p.from6)))
            && (r.state.V6_FIN_RCV? <==>
                  || (t.state.ESTABLISHED? && p.fin && p.from6) || (t.state.V6_FIN_RCV? && !(p.fin && !p.from6)))
            && (r.state in {V4_INIT, V6_INIT, CLOSED} ==> r.state == t.state)
            && (fate.TimerEst? <==>
                  r.state.ESTABLISHED? || (r.state == t.state && r.state in {V4_FIN_RCV, V6_FIN_RCV}))
            && (fate.TimerTrans? <==>
                  || (r.state != t.state && r.state in {TRANS, V4_FIN_V6_FIN_RCV})
                  || (t.state.V6_INIT? && p.from6 && p.syn))
            && (fate.TimerEst? || fate.TimerTrans? || fate.Preserve?)
  {
  }

  // ------------------------------------------------------------------ sessions that are opened

  ghost predicate TablesSame(s: State, r: State) {
    r.ses.by6 == s.ses.by6 && r.ses.by4 == s.ses.by4 && r.ses.expirer == s.ses.expirer
  }

  /** Which list a packet puts its session at the end of, if it restarts the clock. */
  function Restart(proto: Proto, t: Tcp, p: Flags): Option<Kind> {
    if !proto.TCP? then Some(Est)
    else
      match Machine(Nat64.Seen(t, p), p).1
      case TimerEst => Some(Est)
      case TimerTrans => Some(Trans)
      case _ => None
  }

  /** The packet's session is where it was, or at the end of the list the packet puts it on. */
  ghost predicate Restarted(s: State, r: State, i: SesId, p: Flags) {
    && i in s.ses.flows && r.ses.by6 == s.ses.by6 && r.ses.by4 == s.ses.by4
    && (var kind := Restart(s.ses.flows[i].proto, TcpOf(s.ses.tcp, i), p);
        r.ses.expirer == if kind.None? then s.ses.expirer
                         else s.ses.expirer[i := Expirer(s.ses.flows[i].proto, kind.value)])
  }

  /** Exactly one session more: `f`, on the list of its kind, with its clock just started. */
  ghost predicate Opened(s: State, r: State, i: SesId, f: Flow, kind: Kind, t: Tcp) {
    && r.ses.by6 == s.ses.by6[KeyOf6(f) := i] && r.ses.by4 == s.ses.by4[KeyOf4(f) := i]
    && r.ses.expirer == s.ses.expirer[i := Expirer(f.proto, kind)]
    && i in r.ses.flows && r.ses.flows[i] == f
    && TcpOf(r.ses.tcp, i) == t && TimeOf(r.ses.time, i) == r.now && r.now == s.now
  }

  lemma MoveIndexes(s: State, i: SesId, kind: Kind)
    requires i in s.ses.flows
    ensures Move(s, i, kind).ses.by6 == s.ses.by6 && Move(s, i, kind).ses.by4 == s.ses.by4
    ensures Move(s, i, kind).ses.expirer == s.ses.expirer[i := Expirer(s.ses.flows[i].proto, kind)]
  {
    hide Attach, Without;
    AttachFields(Detach(s.ses, i), i, Expirer(s.ses.flows[i].proto, kind), s.timeouts, s.now);
  }

  /** sessiontable_add opens the session or leaves the tables as they were. */
  lemma AddOutcome(s: State, i: SesId, f: Flow, kind: Kind, t: Tcp, c: Ctx)
    requires Good(s, c) && i in c.hs && Newborn(s, i, f, t)
    ensures var (r, ok) := SessionAdd(s, i, kind);
            if ok then Opened(s, r, i, f, kind, t) else TablesSame(s, r)
  {
    hide Core, Armed, TcpLists, Prompt, SessionAdd, QueueRemove, Attach;
    var k := KeyOf4(f);
    QueueRemoveFrame(s, k, c.hb, c.hs);
    SessionAddCases(s, i, kind);
    var s1 := QueueRemove(s, k);
    var d := s1.ses;
    AttachFields(d.(by6 := d.by6[KeyOf6(f) := i], by4 := d.by4[KeyOf4(f) := i]), i, Expirer(f.proto, kind),
                 s1.timeouts, s1.now);
  }

  lemma OpenedReturn(s: State, m: State, i: SesId, f: Flow, kind: Kind, t: Tcp, c: Ctx)
    requires Good(m, c) && i in c.hs && Opened(s, m, i, f, kind, t)
    ensures Opened(s, SessionReturn(m, i), i, f, kind, t)
  {
    hide Good, SessionReturn, TcpOf, TimeOf;
    SessionReturnSame(m, i, c);
    StoredFlows(m, c);
  }

  lemma SameReturn(s: State, m: State, i: SesId)
    requires TablesSame(s, m)
    ensures TablesSame(s, SessionReturn(m, i))
  {
    SessionReturnFrame(m, i);
    hide SessionReturn;
  }

  /** The new session is the one CreateSession made; `base` is the state before that. */
  lemma AddAndReturnOutcome(base: State, s: State, i: SesId, f: Flow, kind: Kind, t: Tcp, c: Ctx)
    requires Good(s, c) && c.changing == None && i in c.hs && Newborn(s, i, f, t)
    requires f.bib.Some? && OnRightList(t, Expirer(f.proto, kind)) && TablesSame(base, s) && base.now == s.now
    ensures var (r, ok) := SessionAdd(s, i, kind);
            if ok then Opened(base, SessionReturn(r, i), i, f, kind, t) else TablesSame(base, SessionReturn(r, i))
  {
    hide Good, SessionAdd, SessionReturn, TcpOf, TimeOf, OnRightList;
    AddOutcome(s, i, f, kind, t, c);
    SessionAddGood(s, i, kind, c);
    var (r, ok) := SessionAdd(s, i, kind);
    if ok {
      OpenedReturn(base, r, i, f, kind, t, c);
    } else {
      SameReturn(base, r, i);
    }
  }

  lemma CreateOutcome(s: State, flow: Option<Flow>, t: Tcp, memory: bool)
    ensures var (r, i) := CreateSession(s, flow, t, memory);
            TablesSame(s, r) && r.now == s.now && r.queue == s.queue && (i.Some? ==> i.value == s.ses.next)
  {
  }

  /** Simple, for a packet whose session was not there. */
  lemma SimpleOutcome(s: State, b: BibId, flow: Option<Flow>, memory: bool, c: Ctx)
    requires Good(s, c) && c.changing == None
    requires flow.Some? ==> Linked(s.bib.entries, flow.value) && flow.value.bib.Some? && !flow.value.proto.TCP?
    ensures var (r, v) := Simple(s, b, None, flow, memory);
            && (v.Continue? || v.Drop?)
            && (v.Continue? ==> flow.Some? && Opened(s, r, s.ses.next, flow.value, Est, BLANK))
            && (v.Drop? ==> TablesSame(s, r))
  {
    hide Good, Linked, SessionAdd, SessionReturn, CreateSession, BibReturn, TcpOf, TimeOf;
    CreateGood(s, flow, BLANK, memory, c);
    CreateOutcome(s, flow, BLANK, memory);
    var (s1, created) := CreateSession(s, flow, BLANK, memory);
    if created.Some? {
      var i := created.value;
      AddAndReturnOutcome(s, s1, i, flow.value, Est, BLANK, HoldSes(c, i));
    }
  }

  lemma FoundOutcome(s: State, b: BibId, i: SesId, flow: Option<Flow>, memory: bool)
    requires i in s.ses.flows
    ensures var (r, v) := Simple(s, b, Some(i), flow, memory);
            && v.Continue? && r.ses.by6 == s.ses.by6 && r.ses.by4 == s.ses.by4
            && r.ses.expirer == s.ses.expirer[i := Expirer(s.ses.flows[i].proto, Est)]
  {
    hide SessionReturn, BibReturn, Move;
    var m := SessionGet(s, i);
    MoveIndexes(m, i, Est);
    SessionReturnFrame(Move(m, i, Est), i);
  }

  // ------------------------------------------------------------------ bindings that are made

  /**
   The first packet of an unbound source is bound to exactly the address the port allocator chose, if that is free as
   the allocator promises; an address in use is refused and leaves the BIB as it was.
   */
  lemma FreeMaskIsBound(s: State, p: Packet6, env: Env6, late: set<Expirer>)
    requires Good(s, Idle(late)) && BibFind6(s.bib, End6(p.proto, p.src)).None?
    requires env.dst4.Some? && env.mask.Some? && env.bibMemory
    ensures var (r, b) := GetOrCreateBib6(s, p, env);
            var m := Mapping(p.proto, p.src, env.mask.value);
            if BibFind4(s.bib, EndOf4(m)).None? then
              b == Some(s.bib.next) && r.bib.entries == s.bib.entries[s.bib.next := m]
            else b == None && r == s
  {
    hide Good;
    BibFacts(s, Idle(late));
    BibAddGood(s, Mapping(p.proto, p.src, env.mask.value), false, Idle(late));
  }

  // ------------------------------------------------------------------ IPv6 packets

  /** What create_session makes of an IPv6 packet whose source is bound. */
  ghost predicate FlowOf6(f: Flow, p: Packet6, env: Env6, entries: map<BibId, Mapping>) {
    && f.proto == p.proto && f.remote6 == p.src && f.local6 == p.dst && Linked(entries, f) && f.bib.Some?
    && env.dst4.Some?
    && f.remote4 == Taddr4(env.dst4.value, if p.proto.ICMP? then f.local4.l4 else p.dst.l4)
  }

  lemma Ipv6SimpleOutcome(s: State, p: Packet6, env: Env6, late: set<Expirer>) returns (f: Flow)
    requires Good(s, Idle(late)) && !p.proto.TCP?
    ensures var (r, v) := Ipv6Simple(s, p, env);
            && (v.Continue? || v.Drop?)
            && (v.Drop? ==> TablesSame(s, r))
            && (v.Continue? ==>
                  var found := SessionFind6(s.ses, Key6(p.proto, p.dst, p.src));
                  if found.Some? then Restarted(s, r, found.value, Flags(true, p.syn, p.fin, p.rst))
                  else Opened(s, r, s.ses.next, f, Est, BLANK) && FlowOf6(f, p, env, GetOrCreateBib6(s, p, env).0.bib.entries))
  {
    hide Good, GetOrCreateBib6, Simple;
    f := Flow(p.proto, p.src, p.dst, Taddr4(0, 0), Taddr4(0, 0), None);
    GetOrCreateBib6Good(s, p, env, Idle(late));
    var (s1, b) := GetOrCreateBib6(s, p, env);
    if b.Some? {
      var found, flow := SessionFind6(s1.ses, Key6(p.proto, p.dst, p.src)), FlowFrom6(s1, p, b.value, env);
      FoundFacts(s1, HoldBib(Idle(late), b.value));
      if found.Some? {
        FoundOutcome(s1, b.value, found.value, flow, env.sessionMemory);
      } else {
        SimpleOutcome(s1, b.value, flow, env.sessionMemory, HoldBib(Idle(late), b.value));
        f := if flow.Some? then flow.value else f;
      }
    }
  }

  const OPENED_BY_6 := Tcp(V6_INIT, false, true, false, false)
  const OPENED_BY_4 := Tcp(V4_INIT, true, false, false, false)

  lemma ClosedSyn6Outcome(s: State, p: Packet6, env: Env6, late: set<Expirer>) returns (f: Flow)
    requires Good(s, Idle(late)) && p.proto.TCP?
    ensures var (r, v) := ClosedSyn6(s, p, env);
            && (v.Continue? || v.Drop?)
            && (v.Drop? ==> TablesSame(s, r))
            && (v.Continue? ==>
                  Opened(s, r, s.ses.next, f, Trans, OPENED_BY_6)
                  && FlowOf6(f, p, env, GetOrCreateBib6(s, p, env).0.bib.entries))
  {
    hide Good, GetOrCreateBib6, CreateSession, SessionAdd, SessionReturn, BibReturn, TcpOf, TimeOf;
    f := Flow(p.proto, p.src, p.dst, Taddr4(0, 0), Taddr4(0, 0), None);
    GetOrCreateBib6Good(s, p, env, Idle(late));
    var (s1, b) := GetOrCreateBib6(s, p, env);
    if b.Some? {
      var flow, c1 := FlowFrom6(s1, p, b.value, env), HoldBib(Idle(late), b.value);
      CreateGood(s1, flow, OPENED_BY_6, env.sessionMemory, c1);
      CreateOutcome(s1, flow, OPENED_BY_6, env.sessionMemory);
      var (s2, i) := CreateSession(s1, flow, OPENED_BY_6, env.sessionMemory);
      if i.Some? {
        f := flow.value;
        AddAndReturnOutcome(s1, s2, i.value, f, Trans, OPENED_BY_6, HoldSes(c1, i.value));
      }
    }
  }

  lemma ClosedOtherOutcome(s: State, b: Option<BibId>)
    ensures TablesSame(s, ClosedOther(s, b).0) && (ClosedOther(s, b).1.Continue? || ClosedOther(s, b).1.Drop?)
  {
  }

  /** The packet's TCP state moves as the machine says; no index changes, and a restarted clock starts now. */
  lemma TcpFoundOutcome(s: State, i: SesId, p: Flags, late: set<Expirer>)
    requires Good(s, Idle(late)) && i in s.ses.expirer && i in s.ses.flows && s.ses.flows[i].proto.TCP?
    ensures var r := TcpFound(s, i, p);
            var (t, fate) := Machine(Seen(TcpOf(s.ses.tcp, i), p), p);
            && Restarted(s, r, i, p)
            && i in r.ses.expirer && TcpOf(r.ses.tcp, i) == t
            && (fate.TimerEst? ==> r.ses.expirer[i].kind.Est? && TimeOf(r.ses.time, i) == s.now)
            && (fate.TimerTrans? ==> r.ses.expirer[i].kind.Trans? && TimeOf(r.ses.time, i) == s.now)
            && (fate.Preserve? ==> r.ses.expirer == s.ses.expirer && r.ses.time == s.ses.time)
  {
    hide Good, Agrees, Machine, Seen, SessionReturn, Attach, Without;
    TableFacts(s, Idle(late), i);
    ListFacts(s, i, Idle(late));
    MachineAgrees(TcpOf(s.ses.tcp, i), s.ses.expirer[i].kind, p);
    var (t, fate) := Machine(Seen(TcpOf(s.ses.tcp, i), p), p);
    var s1 := SetTcp(SessionGet(s, i), i, t);
    var kind := if fate.TimerEst? then Est else Trans;
    AttachFields(Detach(s1.ses, i), i, Expirer(s1.ses.flows[i].proto, kind), s.timeouts, s.now);
    var s2 := DecideFate(s1, Pending([], []), i, fate, true).0;
    assert s2.ses.refs[i] == s.ses.refs[i] + 1 && s.ses.refs[i] >= 1 by { StoredCount(s, i, late); }
    ReturnKeepsAll(s2, i);
  }

  lemma StoredCount(s: State, i: SesId, late: set<Expirer>)
    requires Good(s, Idle(late)) && i in s.ses.flows
    ensures i in s.ses.refs && s.ses.refs[i] >= 1
  {
    hide BibIndex, Links, BibRefs, SesIndex, Lists, Sorted, Past, QueueIndex, QueueTimes, Conserved, Exclusive;
    hide Armed, TcpLists, Prompt;
  }

  lemma ReturnKeepsAll(s: State, i: SesId)
    requires i in s.ses.refs && s.ses.refs[i] > 1
    ensures var r := SessionReturn(s, i);
            && r.ses.expirer == s.ses.expirer && r.ses.tcp == s.ses.tcp && r.ses.time == s.ses.time
            && r.ses.by6 == s.ses.by6 && r.ses.by4 == s.ses.by4
  {
  }

  /**
   A packet that is not let through leaves both tables as they were. One that is let through, and had no session,
   opens exactly the session of its own addresses and of the binding of its source, in the state and on the list
   that go with its protocol; if it had one, no session is opened or lost.
   */
  lemma Packet6Outcome(s: State, p: Packet6, env: Env6, late: set<Expirer>) returns (f: Flow)
    requires Good(s, Idle(late))
    ensures var (r, v) := From6(s, p, env);
            var found := SessionFind6(s.ses, Key6(p.proto, p.dst, p.src));
            && (!v.Continue? ==> TablesSame(s, r))
            && (v.Continue? && !env.icmpError ==>
                  if found.Some? then Restarted(s, r, found.value, Flags(true, p.syn, p.fin, p.rst))
                  else if p.proto.TCP? && !p.syn then TablesSame(s, r)
                  else
                    && FlowOf6(f, p, env, r.bib.entries)
                    && (if p.proto.TCP? then Opened(s, r, s.ses.next, f, Trans, OPENED_BY_6)
                        else Opened(s, r, s.ses.next, f, Est, BLANK)))
  {
    hide Good, TcpFound, ClosedSyn6, ClosedOther, Ipv6Simple, GetOrCreateBib6, TcpOf, TimeOf, Machine;
    f := Flow(p.proto, p.src, p.dst, Taddr4(0, 0), Taddr4(0, 0), None);
    From6Good(s, p, env, Idle(late));
    FoundFacts(s, Idle(late));
    var found := SessionFind6(s.ses, Key6(p.proto, p.dst, p.src));
    if p.proto.TCP? {
      if found.Some? {
        TcpFoundOutcome(s, found.value, Flags(true, p.syn, p.fin, p.rst), late);
      } else if p.syn {
        f := ClosedSyn6Outcome(s, p, env, late);
      } else {
        ClosedOtherOutcome(s, BibFind6(s.bib, End6(p.proto, p.src)));
      }
    } else {
      f := Ipv6SimpleOutcome(s, p, env, late);
    }
    var (r, v) := From6(s, p, env);
    if v.Continue? && !env.icmpError && found.None? && (p.proto.TCP? ==> p.syn) {
      FoundIs(r, Idle(late), s.ses.next);
    }
  }

  /**
   So a packet that goes on can be translated, exactly unless it is TCP without SYN and had a BIB entry only: its
   source becomes the mask it is bound to. ICMP errors go on without looking at the tables.
   */
  lemma TranslatableIff6(s: State, p: Packet6, env: Env6, late: set<Expirer>)
    requires Good(s, Idle(late)) && From6(s, p, env).1.Continue? && !env.icmpError
    ensures var r := From6(s, p, env).0;
            var out := OutTuple6(r, p.proto, p.src, p.dst);
            var found := SessionFind6(s.ses, Key6(p.proto, p.dst, p.src));
            && (out.Some? <==> found.Some? || !p.proto.TCP? || p.syn)
            && (out.Some? ==>
                  exists b :: b in r.bib.entries && r.bib.entries[b] == Mapping(p.proto, p.src, out.value.0))
            && (out.Some? && found.None? ==>
                  env.dst4.Some?
                  && out.value.1 == Taddr4(env.dst4.value, if p.proto.ICMP? then out.value.0.l4 else p.dst.l4))
  {
    hide Good, From6, TcpOf, TimeOf;
    var r, k := From6(s, p, env).0, Key6(p.proto, p.dst, p.src);
    From6Good(s, p, env, Idle(late));
    FoundFacts(s, Idle(late));
    FoundFacts(r, Idle(late));
    var f := Packet6Outcome(s, p, env, late);
    if k in r.ses.by6 {
      var i := r.ses.by6[k];
      FoundIs(r, Idle(late), i);
      assert r.ses.flows[i].bib.value in r.bib.entries;
    }
  }

  // ------------------------------------------------------------------ IPv4 packets

  /** What create_session makes of an IPv4 packet whose destination is bound. */
  ghost predicate FlowOf4(f: Flow, p: Packet4, env: Env4, entries: map<BibId, Mapping>) {
    && f.proto == p.proto && f.local4 == p.dst && f.remote4 == p.src && Linked(entries, f) && f.bib.Some?
    && env.src6.Some?
    && f.local6 == Taddr6(env.src6.value, if p.proto.ICMP? then f.remote6.l4 else p.src.l4)
  }

  lemma BoundFlow4(s: State, p: Packet4, b: BibId, env: Env4, late: set<Expirer>)
    requires Good(s, Idle(late)) && BibFind4(s.bib, End4(p.proto, p.dst)) == Some(b)
    ensures var s1 := s.(bib := BibGet(s.bib, b));
            var flow := FlowFrom4(s1, p, Some(b), env);
            && Good(s1, HoldBib(Idle(late), b))
            && (flow.Some? ==> Linked(s1.bib.entries, flow.value) && FlowOf4(flow.value, p, env, s.bib.entries))
            && (flow.None? ==> env.src6.None?)
  {
    hide Good, BibGet;
    BibFacts(s, Idle(late));
    BibGetGood(s, b, Idle(late));
    BibGetEntries(s.bib, b);
  }

  lemma Ipv4SimpleOutcome(s: State, p: Packet4, env: Env4, late: set<Expirer>) returns (f: Flow)
    requires Good(s, Idle(late)) && !p.proto.TCP?
    ensures var (r, v) := Ipv4Simple(s, p, env);
            && (v.Continue? || v.Drop? || v.Accept?)
            && (!v.Continue? ==> TablesSame(s, r))
            && (v.Continue? ==>
                  var found := SessionFind4(s.ses, Key4(p.proto, p.dst, p.src));
                  if found.Some? then Restarted(s, r, found.value, Flags(false, p.syn, p.fin, p.rst))
                  else Opened(s, r, s.ses.next, f, Est, BLANK) && FlowOf4(f, p, env, s.bib.entries))
  {
    hide Good, Simple, BibGet, BibReturn, Allow, FlowFrom4;
    f := Flow(p.proto, Taddr6(0, 0), Taddr6(0, 0), p.dst, p.src, None);
    var b := BibFind4(s.bib, End4(p.proto, p.dst));
    if b.Some? {
      var s1 := s.(bib := BibGet(s.bib, b.value));
      BoundFlow4(s, p, b.value, env, late);
      var found, flow := SessionFind4(s1.ses, Key4(p.proto, p.dst, p.src)), FlowFrom4(s1, p, b, env);
      FoundFacts(s, Idle(late));
      if found.Some? {
        FoundOutcome(s1, b.value, found.value, flow, env.sessionMemory);
      } else {
        SimpleOutcome(s1, b.value, flow, env.sessionMemory, HoldBib(Idle(late), b.value));
        f := if flow.Some? then flow.value else f;
      }
    }
  }

  lemma QueueAddOutcome(s: State, i: SesId, packet: PacketId, memory: bool)
    requires i in s.ses.flows
    ensures var (r, ok) := QueueAdd(s, i, packet, memory);
            && TablesSame(s, r)
            && (if ok then r.queue.nodes == s.queue.nodes + [i] && r.queue.entered == s.queue.entered + multiset{packet}
                else r.queue == s.queue)
  {
  }

  lemma ClosedSyn4HeldOutcome(s: State, p: Packet4, env: Env4, b: Option<BibId>, c: Ctx)
    requires Good(s, c) && c.changing == None && p.proto.TCP?
    requires var flow := FlowFrom4(s, p, b, env);
             flow.Some? ==> Linked(s.bib.entries, flow.value) && flow.value.proto.TCP? && (b.Some? ==> flow.value.bib.Some?)
    ensures var (r, v) := ClosedSyn4Held(s, p, env, b);
            && !v.Accept?
            && (!v.Continue? ==> TablesSame(s, r))
            && (v.Stolen? ==>
                  r.queue.nodes == s.queue.nodes + [s.ses.next]
                  && r.queue.entered == s.queue.entered + multiset{p.id})
            && (v.Continue? ==>
                  var flow := FlowFrom4(s, p, b, env);
                  b.Some? && flow.Some? && Opened(s, r, s.ses.next, flow.value, Trans, OPENED_BY_4))
  {
    hide Good, CreateSession, SessionAdd, SessionReturn, QueueAdd, FlowFrom4, TcpOf, TimeOf, Linked;
    var flow := FlowFrom4(s, p, b, env);
    CreateGood(s, flow, OPENED_BY_4, env.sessionMemory, c);
    CreateOutcome(s, flow, OPENED_BY_4, env.sessionMemory);
    var (s2, i) := CreateSession(s, flow, OPENED_BY_4, env.sessionMemory);
    if i.Some? {
      if b.None? || env.filtering {
        var s3 := QueueAdd(s2, i.value, p.id, env.nodeMemory).0;
        QueueAddOutcome(s2, i.value, p.id, env.nodeMemory);
        SameReturn(s, s3, i.value);
        SessionReturnFrame(s3, i.value);
      } else {
        AddAndReturnOutcome(s, s2, i.value, flow.value, Trans, OPENED_BY_4, HoldSes(c, i.value));
      }
    }
  }

  lemma ClosedSyn4Outcome(s: State, p: Packet4, env: Env4, late: set<Expirer>) returns (f: Flow)
    requires Good(s, Idle(late)) && p.proto.TCP?
    ensures var (r, v) := ClosedSyn4(s, p, env);
            && !v.Accept?
            && (!v.Continue? ==> TablesSame(s, r))
            && (v.Stolen? ==>
                  r.queue.nodes == s.queue.nodes + [s.ses.next]
                  && r.queue.entered == s.queue.entered + multiset{p.id})
            && (v.Continue? ==> Opened(s, r, s.ses.next, f, Trans, OPENED_BY_4) && FlowOf4(f, p, env, s.bib.entries))
  {
    hide Good, ClosedSyn4Held, BibGet, BibReturn, TcpOf, TimeOf;
    f := Flow(p.proto, Taddr6(0, 0), Taddr6(0, 0), p.dst, p.src, None);
    var b := BibFind4(s.bib, End4(p.proto, p.dst));
    if !env.dropExternal {
      if b.Some? {
        var s1 := s.(bib := BibGet(s.bib, b.value));
        BoundFlow4(s, p, b.value, env, late);
        var flow := FlowFrom4(s1, p, b, env);
        ClosedSyn4HeldOutcome(s1, p, env, b, HoldBib(Idle(late), b.value));
        f := if flow.Some? then flow.value else f;
      } else {
        UnboundFlow4(s, p, env);
        ClosedSyn4HeldOutcome(s, p, env, b, Idle(late));
      }
    }
  }

  lemma UnboundFlow4(s: State, p: Packet4, env: Env4)
    ensures var flow := FlowFrom4(s, p, None, env); flow.Some? ==> Linked(s.bib.entries, flow.value)
  {
  }

  /**
   The same from the IPv4 side. A SYN that is stored enters the queue once, under its own identity, and opens no
   session; a SYN that is let through opens one in V4_INIT.
   */
  lemma Packet4Outcome(s: State, p: Packet4, env: Env4, late: set<Expirer>) returns (f: Flow)
    requires Good(s, Idle(late))
    ensures var (r, v) := From4(s, p, env);
            var found := SessionFind4(s.ses, Key4(p.proto, p.dst, p.src));
            && (!v.Continue? ==> TablesSame(s, r))
            && (v.Stolen? ==>
                  r.queue.nodes == s.queue.nodes + [s.ses.next]
                  && r.queue.entered == s.queue.entered + multiset{p.id})
            && (v.Continue? && !env.icmpError ==>
                  if found.Some? then Restarted(s, r, found.value, Flags(false, p.syn, p.fin, p.rst))
                  else if p.proto.TCP? && !p.syn then TablesSame(s, r)
                  else
                    && FlowOf4(f, p, env, s.bib.entries)
                    && (if p.proto.TCP? then Opened(s, r, s.ses.next, f, Trans, OPENED_BY_4)
                        else Opened(s, r, s.ses.next, f, Est, BLANK)))
  {
    hide Good, TcpFound, ClosedSyn4, ClosedOther, Ipv4Simple, TcpOf, TimeOf, Machine;
    f := Flow(p.proto, Taddr6(0, 0), Taddr6(0, 0), p.dst, p.src, None);
    FoundFacts(s, Idle(late));
    var found := SessionFind4(s.ses, Key4(p.proto, p.dst, p.src));
    if p.proto.TCP? {
      if found.Some? {
        TcpFoundOutcome(s, found.value, Flags(false, p.syn, p.fin, p.rst), late);
      } else if p.syn {
        f := ClosedSyn4Outcome(s, p, env, late);
      } else {
        ClosedOtherOutcome(s, BibFind4(s.bib, End4(p.proto, p.dst)));
      }
    } else {
      f := Ipv4SimpleOutcome(s, p, env, late);
    }
  }

  /** The same for IPv4 packets: the destination becomes the IPv6 address that is bound to it. */
  lemma TranslatableIff4(s: State, p: Packet4, env: Env4, late: set<Expirer>)
    requires Good(s, Idle(late)) && From4(s, p, env).1.Continue? && !env.icmpError
    ensures var r := From4(s, p, env).0;
            var out := OutTuple4(r, p.proto, p.src, p.dst);
            var found := SessionFind4(s.ses, Key4(p.proto, p.dst, p.src));
            && (out.Some? <==> found.Some? || !p.proto.TCP? || p.syn)
            && (out.Some? ==>
                  exists b :: b in r.bib.entries && r.bib.entries[b] == Mapping(p.proto, out.value.1, p.dst))
            && (out.Some? && found.None? ==>
                  env.src6.Some?
                  && out.value.0 == Taddr6(env.src6.value, if p.proto.ICMP? then out.value.1.l4 else p.src.l4))
  {
    hide Good, From4, TcpOf, TimeOf;
    var r, k := From4(s, p, env).0, Key4(p.proto, p.dst, p.src);
    From4Good(s, p, env, Idle(late));
    FoundFacts(s, Idle(late));
    FoundFacts(r, Idle(late));
    var f := Packet4Outcome(s, p, env, late);
    if k in r.ses.by4 {
      var i := r.ses.by4[k];
      FoundIs(r, Idle(late), i);
      assert r.ses.flows[i].bib.value in r.bib.entries;
    }
  }

  // ------------------------------------------------------------------ which packets open a session

  /** The mask the packet's source has, or would get. */
  function Mask6(s: State, p: Packet6, env: Env6): Option<Taddr4> {
    var b := BibFind6(s.bib, End6(p.proto, p.src));
    if b.Some? then Some(s.bib.entries[b.value].ipv4)
    else if env.dst4.Some? && env.mask.Some? && env.bibMemory && BibFind4(s.bib, End4(p.proto, env.mask.value)).None? then
      env.mask
    else None
  }

  predicate Opens6(s: State, p: Packet6, env: Env6) {
    && !env.hairpin && env.inPool6 && !env.icmpError
    && SessionFind6(s.ses, Key6(p.proto, p.dst, p.src)).None?
    && (if p.proto.TCP? then p.syn else !(p.proto.ICMP? && env.filterPings))
    && env.dst4.Some? && env.sessionMemory && Mask6(s, p, env).Some?
    && (var mask := Mask6(s, p, env).value;
        Key4(p.proto, mask, Taddr4(env.dst4.value, if p.proto.ICMP? then mask.l4 else p.dst.l4)) !in s.ses.by4)
  }

  predicate Opens4(s: State, p: Packet4, env: Env4) {
    var b := BibFind4(s.bib, End4(p.proto, p.dst));
    && env.inPool4 && !env.icmpError
    && SessionFind4(s.ses, Key4(p.proto, p.dst, p.src)).None?
    && b.Some? && env.src6.Some? && env.sessionMemory
    && (if p.proto.TCP? then p.syn && !env.dropExternal && !env.filtering else env.filtering ==> Allow(s.ses, p))
    && KeyOf6(NewFlow4(p, b.value, s.bib.entries[b.value], env.src6.value)) !in s.ses.by6
  }

  /** Which mask get_or_create_bib6 gives, and whether it gives one. */
  lemma MaskIs(s: State, p: Packet6, env: Env6, c: Ctx)
    requires Good(s, c)
    ensures var (r, b) := GetOrCreateBib6(s, p, env);
            && (b.Some? <==> Mask6(s, p, env).Some?)
            && (b.Some? ==> b.value in r.bib.entries && r.bib.entries[b.value].ipv4 == Mask6(s, p, env).value)
            && r.ses == s.ses && r.queue == s.queue && r.now == s.now && r.timeouts == s.timeouts
  {
    hide Good;
    BibFacts(s, c);
  }

  /** sessiontable_add refuses exactly the sessions whose addresses are taken on one side. */
  lemma AddOkIff(s: State, i: SesId, f: Flow, kind: Kind, t: Tcp, c: Ctx)
    requires Good(s, c) && i in c.hs && Newborn(s, i, f, t)
    ensures SessionAdd(s, i, kind).1 <==> KeyOf6(f) !in s.ses.by6 && KeyOf4(f) !in s.ses.by4
  {
    hide Core, Armed, TcpLists, Prompt, SessionAdd, QueueRemove;
    QueueRemoveFrame(s, KeyOf4(f), c.hb, c.hs);
    SessionAddCases(s, i, kind);
  }

  /** Create the session of a flow and add it, with the BIB entry held. */
  lemma CreateAddIff(s: State, flow: Option<Flow>, t: Tcp, kind: Kind, memory: bool, c: Ctx)
    requires Good(s, c) && c.changing == None
    requires flow.Some? ==> Linked(s.bib.entries, flow.value) && flow.value.bib.Some?
    ensures var (r, i) := CreateSession(s, flow, t, memory);
            && (i.Some? <==> flow.Some? && memory)
            && (i.Some? ==>
                  && i.value in r.ses.flows
                  && (SessionAdd(r, i.value, kind).1 <==>
                        KeyOf6(flow.value) !in s.ses.by6 && KeyOf4(flow.value) !in s.ses.by4))
  {
    hide Good, Linked, SessionAdd, CreateSession, TcpOf, TimeOf;
    CreateGood(s, flow, t, memory, c);
    CreateOutcome(s, flow, t, memory);
    CreatedIff(s, flow, t, memory);
    var (r, i) := CreateSession(s, flow, t, memory);
    if i.Some? {
      AddOkIff(r, i.value, flow.value, kind, t, HoldSes(c, i.value));
    }
  }

  lemma CreatedIff(s: State, flow: Option<Flow>, t: Tcp, memory: bool)
    ensures CreateSession(s, flow, t, memory).1.Some? <==> flow.Some? && memory
  {
  }

  lemma NotFound6(s: State, k: Key6, c: Ctx)
    requires Good(s, c)
    ensures SessionFind6(s.ses, k).None? <==> k !in s.ses.by6
  {
    hide Good;
    FoundFacts(s, c);
  }

  lemma NotFound4(s: State, k: Key4, c: Ctx)
    requires Good(s, c)
    ensures SessionFind4(s.ses, k).None? <==> k !in s.ses.by4
  {
    hide Good;
    FoundFacts(s, c);
  }

  lemma Open6Iff(s: State, p: Packet6, env: Env6, late: set<Expirer>)
    requires Good(s, Idle(late)) && SessionFind6(s.ses, Key6(p.proto, p.dst, p.src)).None?
    ensures !env.hairpin && env.inPool6 && !env.icmpError ==>
              && (p.proto.TCP? && p.syn ==> (ClosedSyn6(s, p, env).1.Continue? <==> Opens6(s, p, env)))
              && (!p.proto.TCP? && !(p.proto.ICMP? && env.filterPings) ==>
                    (Ipv6Simple(s, p, env).1.Continue? <==> Opens6(s, p, env)))
  {
    hide Good, GetOrCreateBib6, CreateSession, SessionAdd, SessionReturn, BibReturn, BibFind6, BibFind4, TcpOf;
    GetOrCreateBib6Good(s, p, env, Idle(late));
    MaskIs(s, p, env, Idle(late));
    NotFound6(s, Key6(p.proto, p.dst, p.src), Idle(late));
    var (s1, b) := GetOrCreateBib6(s, p, env);
    if b.Some? {
      var flow := FlowFrom6(s1, p, b.value, env);
      CreateAddIff(s1, flow, BLANK, Est, env.sessionMemory, HoldBib(Idle(late), b.value));
      CreateAddIff(s1, flow, OPENED_BY_6, Trans, env.sessionMemory, HoldBib(Idle(late), b.value));
      var (s2, i) := CreateSession(s1, flow, OPENED_BY_6, env.sessionMemory);
      if p.proto.TCP? {
        assert ClosedSyn6(s, p, env).1.Continue? <==> i.Some? && SessionAdd(s2, i.value, Trans).1;
      }
    }
  }

  /** An IPv6 packet opens a session exactly if it meets these conditions on the tables and its surroundings. */
  lemma Opens6Iff(s: State, p: Packet6, env: Env6, late: set<Expirer>)
    requires Good(s, Idle(late))
    ensures Opens6(s, p, env) <==>
            && From6(s, p, env).1.Continue? && !env.icmpError
            && SessionFind6(s.ses, Key6(p.proto, p.dst, p.src)).None? && (p.proto.TCP? ==> p.syn)
  {
    hide Good, TcpFound, ClosedSyn6, ClosedOther, Ipv6Simple, Mask6;
    if SessionFind6(s.ses, Key6(p.proto, p.dst, p.src)).None? {
      Open6Iff(s, p, env, late);
    }
  }

  lemma Open4Iff(s: State, p: Packet4, env: Env4, late: set<Expirer>)
    requires Good(s, Idle(late)) && SessionFind4(s.ses, Key4(p.proto, p.dst, p.src)).None?
    ensures env.inPool4 && !env.icmpError ==>
              && (p.proto.TCP? && p.syn ==> (ClosedSyn4(s, p, env).1.Continue? <==> Opens4(s, p, env)))
              && (!p.proto.TCP? ==> (Ipv4Simple(s, p, env).1.Continue? <==> Opens4(s, p, env)))
  {
    hide Good, CreateSession, SessionAdd, SessionReturn, QueueAdd, BibReturn, BibGet, Allow, TcpOf;
    NotFound4(s, Key4(p.proto, p.dst, p.src), Idle(late));
    var b := BibFind4(s.bib, End4(p.proto, p.dst));
    if b.Some? {
      var s1 := s.(bib := BibGet(s.bib, b.value));
      BoundFlow4(s, p, b.value, env, late);
      BibGetEntries(s.bib, b.value);
      var flow := FlowFrom4(s1, p, b, env);
      CreateAddIff(s1, flow, BLANK, Est, env.sessionMemory, HoldBib(Idle(late), b.value));
      CreateAddIff(s1, flow, OPENED_BY_4, Trans, env.sessionMemory, HoldBib(Idle(late), b.value));
      var (s2, i) := CreateSession(s1, flow, OPENED_BY_4, env.sessionMemory);
      if p.proto.TCP? && p.syn {
        assert ClosedSyn4(s, p, env).1.Continue? <==>
               !env.dropExternal && !env.filtering && i.Some? && SessionAdd(s2, i.value, Trans).1;
      }
    }
  }

  lemma Opens4Iff(s: State, p: Packet4, env: Env4, late: set<Expirer>)
    requires Good(s, Idle(late))
    ensures Opens4(s, p, env) <==>
            && From4(s, p, env).1.Continue? && !env.icmpError
            && SessionFind4(s.ses, Key4(p.proto, p.dst, p.src)).None? && (p.proto.TCP? ==> p.syn)
  {
    hide Good, TcpFound, ClosedSyn4, ClosedOther, Ipv4Simple, Allow;
    if SessionFind4(s.ses, Key4(p.proto, p.dst, p.src)).None? {
      Open4Iff(s, p, env, late);
    }
  }
}
