/** The invariants through the handling of packets. */
module Nat64Packets {

  import opened Types
  import opened Nat64
  import opened Nat64Inv
  import opened Nat64Tables
  import opened Nat64Steps

  // ------------------------------------------------------------------ BIB entries of packets

  lemma BibFacts(s: State, c: Ctx)
    requires Good(s, c)
    ensures forall k :: k in s.bib.by6 ==> s.bib.by6[k] in s.bib.entries && EndOf6(s.bib.entries[s.bib.by6[k]]) == k
    ensures forall k :: k in s.bib.by4 ==> s.bib.by4[k] in s.bib.entries && EndOf4(s.bib.entries[s.bib.by4[k]]) == k
    ensures forall b :: b in s.bib.entries ==> b in s.bib.refs && s.bib.refs[b] > 0
  {
    hide Uses, Links, SesIndex, Lists, Sorted, Past, SesRefs, QueueIndex, QueueTimes, Conserved, Exclusive;
    hide Armed, TcpLists, Prompt;
  }

  ghost predicate OnlyBib(s: State, r: State) {
    r.(bib := s.bib) == s
  }

  lemma GetOrCreateBib6Good(s: State, p: Packet6, env: Env6, c: Ctx)
    requires Good(s, c)
    ensures var (r, b) := GetOrCreateBib6(s, p, env);
            && OnlyBib(s, r)
            && (b.None? ==> Good(r, c))
            && (b.Some? ==>
                  && Good(r, HoldBib(c, b.value))
                  && b.value in r.bib.entries && EndOf6(r.bib.entries[b.value]) == End6(p.proto, p.src))
  {
    hide Good;
    BibFacts(s, c);
    var found := BibFind6(s.bib, End6(p.proto, p.src));
    if found.Some? {
      BibGetGood(s, found.value, c);
    } else if env.mask.Some? {
      BibAddGood(s, Mapping(p.proto, p.src, env.mask.value), false, c);
    }
  }

  // ------------------------------------------------------------------ new sessions

  /** A session that has just been allocated: held by its creator only. */
  ghost predicate Newborn(s: State, i: SesId, f: Flow, t: Tcp) {
    && i in s.ses.flows && s.ses.flows[i] == f && TcpOf(s.ses.tcp, i) == t && TimeOf(s.ses.time, i) == s.now
    && i !in s.ses.expirer && i !in s.queue.nodes
  }

  lemma CreateGood(s: State, flow: Option<Flow>, t: Tcp, memory: bool, c: Ctx)
    requires Good(s, c) && (flow.Some? ==> Linked(s.bib.entries, flow.value))
    ensures var (r, i) := CreateSession(s, flow, t, memory);
            && (i.None? ==> r == s)
            && (i.Some? ==> flow.Some? && Good(r, HoldSes(c, i.value)) && Newborn(r, i.value, flow.value, t)
                            && r.ses.by4 == s.ses.by4)
  {
    hide Good, Linked;
    StoredIn(s, c);
    if flow.Some? {
      SessionAllocGood(s, flow.value, t, s.now, c);
    }
  }

  lemma FoundIs(s: State, c: Ctx, i: SesId)
    requires Good(s, c) && i in s.ses.expirer
    ensures i in s.ses.flows && s.ses.flows[i].bib.Some? && Linked(s.bib.entries, s.ses.flows[i])
  {
    hide Good, Core, Linked;
    TableFacts(s, c, i);
    CoreOf(s, c);
    LinkFacts(s, c.hb, c.hs, i);
  }

  lemma GetOrCreateSessionGood(s: State, found: Option<SesId>, flow: Option<Flow>, memory: bool, c: Ctx)
    requires Good(s, c) && c.changing == None
    requires found.Some? ==>
               found.value in s.ses.expirer && found.value in s.ses.flows && !s.ses.flows[found.value].proto.TCP?
    requires flow.Some? ==> Linked(s.bib.entries, flow.value) && flow.value.bib.Some? && !flow.value.proto.TCP?
    ensures var (r, i) := GetOrCreateSession(s, found, flow, memory);
            Good(r, if i.Some? then HoldSes(c, i.value) else c)
  {
    hide Good, Linked, SessionAdd, SessionReturn, Move, CreateSession;
    if found.Some? {
      var i := found.value;
      SessionGetGood(s, i, c);
      TouchGood(SessionGet(s, i), i, HoldSes(c, i));
      MoveGood(SessionGet(s, i), i, Est, HoldSes(c, i).(changing := Some(i)));
    } else {
      CreateGood(s, flow, BLANK, memory, c);
      var (s1, created) := CreateSession(s, flow, BLANK, memory);
      if created.Some? {
        var i := created.value;
        SessionAddGood(s1, i, Est, HoldSes(c, i));
        SessionReturnGood(SessionAdd(s1, i, Est).0, i, HoldSes(c, i));
        HoldFree(c, i);
      }
    }
  }

  lemma HeldBib(s: State, c: Ctx, b: BibId)
    requires Good(s, c) && b in c.hb
    ensures b in s.bib.entries
  {
    hide Core;
    RefsDomain(s, c.hb, c.hs);
  }

  lemma SimpleGood(s: State, b: BibId, found: Option<SesId>, flow: Option<Flow>, memory: bool, c: Ctx)
    requires Good(s, HoldBib(c, b)) && c.changing == None
    requires found.Some? ==>
               found.value in s.ses.expirer && found.value in s.ses.flows && !s.ses.flows[found.value].proto.TCP?
    requires flow.Some? ==> Linked(s.bib.entries, flow.value) && flow.value.bib.Some? && !flow.value.proto.TCP?
    ensures Good(Simple(s, b, found, flow, memory).0, c)
  {
    hide Good, Linked, GetOrCreateSession, SessionReturn, BibReturn;
    GetOrCreateSessionGood(s, found, flow, memory, HoldBib(c, b));
    var (s1, r) := GetOrCreateSession(s, found, flow, memory);
    HoldFree(c, b);
    if r.None? {
      BibReturnGood(s1, b, HoldBib(c, b));
    } else {
      SessionReturnGood(s1, r.value, HoldSes(HoldBib(c, b), r.value));
      HoldFree(HoldBib(c, b), r.value);
      BibReturnGood(SessionReturn(s1, r.value), b, HoldBib(c, b));
    }
  }

  lemma Ipv6SimpleGood(s: State, p: Packet6, env: Env6, c: Ctx)
    requires Good(s, c) && c.changing == None && !p.proto.TCP?
    ensures Good(Ipv6Simple(s, p, env).0, c)
  {
    hide Good, GetOrCreateBib6, Simple;
    GetOrCreateBib6Good(s, p, env, c);
    var (s1, b) := GetOrCreateBib6(s, p, env);
    if b.Some? {
      FoundFacts(s1, HoldBib(c, b.value));
      SimpleGood(s1, b.value, SessionFind6(s1.ses, Key6(p.proto, p.dst, p.src)), FlowFrom6(s1, p, b.value, env),
                 env.sessionMemory, c);
    }
  }

  lemma Ipv4SimpleGood(s: State, p: Packet4, env: Env4, c: Ctx)
    requires Good(s, c) && c.changing == None && !p.proto.TCP?
    ensures Good(Ipv4Simple(s, p, env).0, c)
  {
    hide Good, Simple, BibGet, BibReturn, Allow;
    BibFacts(s, c);
    var b := BibFind4(s.bib, End4(p.proto, p.dst));
    if b.Some? {
      BibGetGood(s, b.value, c);
      var s1 := s.(bib := BibGet(s.bib, b.value));
      HoldFree(c, b.value);
      BibReturnGood(s1, b.value, HoldBib(c, b.value));
      FoundFacts(s1, HoldBib(c, b.value));
      HeldBib(s1, HoldBib(c, b.value), b.value);
      BibGetEntries(s.bib, b.value);
      SimpleGood(s1, b.value, SessionFind4(s1.ses, Key4(p.proto, p.dst, p.src)), FlowFrom4(s1, p, b, env),
                 env.sessionMemory, c);
    }
  }

  lemma BibGetEntries(db: BibDb, b: BibId)
    ensures BibGet(db, b).entries == db.entries
  {
  }

  // ------------------------------------------------------------------ TCP without a session

  lemma ClosedSyn6Good(s: State, p: Packet6, env: Env6, c: Ctx)
    requires Good(s, c) && c.changing == None && p.proto.TCP?
    ensures Good(ClosedSyn6(s, p, env).0, c)
  {
    hide Good, GetOrCreateBib6, CreateSession, SessionAdd, SessionReturn, BibReturn;
    GetOrCreateBib6Good(s, p, env, c);
    var (s1, b) := GetOrCreateBib6(s, p, env);
    if b.Some? {
      var t := Tcp(V6_INIT, false, true, false, false);
      var c1 := HoldBib(c, b.value);
      HoldFree(c, b.value);
      CreateGood(s1, FlowFrom6(s1, p, b.value, env), t, env.sessionMemory, c1);
      var (s2, created) := CreateSession(s1, FlowFrom6(s1, p, b.value, env), t, env.sessionMemory);
      if created.None? {
        BibReturnGood(s2, b.value, c1);
      } else {
        var i := created.value;
        AddAndReturnGood(s2, i, c1);
        BibReturnGood(SessionReturn(SessionAdd(s2, i, Trans).0, i), b.value, c1);
      }
    }
  }

  lemma AddAndReturnGood(s: State, i: SesId, c: Ctx)
    requires Good(s, HoldSes(c, i)) && c.changing == None
    requires i in s.ses.flows && i !in s.ses.expirer && i !in s.queue.nodes && s.ses.flows[i].bib.Some?
    requires s.ses.flows[i].proto.TCP? && Agrees(TcpOf(s.ses.tcp, i), Trans)
    ensures Good(SessionReturn(SessionAdd(s, i, Trans).0, i), c)
  {
    hide Good, SessionAdd, SessionReturn, Agrees;
    SessionAddGood(s, i, Trans, HoldSes(c, i));
    SessionReturnGood(SessionAdd(s, i, Trans).0, i, HoldSes(c, i));
    HoldFree(c, i);
  }

  lemma StoreAndReturnGood(s: State, i: SesId, packet: PacketId, memory: bool, c: Ctx)
    requires Good(s, HoldSes(c, i))
    requires i in s.ses.flows && i !in s.ses.expirer && i !in s.queue.nodes && TimeOf(s.ses.time, i) == s.now
    requires s.ses.flows[i].proto.TCP? && KeyOf4(s.ses.flows[i]) !in s.ses.by4
    ensures Good(SessionReturn(QueueAdd(s, i, packet, memory).0, i), c)
  {
    hide Good, QueueAdd, SessionReturn;
    QueueAddGood(s, i, packet, memory, HoldSes(c, i));
    SessionReturnGood(QueueAdd(s, i, packet, memory).0, i, HoldSes(c, i));
    HoldFree(c, i);
  }

  lemma ClosedSyn4HeldGood(s: State, p: Packet4, env: Env4, b: Option<BibId>, c: Ctx)
    requires Good(s, c) && c.changing == None && p.proto.TCP?
    requires Key4(p.proto, p.dst, p.src) !in s.ses.by4
    requires b.Some? ==> b.value in s.bib.entries && EndOf4(s.bib.entries[b.value]) == End4(p.proto, p.dst)
    ensures Good(ClosedSyn4Held(s, p, env, b).0, c)
  {
    hide Good, CreateSession, SessionAdd, SessionReturn, QueueAdd;
    var t := Tcp(V4_INIT, true, false, false, false);
    var flow := FlowFrom4(s, p, b, env);
    CreateGood(s, flow, t, env.sessionMemory, c);
    var (s2, created) := CreateSession(s, flow, t, env.sessionMemory);
    if created.Some? {
      if b.None? || env.filtering {
        StoreAndReturnGood(s2, created.value, p.id, env.nodeMemory, c);
      } else {
        AddAndReturnGood(s2, created.value, c);
      }
    }
  }

  lemma ClosedSyn4Good(s: State, p: Packet4, env: Env4, c: Ctx)
    requires Good(s, c) && c.changing == None && p.proto.TCP?
    requires Key4(p.proto, p.dst, p.src) !in s.ses.by4
    ensures Good(ClosedSyn4(s, p, env).0, c)
  {
    hide Good, ClosedSyn4Held, BibReturn, BibGet;
    BibFacts(s, c);
    var b := BibFind4(s.bib, End4(p.proto, p.dst));
    if b.Some? {
      BibGetGood(s, b.value, c);
      BibGetEntries(s.bib, b.value);
      var s1 := s.(bib := BibGet(s.bib, b.value));
      ClosedSyn4HeldGood(s1, p, env, b, HoldBib(c, b.value));
      BibReturnGood(ClosedSyn4Held(s1, p, env, b).0, b.value, HoldBib(c, b.value));
      HoldFree(c, b.value);
    } else {
      ClosedSyn4HeldGood(s, p, env, b, c);
    }
  }

  lemma ClosedOtherGood(s: State, b: Option<BibId>, c: Ctx)
    requires Good(s, c) && (b.Some? ==> b.value in s.bib.entries)
    ensures ClosedOther(s, b).0 == s
  {
    hide Good;
    BibFacts(s, c);
    if b.Some? {
      BibGetReturn(s.bib, b.value);
    }
  }

  // ------------------------------------------------------------------ TCP with a session

  /** Every transition lands on the list its state belongs on, and no packet can close a session. */
  lemma MachineAgrees(t: Tcp, kind: Kind, p: Flags)
    requires Agrees(t, kind)
    ensures var (t1, fate) := Machine(Seen(t, p), p);
            && !fate.Remove? && !fate.Probe?
            && Agrees(t1, if fate.TimerEst? then Est else if fate.TimerTrans? then Trans else kind)
  {
  }

  lemma PreserveGood(s: State, i: SesId, c: Ctx)
    requires Good(s, c) && c.changing == Some(i)
    requires i in s.ses.expirer && OnRightList(TcpOf(s.ses.tcp, i), s.ses.expirer[i])
    ensures Good(s, c.(changing := None))
  {
    hide Core, Armed, Prompt, OnRightList;
  }

  lemma ListFacts(s: State, i: SesId, c: Ctx)
    requires Good(s, c) && i in s.ses.expirer && c.changing == None
    ensures OnRightList(TcpOf(s.ses.tcp, i), s.ses.expirer[i])
  {
    hide Core, Armed, Prompt, OnRightList;
  }

  lemma TcpFoundGood(s: State, i: SesId, p: Flags, c: Ctx)
    requires Good(s, c) && c.changing == None
    requires i in s.ses.expirer && i in s.ses.flows && s.ses.flows[i].proto.TCP?
    ensures Good(TcpFound(s, i, p), c)
  {
    hide Good, Agrees, Machine, Seen, SessionReturn, Move;
    TableFacts(s, c, i);
    ListFacts(s, i, c);
    MachineAgrees(TcpOf(s.ses.tcp, i), s.ses.expirer[i].kind, p);
    var (t, fate) := Machine(Seen(TcpOf(s.ses.tcp, i), p), p);
    SessionGetGood(s, i, c);
    SetTcpGood(SessionGet(s, i), i, t, HoldSes(c, i));
    var s1, c1 := SetTcp(SessionGet(s, i), i, t), HoldSes(c, i).(changing := Some(i));
    var s2 := DecideFate(s1, Pending([], []), i, fate, true).0;
    if fate.Preserve? {
      PreserveGood(s1, i, c1);
    } else {
      MoveGood(s1, i, if fate.TimerEst? then Est else Trans, c1);
    }
    SessionReturnGood(s2, i, HoldSes(c, i));
    HoldFree(c, i);
  }

  // ------------------------------------------------------------------ whole packets

  lemma From6Good(s: State, p: Packet6, env: Env6, c: Ctx)
    requires Good(s, c) && c.changing == None
    ensures Good(From6(s, p, env).0, c)
  {
    hide Good, TcpFound, ClosedSyn6, ClosedOther, Ipv6Simple;
    FoundFacts(s, c);
    BibFacts(s, c);
    if p.proto.TCP? {
      var found := SessionFind6(s.ses, Key6(p.proto, p.dst, p.src));
      if found.Some? {
        TcpFoundGood(s, found.value, Flags(true, p.syn, p.fin, p.rst), c);
      } else if p.syn {
        ClosedSyn6Good(s, p, env, c);
      } else {
        ClosedOtherGood(s, BibFind6(s.bib, End6(p.proto, p.src)), c);
      }
    } else {
      Ipv6SimpleGood(s, p, env, c);
    }
  }

  lemma From4Good(s: State, p: Packet4, env: Env4, c: Ctx)
    requires Good(s, c) && c.changing == None
    ensures Good(From4(s, p, env).0, c)
  {
    hide Good, TcpFound, ClosedSyn4, ClosedOther, Ipv4Simple;
    FoundFacts(s, c);
    BibFacts(s, c);
    if p.proto.TCP? {
      var found := SessionFind4(s.ses, Key4(p.proto, p.dst, p.src));
      if found.Some? {
        TcpFoundGood(s, found.value, Flags(false, p.syn, p.fin, p.rst), c);
      } else if p.syn {
        ClosedSyn4Good(s, p, env, c);
      } else {
        ClosedOtherGood(s, BibFind4(s.bib, End4(p.proto, p.dst)), c);
      }
    } else {
      Ipv4SimpleGood(s, p, env, c);
    }
  }
}
