/**
 The NAT64 engine: the BIB, the session tables with their expiry lists and timers, the queue of stored SYNs,
 and every operation the engine performs on them.

 Entries are allocated objects that several structures point at, so an entry is named by an id and each of
 its fields is a map from ids. An id that is in no map is not allocated. Searches and loops treat such an id as absent;
 the invariants of Nat64Inv show that they never meet one.

 Every operation here is a function of the whole state. Nat64Engine performs them step by step.
 */
module Nat64 {

  import opened Types

  type BibId = nat
  type SesId = nat
  /** Identity of a packet that may be stored. */
  type PacketId = nat

  // ------------------------------------------------------------------ state

  datatype TcpState =
    CLOSED | V6_INIT | V4_INIT | ESTABLISHED | V4_FIN_RCV | V6_FIN_RCV | V4_FIN_V6_FIN_RCV | TRANS

  /** The state of the connection, and which flags packets have carried so far (history, never read by the engine). */
  datatype Tcp = Tcp(state: TcpState, syn4: bool, syn6: bool, fin4: bool, fin6: bool)

  datatype Kind = Est | Trans

  /** Which of the six expiry lists. */
  datatype Expirer = Expirer(proto: Proto, kind: Kind)

  /** The fixed part of a BIB entry. */
  datatype Mapping = Mapping(proto: Proto, ipv6: Taddr6, ipv4: Taddr4)

  /** The fixed part of a session. */
  datatype Flow = Flow(proto: Proto, remote6: Taddr6, local6: Taddr6, local4: Taddr4, remote4: Taddr4,
                       bib: Option<BibId>)

  datatype End6 = End6(proto: Proto, addr: Taddr6)
  datatype End4 = End4(proto: Proto, addr: Taddr4)
  datatype Key6 = Key6(proto: Proto, local: Taddr6, remote: Taddr6)
  datatype Key4 = Key4(proto: Proto, local: Taddr4, remote: Taddr4)

  datatype BibDb = BibDb(entries: map<BibId, Mapping>, refs: map<BibId, int>, statics: set<BibId>,
                         by6: map<End6, BibId>, by4: map<End4, BibId>, next: BibId)

  datatype SessionDb = SessionDb(flows: map<SesId, Flow>, refs: map<SesId, int>, tcp: map<SesId, Tcp>,
                                 time: map<SesId, int>, expirer: map<SesId, Expirer>,
                                 by6: map<Key6, SesId>, by4: map<Key4, SesId>,
                                 lists: map<Expirer, seq<SesId>>, timers: map<Expirer, int>, next: SesId)

  /** A node of the queue is named by its session. `entered`, `cancelled` and `answered` are history. */
  datatype Queue = Queue(nodes: seq<SesId>, tree: map<Key4, SesId>, packets: map<SesId, PacketId>, count: int,
                         timer: Option<int>,
                         entered: multiset<PacketId>, cancelled: multiset<PacketId>, answered: multiset<PacketId>)

  datatype Timeouts = Timeouts(udp: nat, icmp: nat, tcpEst: nat, tcpTrans: nat)

  /** `probes` lists the flows that have been probed (history). */
  datatype State = State(bib: BibDb, ses: SessionDb, queue: Queue, now: nat, timeouts: Timeouts, maxPackets: nat,
                         probes: seq<Flow>)

  const MIN_TIMER_SLEEP := 255
  /** TCP_INCOMING_SYN, in ticks of 1000 per second. */
  const SYN_TIMEOUT := 6000

  function Init(timeouts: Timeouts, maxPackets: nat): State {
    State(BibDb(map[], map[], {}, map[], map[], 0),
          SessionDb(map[], map[], map[], map[], map[], map[], map[], map[], map[], 0),
          Queue([], map[], map[], 0, None, multiset{}, multiset{}, multiset{}),
          0, timeouts, maxPackets, [])
  }

  function EndOf6(m: Mapping): End6 { End6(m.proto, m.ipv6) }
  function EndOf4(m: Mapping): End4 { End4(m.proto, m.ipv4) }
  function KeyOf6(f: Flow): Key6 { Key6(f.proto, f.local6, f.remote6) }
  function KeyOf4(f: Flow): Key4 { Key4(f.proto, f.local4, f.remote4) }

  function ListOf(lists: map<Expirer, seq<SesId>>, e: Expirer): seq<SesId> {
    if e in lists then lists[e] else []
  }

  /** The transitory lists of UDP and ICMP have no timeout function. They are always empty. */
  function TimeoutOf(ts: Timeouts, e: Expirer): nat {
    match e.proto
    case TCP => if e.kind.Est? then ts.tcpEst else ts.tcpTrans
    case UDP => ts.udp
    case ICMP => ts.icmp
  }

  function IndexOf(xs: seq<SesId>, x: SesId): (n: nat)
    requires x in xs
    ensures n < |xs| && xs[n] == x && x !in xs[..n]
  {
    if xs[0] == x then 0 else IndexOf(xs[1..], x) + 1
  }

  /** list_del */
  function Without(xs: seq<SesId>, x: SesId): seq<SesId> {
    if x in xs then xs[..IndexOf(xs, x)] + xs[IndexOf(xs, x) + 1..] else xs
  }

  function Max(a: int, b: int): int { if a < b then b else a }

  // ------------------------------------------------------------------ BIB

  function BibFind6(db: BibDb, k: End6): Option<BibId> {
    if k in db.by6 && db.by6[k] in db.entries then Some(db.by6[k]) else None
  }

  function BibFind4(db: BibDb, k: End4): Option<BibId> {
    if k in db.by4 && db.by4[k] in db.entries then Some(db.by4[k]) else None
  }

  function BibCount(db: BibDb, b: BibId): int {
    if b in db.refs then db.refs[b] else 0
  }

  /** bibentry_get */
  function BibGet(db: BibDb, b: BibId): BibDb {
    db.(refs := db.refs[b := BibCount(db, b) + 1])
  }

  /** rm and bibentry_kfree */
  function BibFree(db: BibDb, b: BibId): BibDb
    requires b in db.entries
  {
    var m := db.entries[b];
    db.(entries := db.entries - {b}, refs := db.refs - {b}, statics := db.statics - {b},
        by6 := db.by6 - {EndOf6(m)}, by4 := db.by4 - {EndOf4(m)})
  }

  /** bibdb_return */
  function BibReturn(db: BibDb, b: BibId): BibDb {
    var n := BibCount(db, b) - 1;
    if n == 0 && b in db.entries then BibFree(db, b) else db.(refs := db.refs[b := n])
  }

  /** bibentry_create and bibtable_add; the second index may refuse after the first accepted. */
  function BibAdd(db: BibDb, m: Mapping, isStatic: bool): (BibDb, bool) {
    if EndOf6(m) in db.by6 then (db, false)
    else
      var db1 := db.(by6 := db.by6[EndOf6(m) := db.next]);
      if EndOf4(m) in db1.by4 then (db1.(by6 := db1.by6 - {EndOf6(m)}), false)
      else
        (db1.(entries := db.entries[db.next := m], refs := db.refs[db.next := 1],
              statics := if isStatic then db.statics + {db.next} else db.statics,
              by4 := db.by4[EndOf4(m) := db.next], next := db.next + 1), true)
  }

  // ------------------------------------------------------------------ sessions

  function SessionCount(d: SessionDb, i: SesId): int {
    if i in d.refs then d.refs[i] else 0
  }

  function TimeOf(time: map<SesId, int>, i: SesId): int {
    if i in time then time[i] else 0
  }

  function TcpOf(tcp: map<SesId, Tcp>, i: SesId): Tcp {
    if i in tcp then tcp[i] else Tcp(CLOSED, false, false, false, false)
  }

  /** session_clone of a session, or of the blank one session_create prepares. */
  function SessionAlloc(s: State, f: Flow, tcp: Tcp, time: int): State {
    var i := s.ses.next;
    s.(ses := s.ses.(flows := s.ses.flows[i := f], refs := s.ses.refs[i := 1], tcp := s.ses.tcp[i := tcp],
                     time := s.ses.time[i := time], next := i + 1),
       bib := if f.bib.Some? then BibGet(s.bib, f.bib.value) else s.bib)
  }

  /** session_get */
  function SessionGet(s: State, i: SesId): State {
    s.(ses := s.ses.(refs := s.ses.refs[i := SessionCount(s.ses, i) + 1]))
  }

  /** session_release */
  function SessionFree(s: State, i: SesId): State
    requires i in s.ses.flows
  {
    var b := s.ses.flows[i].bib;
    s.(ses := s.ses.(flows := s.ses.flows - {i}, refs := s.ses.refs - {i}, tcp := s.ses.tcp - {i},
                     time := s.ses.time - {i}),
       bib := if b.Some? then BibReturn(s.bib, b.value) else s.bib)
  }

  /** session_return */
  function SessionReturn(s: State, i: SesId): State {
    var n := SessionCount(s.ses, i) - 1;
    if n == 0 && i in s.ses.flows then SessionFree(s, i)
    else s.(ses := s.ses.(refs := s.ses.refs[i := n]))
  }

  /** delete: returns each of them, first to last. */
  function ReturnAll(s: State, ids: seq<SesId>): State
    decreases |ids|
  {
    if ids == [] then s else ReturnAll(SessionReturn(s, ids[0]), ids[1..])
  }

  // ------------------------------------------------------------------ session table

  /** force_reschedule */
  function ForceReschedule(d: SessionDb, e: Expirer, ts: Timeouts, now: nat): SessionDb {
    var l := ListOf(d.lists, e);
    if l == [] then d
    else d.(timers := d.timers[e := Max(TimeOf(d.time, l[0]) + TimeoutOf(ts, e), now + MIN_TIMER_SLEEP)])
  }

  /** reschedule */
  function Reschedule(d: SessionDb, e: Expirer, ts: Timeouts, now: nat): SessionDb {
    if e in d.timers then d else ForceReschedule(d, e, ts, now)
  }

  /** list_del */
  function Detach(d: SessionDb, i: SesId): SessionDb {
    if i !in d.expirer then d
    else
      var e := d.expirer[i];
      d.(lists := d.lists[e := Without(ListOf(d.lists, e), i)], expirer := d.expirer - {i})
  }

  /** attach_timer */
  function Attach(d: SessionDb, i: SesId, e: Expirer, ts: Timeouts, now: nat): SessionDb {
    Reschedule(d.(time := d.time[i := now], lists := d.lists[e := ListOf(d.lists, e) + [i]],
                  expirer := d.expirer[i := e]), e, ts, now)
  }

  /** rm: out of both indexes and of its list. The table's reference goes to whoever holds `rms`. */
  function TableRm(d: SessionDb, i: SesId): SessionDb {
    if i !in d.flows then d
    else Detach(d, i).(by6 := d.by6 - {KeyOf6(d.flows[i])}, by4 := d.by4 - {KeyOf4(d.flows[i])})
  }

  function SessionFind6(d: SessionDb, k: Key6): Option<SesId> {
    if k in d.by6 && d.by6[k] in d.flows then Some(d.by6[k]) else None
  }

  function SessionFind4(d: SessionDb, k: Key4): Option<SesId> {
    if k in d.by4 && d.by4[k] in d.flows then Some(d.by4[k]) else None
  }

  datatype Fate = TimerEst | Probe | TimerTrans | Remove | Preserve

  /** What decide_fate leaves behind: the sessions to return once the table is consistent, and the clones to probe. */
  datatype Pending = Pending(rms: seq<SesId>, probes: seq<SesId>)

  function Move(s: State, i: SesId, kind: Kind): State
    requires i in s.ses.flows
  {
    s.(ses := Attach(Detach(s.ses, i), i, Expirer(s.ses.flows[i].proto, kind), s.timeouts, s.now))
  }

  /**
   decide_fate, after the callback, which has also started the session's clock again if it asks for a probe. `memory`
   says whether the clone can be allocated.
   */
  function DecideFate(s: State, p: Pending, i: SesId, fate: Fate, memory: bool): (State, Pending)
    requires i in s.ses.flows
  {
    match fate
    case TimerEst => (Move(s, i, Est), p)
    case Probe =>
      if memory then
        (Move(SessionAlloc(s, s.ses.flows[i], TcpOf(s.ses.tcp, i), s.now), i, Trans),
         p.(probes := [s.ses.next] + p.probes))
      else (Move(s, i, Trans), p)
    case TimerTrans => (Move(s, i, Trans), p)
    case Remove => (s.(ses := TableRm(s.ses, i)), p.(rms := [i] + p.rms))
    case Preserve => (s, p)
  }

  /** The probing half of post_fate: send_probe_packet, then session_return, for each clone. */
  function SendProbes(s: State, ids: seq<SesId>): State
    decreases |ids|
  {
    if ids == [] then s
    else
      var s1 := if ids[0] in s.ses.flows then s.(probes := s.probes + [s.ses.flows[ids[0]]]) else s;
      SendProbes(SessionReturn(s1, ids[0]), ids[1..])
  }

  /** post_fate */
  function PostFate(s: State, p: Pending): State {
    ReturnAll(SendProbes(s, p.probes), p.rms)
  }

  /** expired_cb for TCP; just_die for the others. */
  function Expire(proto: Proto, t: Tcp): (Tcp, Fate) {
    if !proto.TCP? then (t, Remove)
    else if t.state.ESTABLISHED? then (t.(state := TRANS), Probe)
    else (t.(state := CLOSED), Remove)
  }

  function SetTcp(s: State, i: SesId, t: Tcp): State {
    s.(ses := s.ses.(tcp := s.ses.tcp[i := t]))
  }

  /** The body of cleaner_timer's loop. */
  function CleanOne(s: State, p: Pending, i: SesId, memory: bool): (State, Pending)
    requires i in s.ses.flows
  {
    var (t, fate) := Expire(s.ses.flows[i].proto, TcpOf(s.ses.tcp, i));
    DecideFate(SetTcp(s, i, t), p, i, fate, memory)
  }

  predicate Expired(s: State, e: Expirer, i: SesId) {
    TimeOf(s.ses.time, i) + TimeoutOf(s.timeouts, e) <= s.now
  }

  /** cleaner_timer's loop over the sessions that were on the list, in order; it stops at the first unexpired one. */
  function CleanLoop(s: State, p: Pending, e: Expirer, ids: seq<SesId>, starved: set<SesId>): (State, Pending)
    decreases |ids|
  {
    if ids == [] || ids[0] !in s.ses.flows || !Expired(s, e, ids[0]) then (s, p)
    else
      var (s1, p1) := CleanOne(s, p, ids[0], ids[0] !in starved);
      CleanLoop(s1, p1, e, ids[1..], starved)
  }

  /** cleaner_timer. The timer is no longer pending when its handler runs. */
  function Clean(s: State, e: Expirer, starved: set<SesId>): State {
    var s0 := s.(ses := s.ses.(timers := s.ses.timers - {e}));
    var (s1, p) := CleanLoop(s0, Pending([], []), e, ListOf(s0.ses.lists, e), starved);
    PostFate(s1.(ses := Reschedule(s1.ses, e, s1.timeouts, s1.now)), p)
  }

  // ------------------------------------------------------------------ queue of stored SYNs

  /** rm */
  function QueueUnlink(q: Queue, n: SesId, k: Key4): Queue {
    q.(nodes := Without(q.nodes, n), tree := q.tree - {k}, packets := q.packets - {n}, count := q.count - 1)
  }

  function PacketOf(q: Queue, n: SesId): PacketId {
    if n in q.packets then q.packets[n] else 0
  }

  /** pktqueue_remove: cancels the ICMP error of the stored SYN with the same IPv4 addresses, if there is one. */
  function QueueRemove(s: State, k: Key4): State {
    if !k.proto.TCP? || k !in s.queue.tree then s
    else
      var n := s.queue.tree[k];
      SessionReturn(s.(queue := QueueUnlink(s.queue, n, k).(
                         cancelled := s.queue.cancelled + multiset{PacketOf(s.queue, n)})), n)
  }

  /** pktqueue_add; the session belongs to TCP. */
  function QueueAdd(s: State, i: SesId, packet: PacketId, memory: bool): (State, bool)
    requires i in s.ses.flows
  {
    var k := KeyOf4(s.ses.flows[i]);
    if !memory || s.queue.count + 1 >= s.maxPackets || k in s.queue.tree then (s, false)
    else
      var nodes := s.queue.nodes + [i];
      (SessionGet(s.(queue := s.queue.(nodes := nodes, tree := s.queue.tree[k := i],
                                       packets := s.queue.packets[i := packet], count := s.queue.count + 1,
                                       timer := Some(TimeOf(s.ses.time, nodes[0]) + SYN_TIMEOUT),
                                       entered := s.queue.entered + multiset{packet})), i), true)
  }

  /** The loop of pkt_queue.c's cleaner_timer. The nodes taken out, last first, await their ICMP error. */
  function QueueCleanLoop(q: Queue, d: SessionDb, now: nat, ids: seq<SesId>, icmps: seq<SesId>): (Queue, seq<SesId>)
    decreases |ids|
  {
    if ids == [] || ids[0] !in d.flows then (q, icmps)
    else
      var due := TimeOf(d.time, ids[0]) + SYN_TIMEOUT;
      if now < due then (q.(timer := Some(due)), icmps)
      else
        QueueCleanLoop(QueueUnlink(q, ids[0], KeyOf4(d.flows[ids[0]])).(
                         answered := q.answered + multiset{PacketOf(q, ids[0])}),
                       d, now, ids[1..], [ids[0]] + icmps)
  }

  /** cleaner_timer of pkt_queue.c: send_icmp_error returns the session of each expired node. */
  function QueueClean(s: State): State {
    var (q, icmps) := QueueCleanLoop(s.queue.(timer := None), s.ses, s.now, s.queue.nodes, []);
    ReturnAll(s.(queue := q), icmps)
  }

  /** sessiontable_add: cancels a stored SYN, inserts in both indexes or in none, and starts the session's clock. */
  function SessionAdd(s: State, i: SesId, kind: Kind): (State, bool)
    requires i in s.ses.flows
  {
    var f := s.ses.flows[i];
    var s1 := QueueRemove(s, KeyOf4(f));
    if KeyOf6(f) in s1.ses.by6 then (s1, false)
    else
      var d := s1.ses.(by6 := s1.ses.by6[KeyOf6(f) := i]);
      if KeyOf4(f) in d.by4 then (s1.(ses := d.(by6 := d.by6 - {KeyOf6(f)})), false)
      else
        var e := Expirer(f.proto, kind);
        var d2 := Attach(d.(by4 := d.by4[KeyOf4(f) := i]), i, e, s.timeouts, s.now);
        (SessionGet(s1.(ses := d2), i), true)
  }

  // ------------------------------------------------------------------ packets

  /** The addresses and flags of a packet; `id` tells packets apart. */
  datatype Packet6 = Packet6(proto: Proto, src: Taddr6, dst: Taddr6, syn: bool, fin: bool, rst: bool)
  datatype Packet4 = Packet4(id: PacketId, proto: Proto, src: Taddr4, dst: Taddr4, syn: bool, fin: bool, rst: bool)

  /**
   What the rest of the system answers while a packet is handled: pool membership, configuration, the results of
   rfc6052_6to4 and palloc_allocate, and whether memory can be allocated.
   */
  datatype Env6 = Env6(hairpin: bool, inPool6: bool, icmpError: bool, filterPings: bool,
                       dst4: Option<nat>, mask: Option<Taddr4>, bibMemory: bool, sessionMemory: bool)
  datatype Env4 = Env4(inPool4: bool, icmpError: bool, filtering: bool, dropExternal: bool,
                       src6: Option<nat>, sessionMemory: bool, nodeMemory: bool)

  datatype Verdict = Continue | Drop | Accept | Stolen

  /** get_or_create_bib6. The caller gets a reference to the entry. */
  function GetOrCreateBib6(s: State, p: Packet6, env: Env6): (State, Option<BibId>) {
    var found := BibFind6(s.bib, End6(p.proto, p.src));
    if found.Some? then (s.(bib := BibGet(s.bib, found.value)), found)
    else if env.dst4.None? || env.mask.None? || !env.bibMemory then (s, None)
    else
      var (db, ok) := BibAdd(s.bib, Mapping(p.proto, p.src, env.mask.value), false);
      (s.(bib := db), if ok then Some(s.bib.next) else None)
  }

  /** create_session, IPv6 half */
  function NewFlow6(p: Packet6, b: BibId, m: Mapping, dst4: nat): Flow {
    Flow(p.proto, p.src, p.dst, m.ipv4, Taddr4(dst4, if p.proto.ICMP? then m.ipv4.l4 else p.dst.l4), Some(b))
  }

  /** create_session, IPv4 half, with a BIB entry */
  function NewFlow4(p: Packet4, b: BibId, m: Mapping, src6: nat): Flow {
    Flow(p.proto, m.ipv6, Taddr6(src6, if p.proto.ICMP? then m.ipv6.l4 else p.src.l4), p.dst, p.src, Some(b))
  }

  /** create_session, IPv4 half, for a TCP packet without one */
  function NewFlow4Unbound(p: Packet4, src6: nat): Flow {
    Flow(p.proto, Taddr6(0, 0), Taddr6(src6, p.src.l4), p.dst, p.src, None)
  }

  const BLANK := Tcp(CLOSED, false, false, false, false)

  /** create_session, the IPv6 or IPv4 half having produced `flow`, or an error. */
  function CreateSession(s: State, flow: Option<Flow>, tcp: Tcp, memory: bool): (State, Option<SesId>) {
    if flow.None? || !memory then (s, None)
    else (SessionAlloc(s, flow.value, tcp, s.now), Some(s.ses.next))
  }

  /** get_or_create_session; `found` is what the table search gave. The caller gets a reference to the session. */
  function GetOrCreateSession(s: State, found: Option<SesId>, flow: Option<Flow>, memory: bool)
    : (State, Option<SesId>)
  {
    if found.Some? && found.value in s.ses.flows then
      (Move(SessionGet(s, found.value), found.value, Est), found)
    else
      var (s1, created) := CreateSession(s, flow, BLANK, memory);
      if created.None? then (s1, None)
      else
        var (s2, ok) := SessionAdd(s1, created.value, Est);
        if ok then (s2, created) else (SessionReturn(s2, created.value), None)
  }

  /** The common end of ipv6_simple and ipv4_simple, once the BIB entry is held. */
  function Simple(s: State, b: BibId, found: Option<SesId>, flow: Option<Flow>, memory: bool): (State, Verdict) {
    var (s1, r) := GetOrCreateSession(s, found, flow, memory);
    if r.None? then (s1.(bib := BibReturn(s1.bib, b)), Drop)
    else
      var s2 := SessionReturn(s1, r.value);
      (s2.(bib := BibReturn(s2.bib, b)), Continue)
  }

  function FlowFrom6(s: State, p: Packet6, b: BibId, env: Env6): Option<Flow> {
    if env.dst4.None? || b !in s.bib.entries then None
    else Some(NewFlow6(p, b, s.bib.entries[b], env.dst4.value))
  }

  function FlowFrom4(s: State, p: Packet4, b: Option<BibId>, env: Env4): Option<Flow> {
    if env.src6.None? then None
    else if b.Some? && b.value in s.bib.entries then
      Some(NewFlow4(p, b.value, s.bib.entries[b.value], env.src6.value))
    else Some(NewFlow4Unbound(p, env.src6.value))
  }

  /** ipv6_simple */
  function Ipv6Simple(s: State, p: Packet6, env: Env6): (State, Verdict) {
    var (s1, b) := GetOrCreateBib6(s, p, env);
    if b.None? then (s1, Drop)
    else
      Simple(s1, b.value, SessionFind6(s1.ses, Key6(p.proto, p.dst, p.src)), FlowFrom6(s1, p, b.value, env),
             env.sessionMemory)
  }

  /** sessiontable_allow: does any session share the packet's addresses, whatever the remote port? */
  predicate Allow(d: SessionDb, p: Packet4) {
    exists k :: k in d.by4 && k.proto == p.proto && k.local == p.dst && k.remote.l3 == p.src.l3
  }

  /** ipv4_simple */
  function Ipv4Simple(s: State, p: Packet4, env: Env4): (State, Verdict) {
    var b := BibFind4(s.bib, End4(p.proto, p.dst));
    if b.None? then (s, Accept)
    else
      var s1 := s.(bib := BibGet(s.bib, b.value));
      if env.filtering && !Allow(s1.ses, p) then (s1.(bib := BibReturn(s1.bib, b.value)), Drop)
      else
        Simple(s1, b.value, SessionFind4(s1.ses, Key4(p.proto, p.dst, p.src)), FlowFrom4(s1, p, b, env),
               env.sessionMemory)
  }

  /** tcp_closed_v6_syn */
  function ClosedSyn6(s: State, p: Packet6, env: Env6): (State, Verdict) {
    var (s1, b) := GetOrCreateBib6(s, p, env);
    if b.None? then (s1, Drop)
    else
      var (s2, created) := CreateSession(s1, FlowFrom6(s1, p, b.value, env), Tcp(V6_INIT, false, true, false, false),
                                         env.sessionMemory);
      if created.None? then (s2.(bib := BibReturn(s2.bib, b.value)), Drop)
      else
        var (s3, ok) := SessionAdd(s2, created.value, Trans);
        var s4 := SessionReturn(s3, created.value);
        (s4.(bib := BibReturn(s4.bib, b.value)), if ok then Continue else Drop)
  }

  /** The part of tcp_closed_v4_syn between taking the BIB reference, if there is an entry, and giving it back. */
  function ClosedSyn4Held(s: State, p: Packet4, env: Env4, b: Option<BibId>): (State, Verdict) {
    var (s2, created) := CreateSession(s, FlowFrom4(s, p, b, env), Tcp(V4_INIT, true, false, false, false),
                                       env.sessionMemory);
    if created.None? then (s2, Drop)
    else if b.None? || env.filtering then
      var (s3, ok) := QueueAdd(s2, created.value, p.id, env.nodeMemory);
      (SessionReturn(s3, created.value), if ok then Stolen else Drop)
    else
      var (s3, ok) := SessionAdd(s2, created.value, Trans);
      (SessionReturn(s3, created.value), if ok then Continue else Drop)
  }

  /** tcp_closed_v4_syn */
  function ClosedSyn4(s: State, p: Packet4, env: Env4): (State, Verdict) {
    var b := BibFind4(s.bib, End4(p.proto, p.dst));
    if env.dropExternal then (s, Drop)
    else if b.None? then ClosedSyn4Held(s, p, env, b)
    else
      var (r, v) := ClosedSyn4Held(s.(bib := BibGet(s.bib, b.value)), p, env, b);
      (r.(bib := BibReturn(r.bib, b.value)), v)
  }

  /** tcp_closed_state for a packet without SYN: it goes through if there is a BIB entry. */
  function ClosedOther(s: State, b: Option<BibId>): (State, Verdict) {
    if b.None? then (s, Drop) else (s.(bib := BibReturn(BibGet(s.bib, b.value), b.value)), Continue)
  }

  datatype Flags = Flags(from6: bool, syn: bool, fin: bool, rst: bool)

  /** tcp_state_machine and the handlers of the eight states. */
  function Machine(t: Tcp, p: Flags): (Tcp, Fate) {
    match t.state
    case V4_INIT => if p.from6 && p.syn then (t.(state := ESTABLISHED), TimerEst) else (t, Preserve)
    case V6_INIT =>
      if !p.syn then (t, Preserve)
      else if !p.from6 then (t.(state := ESTABLISHED), TimerEst)
      else (t, TimerTrans)
    case ESTABLISHED =>
      if p.fin then (t.(state := if p.from6 then V6_FIN_RCV else V4_FIN_RCV), Preserve)
      else if p.rst then (t.(state := TRANS), TimerTrans)
      else (t, TimerEst)
    case V4_FIN_RCV => if p.from6 && p.fin then (t.(state := V4_FIN_V6_FIN_RCV), TimerTrans) else (t, TimerEst)
    case V6_FIN_RCV => if !p.from6 && p.fin then (t.(state := V4_FIN_V6_FIN_RCV), TimerTrans) else (t, TimerEst)
    case V4_FIN_V6_FIN_RCV => (t, Preserve)
    case TRANS => if !p.rst then (t.(state := ESTABLISHED), TimerEst) else (t, Preserve)
    case CLOSED => (t, Remove)
  }

  /** History: the flags this packet adds to what has been seen. */
  function Seen(t: Tcp, p: Flags): Tcp {
    t.(syn4 := t.syn4 || (p.syn && !p.from6), syn6 := t.syn6 || (p.syn && p.from6),
       fin4 := t.fin4 || (p.fin && !p.from6), fin6 := t.fin6 || (p.fin && p.from6))
  }

  /** The part of tcp() for a packet whose session exists. */
  function TcpFound(s: State, i: SesId, p: Flags): State
    requires i in s.ses.flows
  {
    var (t, fate) := Machine(Seen(TcpOf(s.ses.tcp, i), p), p);
    var (s1, pending) := DecideFate(SetTcp(SessionGet(s, i), i, t), Pending([], []), i, fate, true);
    SessionReturn(PostFate(s1, pending), i)
  }

  /** filtering_and_updating for an IPv6 packet */
  function From6(s: State, p: Packet6, env: Env6): (State, Verdict) {
    if env.hairpin then (s, Drop)
    else if !env.inPool6 then (s, Accept)
    else if env.icmpError then (s, Continue)
    else if p.proto.TCP? then
      var found := SessionFind6(s.ses, Key6(p.proto, p.dst, p.src));
      if found.Some? then (TcpFound(s, found.value, Flags(true, p.syn, p.fin, p.rst)), Continue)
      else if p.syn then ClosedSyn6(s, p, env)
      else ClosedOther(s, BibFind6(s.bib, End6(p.proto, p.src)))
    else if p.proto.ICMP? && env.filterPings then (s, Drop)
    else Ipv6Simple(s, p, env)
  }

  /** filtering_and_updating for an IPv4 packet */
  function From4(s: State, p: Packet4, env: Env4): (State, Verdict) {
    if !env.inPool4 then (s, Accept)
    else if env.icmpError then (s, Continue)
    else if p.proto.TCP? then
      var found := SessionFind4(s.ses, Key4(p.proto, p.dst, p.src));
      if found.Some? then (TcpFound(s, found.value, Flags(false, p.syn, p.fin, p.rst)), Continue)
      else if p.syn then ClosedSyn4(s, p, env)
      else ClosedOther(s, BibFind4(s.bib, End4(p.proto, p.dst)))
    else Ipv4Simple(s, p, env)
  }

  /** compute_out_tuple: source and destination of the outgoing packet, copied from the other side of the session. */
  function OutTuple6(s: State, proto: Proto, src: Taddr6, dst: Taddr6): Option<(Taddr4, Taddr4)> {
    var i := SessionFind6(s.ses, Key6(proto, dst, src));
    if i.None? then None else Some((s.ses.flows[i.value].local4, s.ses.flows[i.value].remote4))
  }

  function OutTuple4(s: State, proto: Proto, src: Taddr4, dst: Taddr4): Option<(Taddr6, Taddr6)> {
    var i := SessionFind4(s.ses, Key4(proto, dst, src));
    if i.None? then None else Some((s.ses.flows[i.value].local6, s.ses.flows[i.value].remote6))
  }

  // ------------------------------------------------------------------ requests

  /** rm on each of them; rms is built from the front. */
  function RmAll(d: SessionDb, ids: seq<SesId>): SessionDb
    decreases |ids|
  {
    if ids == [] then d else RmAll(TableRm(d, ids[0]), ids[1..])
  }

  function Reversed(ids: seq<SesId>): seq<SesId> {
    if ids == [] then [] else Reversed(ids[1..]) + [ids[0]]
  }

  /** Removes the sessions a walk over the table selected, then returns the table's references. */
  function DeleteSessions(s: State, ids: seq<SesId>): State {
    ReturnAll(s.(ses := RmAll(s.ses, ids)), Reversed(ids))
  }

  /** add_static_route */
  function AddStatic(s: State, m: Mapping, inPool4: bool, memory: bool): (State, bool) {
    if !inPool4 then (s, false)
    else
      var other4 := BibFind4(s.bib, EndOf4(m));
      if other4.Some? then (s.(bib := BibReturn(BibGet(s.bib, other4.value), other4.value)), false)
      else
        var other6 := BibFind6(s.bib, EndOf6(m));
        if other6.Some? then (s.(bib := BibReturn(BibGet(s.bib, other6.value), other6.value)), false)
        else if !memory then (s, false)
        else
          var (db, ok) := BibAdd(s.bib, m, true);
          (s.(bib := db), ok)
  }

  /** The lookup and the checks at the start of delete_static_route. */
  function StaticToDelete(s: State, proto: Proto, addr6: Option<Taddr6>, addr4: Option<Taddr4>): Option<BibId> {
    if addr6.Some? then BibFind6(s.bib, End6(proto, addr6.value))
    else if addr4.Some? then BibFind4(s.bib, End4(proto, addr4.value))
    else None
  }

  /** The fake user of a static entry goes; the caller still holds a reference. */
  function DropFakeUser(db: BibDb, b: BibId): BibDb {
    if b in db.statics then
      var db1 := BibReturn(db, b);
      db1.(statics := db1.statics - {b})
    else db
  }

  /** delete_static_route; `ids` are the sessions of the entry, as the walk over the table finds them. */
  function DeleteStatic(s: State, b: BibId, addr6: Option<Taddr6>, addr4: Option<Taddr4>, ids: seq<SesId>): State
    requires b in s.bib.entries
  {
    var s1 := s.(bib := BibGet(s.bib, b));
    if addr6.Some? && addr4.Some? && s.bib.entries[b].ipv4 != addr4.value then s1.(bib := BibReturn(s1.bib, b))
    else
      var s2 := DeleteSessions(s1.(bib := DropFakeUser(s1.bib, b)), ids);
      s2.(bib := BibReturn(s2.bib, b))
  }

  /** The body of bib/table.c's __flush: drops the fake user but does not clear is_static. */
  function BibFlushOne(db: BibDb, b: BibId): BibDb {
    if b in db.statics then BibReturn(db, b) else db
  }

  function BibFlush(db: BibDb, ids: seq<BibId>): BibDb
    decreases |ids|
  {
    if ids == [] then db else BibFlush(BibFlushOne(db, ids[0]), ids[1..])
  }

  const EXPIRERS := [Expirer(UDP, Est), Expirer(UDP, Trans), Expirer(TCP, Est), Expirer(TCP, Trans),
                     Expirer(ICMP, Est), Expirer(ICMP, Trans)]

  function UpdateTimersOf(d: SessionDb, es: seq<Expirer>, ts: Timeouts, now: nat): SessionDb
    decreases |es|
  {
    if es == [] then d else UpdateTimersOf(ForceReschedule(d, es[0], ts, now), es[1..], ts, now)
  }

  /** New timeouts in the configuration, then sessiondb_update_timers. */
  function SetTimeouts(s: State, ts: Timeouts): State {
    s.(timeouts := ts, ses := UpdateTimersOf(s.ses, EXPIRERS, ts, s.now))
  }
}
