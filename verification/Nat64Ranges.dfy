/** Deleting ranges of sessions and BIB entries by walking the ordered indexes. */
module Nat64Ranges {

  import opened Types
  import opened TableWalk
  import opened Nat64
  import opened Nat64Inv
  import opened Nat64Tables
  import opened Nat64Steps
  import opened Nat64Packets
  import opened Nat64Timers
  import opened Nat64Requests

  // ------------------------------------------------------------------ the indexes as ordered sequences

  /** The fields compare_full4 compares, in its order. */
  function Quad4(k: Key4): Quad { Quad(k.local.l3, k.local.l4, k.remote.l3, k.remote.l4) }
  function Quad6(k: Key6): Quad { Quad(k.local.l3, k.local.l4, k.remote.l3, k.remote.l4) }
  function QuadBib(k: End4): Quad { Quad(k.addr.l3, k.addr.l4, 0, 0) }

  function Key4Of(proto: Proto, q: Quad): Key4 { Key4(proto, Taddr4(q.a, q.b), Taddr4(q.c, q.d)) }
  function Key6Of(proto: Proto, q: Quad): Key6 { Key6(proto, Taddr6(q.a, q.b), Taddr6(q.c, q.d)) }
  function End4Of(proto: Proto, q: Quad): End4 { End4(proto, Taddr4(q.a, q.b)) }

  ghost function Tree4(d: SessionDb, proto: Proto): seq<Quad> {
    Ordering(set k | k in d.by4 && k.proto == proto :: Quad4(k))
  }

  ghost function Tree6(d: SessionDb, proto: Proto): seq<Quad> {
    Ordering(set k | k in d.by6 && k.proto == proto :: Quad6(k))
  }

  ghost function TreeBib(db: BibDb, proto: Proto): seq<Quad> {
    Ordering(set k | k in db.by4 && k.proto == proto :: QuadBib(k))
  }

  /** The sessions a walk over the IPv4 index took. */
  ghost function Taken4(d: SessionDb, proto: Proto, w: seq<Quad>): seq<SesId> {
    seq(|w|, n requires 0 <= n < |w| => if Key4Of(proto, w[n]) in d.by4 then d.by4[Key4Of(proto, w[n])] else 0)
  }

  ghost function Taken6(d: SessionDb, proto: Proto, w: seq<Quad>): seq<SesId> {
    seq(|w|, n requires 0 <= n < |w| => if Key6Of(proto, w[n]) in d.by6 then d.by6[Key6Of(proto, w[n])] else 0)
  }

  ghost function TakenBib(db: BibDb, proto: Proto, w: seq<Quad>): seq<BibId> {
    seq(|w|, n requires 0 <= n < |w| => if End4Of(proto, w[n]) in db.by4 then db.by4[End4Of(proto, w[n])] else 0)
  }

  lemma Tree4Members(d: SessionDb, proto: Proto)
    ensures Ascending(Tree4(d, proto))
    ensures forall q :: q in Tree4(d, proto) <==> Key4Of(proto, q) in d.by4
  {
    var ks := set k | k in d.by4 && k.proto == proto :: Quad4(k);
    forall q ensures q in ks <==> Key4Of(proto, q) in d.by4 {
      if q in ks {
        var k :| k in d.by4 && k.proto == proto && Quad4(k) == q;
        assert k == Key4Of(proto, q);
      }
      assert Quad4(Key4Of(proto, q)) == q;
    }
  }

  lemma Tree6Members(d: SessionDb, proto: Proto)
    ensures Ascending(Tree6(d, proto))
    ensures forall q :: q in Tree6(d, proto) <==> Key6Of(proto, q) in d.by6
  {
    var ks := set k | k in d.by6 && k.proto == proto :: Quad6(k);
    forall q ensures q in ks <==> Key6Of(proto, q) in d.by6 {
      if q in ks {
        var k :| k in d.by6 && k.proto == proto && Quad6(k) == q;
        assert k == Key6Of(proto, q);
      }
      assert Quad6(Key6Of(proto, q)) == q;
    }
  }

  lemma TreeBibMembers(db: BibDb, proto: Proto)
    ensures Ascending(TreeBib(db, proto))
    ensures forall q :: q in TreeBib(db, proto) <==> End4Of(proto, q) in db.by4 && q.c == 0 && q.d == 0
  {
    var ks := set k | k in db.by4 && k.proto == proto :: QuadBib(k);
    forall q ensures q in ks <==> End4Of(proto, q) in db.by4 && q.c == 0 && q.d == 0 {
      if q in ks {
        var k :| k in db.by4 && k.proto == proto && QuadBib(k) == q;
        assert k == End4Of(proto, q);
      }
      if q.c == 0 && q.d == 0 {
        assert QuadBib(End4Of(proto, q)) == q;
      }
    }
  }

  // ------------------------------------------------------------------ what was taken

  /** `ids` are, once each, the table's sessions of `proto` whose addresses are in `w`. */
  ghost predicate Selects4(d: SessionDb, proto: Proto, w: seq<Quad>, ids: seq<SesId>) {
    && Distinct(ids)
    && forall i :: i in ids <==>
         i in d.expirer && i in d.flows && d.flows[i].proto == proto && Quad4(KeyOf4(d.flows[i])) in w
  }

  ghost predicate Selects6(d: SessionDb, proto: Proto, w: seq<Quad>, ids: seq<SesId>) {
    && Distinct(ids)
    && forall i :: i in ids <==>
         i in d.expirer && i in d.flows && d.flows[i].proto == proto && Quad6(KeyOf6(d.flows[i])) in w
  }

  lemma AscendingDistinct(w: seq<Quad>, n: nat, m: nat)
    requires Ascending(w) && n < m < |w|
    ensures w[n] != w[m]
  {
  }

  lemma Taken4Selects(s: State, proto: Proto, w: seq<Quad>, c: Ctx)
    requires Good(s, c) && Ascending(w) && forall q :: q in w ==> Key4Of(proto, q) in s.ses.by4
    ensures Selects4(s.ses, proto, w, Taken4(s.ses, proto, w))
  {
    hide Good, Ascending;
    var d := s.ses;
    var ids := Taken4(d, proto, w);
    FoundFacts(s, c);
    forall n | 0 <= n < |w|
      ensures ids[n] in d.expirer && ids[n] in d.flows && KeyOf4(d.flows[ids[n]]) == Key4Of(proto, w[n])
    {
      assert w[n] in w;
    }
    forall n, m | 0 <= n < m < |ids| ensures ids[n] != ids[m] {
      AscendingDistinct(w, n, m);
      assert Quad4(Key4Of(proto, w[n])) == w[n] && Quad4(Key4Of(proto, w[m])) == w[m];
    }
    forall i | i in d.expirer && i in d.flows && d.flows[i].proto == proto && Quad4(KeyOf4(d.flows[i])) in w
      ensures i in ids
    {
      var n :| 0 <= n < |w| && w[n] == Quad4(KeyOf4(d.flows[i]));
      assert Key4Of(proto, w[n]) == KeyOf4(d.flows[i]);
      TableFacts(s, c, i);
      assert ids[n] == i;
    }
    forall i | i in ids ensures d.flows[i].proto == proto && Quad4(KeyOf4(d.flows[i])) in w {
      var n :| 0 <= n < |ids| && ids[n] == i;
      assert Quad4(Key4Of(proto, w[n])) == w[n];
    }
  }

  lemma Taken6Selects(s: State, proto: Proto, w: seq<Quad>, c: Ctx)
    requires Good(s, c) && Ascending(w) && forall q :: q in w ==> Key6Of(proto, q) in s.ses.by6
    ensures Selects6(s.ses, proto, w, Taken6(s.ses, proto, w))
  {
    hide Good, Ascending;
    var d := s.ses;
    var ids := Taken6(d, proto, w);
    FoundFacts(s, c);
    forall n | 0 <= n < |w|
      ensures ids[n] in d.expirer && ids[n] in d.flows && KeyOf6(d.flows[ids[n]]) == Key6Of(proto, w[n])
    {
      assert w[n] in w;
    }
    forall n, m | 0 <= n < m < |ids| ensures ids[n] != ids[m] {
      AscendingDistinct(w, n, m);
      assert Quad6(Key6Of(proto, w[n])) == w[n] && Quad6(Key6Of(proto, w[m])) == w[m];
    }
    forall i | i in d.expirer && i in d.flows && d.flows[i].proto == proto && Quad6(KeyOf6(d.flows[i])) in w
      ensures i in ids
    {
      var n :| 0 <= n < |w| && w[n] == Quad6(KeyOf6(d.flows[i]));
      assert Key6Of(proto, w[n]) == KeyOf6(d.flows[i]);
      TableFacts(s, c, i);
      assert ids[n] == i;
    }
    forall i | i in ids ensures d.flows[i].proto == proto && Quad6(KeyOf6(d.flows[i])) in w {
      var n :| 0 <= n < |ids| && ids[n] == i;
      assert Quad6(Key6Of(proto, w[n])) == w[n];
    }
  }

  // ------------------------------------------------------------------ deleting sessions

  /** What a request is about: everything, or the given ports of a block of `size` addresses. */
  datatype Scope = Everything | Block(address: nat, size: nat, min: nat, max: nat)

  predicate ValidScope(r: Scope) { r.Block? ==> r.size > 0 }

  predicate Covers(r: Scope, a: Taddr4)
    requires ValidScope(r)
  {
    r.Block? ==> InBlock(r.address, r.size, a.l3) && r.min <= a.l4 <= r.max && r.address <= a.l3
  }

  /** What the walk over an index takes: from the first key if there is no offset. */
  function Chosen(keys: seq<Quad>, r: Scope): seq<Quad>
    requires ValidScope(r)
  {
    if r.Everything? then Walk(keys, TakeAll())
    else Walk(From(keys, Quad(r.address, r.min, 0, 0), true), RangeAct(r.address, r.size, r.min, r.max))
  }

  lemma ChosenAre(keys: seq<Quad>, r: Scope)
    requires Ascending(keys) && ValidScope(r)
    ensures Ascending(Chosen(keys, r))
    ensures forall q :: q in Chosen(keys, r) <==> q in keys && Covers(r, Taddr4(q.a, q.b))
  {
    hide InBlock, Ascending, From;
    if r.Everything? {
      WalkTakesAll(keys, TakeAll());
    } else {
      RangeWalk(keys, r.address, r.size, r.min, r.max);
    }
    hide Walk;
  }

  /** The sessions sessiontable_delete_taddr4s and sessiontable_flush select. */
  ghost function RangeIds(d: SessionDb, proto: Proto, r: Scope): seq<SesId>
    requires ValidScope(r)
  {
    Taken4(d, proto, Chosen(Tree4(d, proto), r))
  }

  /** The sessions sessiontable_delete_by_bib selects. */
  ghost function BibIds(d: SessionDb, m: Mapping): seq<SesId> {
    Taken4(d, m.proto, Walk(From(Tree4(d, m.proto), Quad(m.ipv4.l3, m.ipv4.l4, 0, 0), true), BibAct(m.ipv4.l3, m.ipv4.l4)))
  }

  /** __rm_taddr6s */
  function Block6Act(address: nat, size: nat): Quad -> Act
    requires size > 0
  {
    (k: Quad) => if !InBlock(address, size, k.a) then Stop else Take
  }

  lemma Block6Walk(keys: seq<Quad>, address: nat, size: nat)
    requires Ascending(keys) && size > 0
    ensures var w := Walk(From(keys, Quad(address, 0, 0, 0), true), Block6Act(address, size));
            Ascending(w) && forall k :: k in w <==> k in keys && InBlock(address, size, k.a) && address <= k.a
  {
    var offset, act := Quad(address, 0, 0, 0), Block6Act(address, size);
    var seen := From(keys, offset, true);
    FromIsTheRest(keys, offset, true);
    forall i, j | 0 <= i < j < |seen| && act(seen[i]).Stop? ensures act(seen[j]).Stop? {
      assert seen[i] in seen && Less(seen[i], seen[j]);
      AfterBlock(address, size, seen[i].a, seen[j].a);
    }
    WalkTakesAll(seen, act);
  }

  /** The sessions sessiontable_delete_taddr6s selects. */
  ghost function Block6Ids(d: SessionDb, proto: Proto, address: nat, size: nat): seq<SesId>
    requires size > 0
  {
    Taken6(d, proto, Walk(From(Tree6(d, proto), Quad(address, 0, 0, 0), true), Block6Act(address, size)))
  }

  lemma RangeIdsAre(s: State, proto: Proto, r: Scope, c: Ctx)
    requires Good(s, c) && ValidScope(r)
    ensures Distinct(RangeIds(s.ses, proto, r))
    ensures forall i :: i in RangeIds(s.ses, proto, r) <==>
              i in s.ses.expirer && i in s.ses.flows && s.ses.flows[i].proto == proto && Covers(r, s.ses.flows[i].local4)
  {
    hide Good, Ascending, Chosen, Distinct, Taken4, Covers, Tree4;
    Tree4Members(s.ses, proto);
    ChosenAre(Tree4(s.ses, proto), r);
    Taken4Selects(s, proto, Chosen(Tree4(s.ses, proto), r), c);
    forall i | i in s.ses.expirer && i in s.ses.flows && s.ses.flows[i].proto == proto
      ensures Quad4(KeyOf4(s.ses.flows[i])) in Tree4(s.ses, proto)
      ensures Covers(r, Taddr4(Quad4(KeyOf4(s.ses.flows[i])).a, Quad4(KeyOf4(s.ses.flows[i])).b))
          <==> Covers(r, s.ses.flows[i].local4)
    {
      TableFacts(s, c, i);
      assert Key4Of(proto, Quad4(KeyOf4(s.ses.flows[i]))) == KeyOf4(s.ses.flows[i]);
    }
  }

  lemma BibIdsAre(s: State, m: Mapping, c: Ctx)
    requires Good(s, c)
    ensures Distinct(BibIds(s.ses, m))
    ensures forall i :: i in BibIds(s.ses, m) <==>
              i in s.ses.expirer && i in s.ses.flows && s.ses.flows[i].proto == m.proto && s.ses.flows[i].local4 == m.ipv4
  {
    hide Good, Ascending, Walk, From, Distinct, Taken4, Tree4;
    Tree4Members(s.ses, m.proto);
    BibWalk(Tree4(s.ses, m.proto), m.ipv4.l3, m.ipv4.l4);
    var w := Walk(From(Tree4(s.ses, m.proto), Quad(m.ipv4.l3, m.ipv4.l4, 0, 0), true), BibAct(m.ipv4.l3, m.ipv4.l4));
    Taken4Selects(s, m.proto, w, c);
    forall i | i in s.ses.expirer && i in s.ses.flows && s.ses.flows[i].proto == m.proto
      ensures Quad4(KeyOf4(s.ses.flows[i])) in Tree4(s.ses, m.proto)
    {
      TableFacts(s, c, i);
      assert Key4Of(m.proto, Quad4(KeyOf4(s.ses.flows[i]))) == KeyOf4(s.ses.flows[i]);
    }
  }

  lemma Block6IdsAre(s: State, proto: Proto, address: nat, size: nat, c: Ctx)
    requires Good(s, c) && size > 0
    ensures Distinct(Block6Ids(s.ses, proto, address, size))
    ensures forall i :: i in Block6Ids(s.ses, proto, address, size) <==>
              && i in s.ses.expirer && i in s.ses.flows && s.ses.flows[i].proto == proto
              && InBlock(address, size, s.ses.flows[i].local6.l3) && address <= s.ses.flows[i].local6.l3
  {
    hide Good, Ascending, Walk, From, Distinct, Taken6, InBlock, Tree6;
    Tree6Members(s.ses, proto);
    Block6Walk(Tree6(s.ses, proto), address, size);
    var w := Walk(From(Tree6(s.ses, proto), Quad(address, 0, 0, 0), true), Block6Act(address, size));
    Taken6Selects(s, proto, w, c);
    forall i | i in s.ses.expirer && i in s.ses.flows && s.ses.flows[i].proto == proto
      ensures Quad6(KeyOf6(s.ses.flows[i])) in Tree6(s.ses, proto)
    {
      TableFacts(s, c, i);
      assert Key6Of(proto, Quad6(KeyOf6(s.ses.flows[i]))) == KeyOf6(s.ses.flows[i]);
    }
  }

  /** The part of a range deletion that concerns sessions: table after table. */
  ghost function DeleteRange(s: State, protos: seq<Proto>, r: Scope): State
    requires ValidScope(r)
    decreases |protos|
  {
    if protos == [] then s else DeleteRange(DeleteSessions(s, RangeIds(s.ses, protos[0], r)), protos[1..], r)
  }

  /** Exactly the covered sessions of these protocols are gone; nothing else in the table or the queue changed. */
  ghost predicate DeletedRange(s: State, m: State, protos: seq<Proto>, r: Scope)
    requires ValidScope(r)
  {
    && (forall i :: i in m.ses.expirer <==>
          i in s.ses.expirer && !(i in s.ses.flows && s.ses.flows[i].proto in protos && Covers(r, s.ses.flows[i].local4)))
    && (forall i :: i in m.ses.expirer ==> m.ses.expirer[i] == s.ses.expirer[i])
    && (forall i :: (i in m.ses.expirer || i in s.queue.nodes) && i in s.ses.flows ==>
          && i in m.ses.flows && m.ses.flows[i] == s.ses.flows[i]
          && TcpOf(m.ses.tcp, i) == TcpOf(s.ses.tcp, i) && TimeOf(m.ses.time, i) == TimeOf(s.ses.time, i))
    && m.queue == s.queue && m.now == s.now && m.timeouts == s.timeouts
  }

  lemma {:induction false} DeleteRangeGood(s: State, protos: seq<Proto>, r: Scope, c: Ctx)
    requires Good(s, c) && c.changing == None && ValidScope(r)
    ensures Good(DeleteRange(s, protos, r), c) && DeletedRange(s, DeleteRange(s, protos, r), protos, r)
    decreases |protos|
  {
    hide Good, Covers, Distinct, DeleteSessions, RangeIds, Deleted;
    if protos == [] {
      hide TcpOf, TimeOf;
    } else {
      var ids := RangeIds(s.ses, protos[0], r);
      RangeIdsAre(s, protos[0], r, c);
      DeleteSessionsGood(s, ids, c);
      var m := DeleteSessions(s, ids);
      DeleteRangeGood(m, protos[1..], r, c);
      StoredFlows(s, c);
      assert protos == [protos[0]] + protos[1..];
      DeletedRangeStep(s, m, DeleteRange(m, protos[1..], r), ids, protos, r);
    }
  }

  lemma DeletedRangeStep(s: State, m: State, t: State, ids: seq<SesId>, protos: seq<Proto>, r: Scope)
    requires ValidScope(r) && protos != [] && Deleted(s, m, ids) && DeletedRange(m, t, protos[1..], r)
    requires forall i :: i in ids <==>
               i in s.ses.expirer && i in s.ses.flows && s.ses.flows[i].proto == protos[0]
               && Covers(r, s.ses.flows[i].local4)
    requires forall j :: j in s.ses.expirer ==> j in s.ses.flows
    requires forall p :: p in protos <==> p == protos[0] || p in protos[1..]
    ensures DeletedRange(s, t, protos, r)
  {
    hide TcpOf, TimeOf, Covers;
  }
}
