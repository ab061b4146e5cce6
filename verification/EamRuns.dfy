/**
 Runs of requests to the EAM table: how the tries of disjoint tables fare with their parent fields, and a run that ends
 in disagreement.
 */
module EamRuns {

  import opened Types
  import opened Trie
  import opened Eam
  import P = TrieParents

  // ------------------------------------------------------------------ what requests do to the tries

  datatype Edits = Edits(on6: seq<Op<Entry>>, on4: seq<Op<Entry>>)

  const NONE := Edits([], [])

  function Insertions(t: Table, e: Entry, force: bool): Edits {
    var k6, k4 := KeyOf(e.prefix6), KeyOf(e.prefix4);
    if !ValidEntry(e) || (!force && !BaseIsFree(t, e)) then NONE
    else if !Add(t.trie6, k6, e).Added? then Edits([AddOp(k6, e)], [])
    else if !Add(t.trie4, k4, e).Added? then Edits([AddOp(k6, e), RmOp(k6)], [AddOp(k4, e)])
    else Edits([AddOp(k6, e)], [AddOp(k4, e)])
  }

  function Removals(t: Table, k6: Key, k4: Key): Edits {
    if Rm(t.trie6, k6).None? then Edits([RmOp(k6)], []) else Edits([RmOp(k6)], [RmOp(k4)])
  }

  /** The additions and removals a request makes in the two tries. */
  function EditsOf(t: Table, q: Request): Edits {
    match q
    case Insertion(e, force) => Insertions(t, e, force)
    case Removal(p6, p4) =>
      var e6 := if p6.Some? then GetExact(t.trie6, p6.value) else None;
      var e4 := if p4.Some? then GetExact(t.trie4, p4.value) else None;
      if p6.Some? && p4.Some? then
        if e6.Some? && e4.Some? && e6 == e4 then Removals(t, KeyOf(p6.value), KeyOf(p4.value)) else NONE
      else if e6.Some? then Removals(t, KeyOf(p6.value), KeyOf(e6.value.prefix4))
      else if e4.Some? then Removals(t, KeyOf(e4.value.prefix6), KeyOf(p4.value))
      else NONE
  }

  function AllEdits(t: Table, qs: seq<Request>): Edits
    decreases |qs|
  {
    if qs == [] then NONE
    else
      var first, rest := EditsOf(t, qs[0]), AllEdits(Serve(t, qs[0]), qs[1..]);
      Edits(first.on6 + rest.on6, first.on4 + rest.on4)
  }

  lemma RunNone<V>(t: Node<V>)
    ensures Run(t, []) == t
  {
  }

  lemma RunOne<V>(t: Node<V>, op: Op<V>)
    ensures Run(t, [op]) == Apply(t, op)
  {
    RunNone(Apply(t, op));
  }

  lemma RunTwo<V>(t: Node<V>, a: Op<V>, b: Op<V>)
    ensures Run(t, [a, b]) == Apply(Apply(t, a), b)
  {
    assert [a, b][1..] == [b];
    RunOne(Apply(t, a), b);
  }

  lemma RemovalsServe(t: Table, k6: Key, k4: Key)
    ensures var (r, x) := (RmBoth(t, k6, k4).0, Removals(t, k6, k4));
            r.trie6 == Run(t.trie6, x.on6) && r.trie4 == Run(t.trie4, x.on4)
  {
    hide Rm, Run;
    RunNone(t.trie4);
    RunOne(t.trie6, RmOp(k6));
    RunOne(t.trie4, RmOp(k4));
  }

  lemma InsertionsServe(t: Table, e: Entry, force: bool)
    ensures var (r, x) := (AddEntry(t, e, force).0, Insertions(t, e, force));
            r.trie6 == Run(t.trie6, x.on6) && r.trie4 == Run(t.trie4, x.on4)
  {
    hide Add, Rm, Run, ValidEntry, BaseIsFree, KeyOf;
    var k6, k4 := KeyOf(e.prefix6), KeyOf(e.prefix4);
    RunNone(t.trie6);
    RunNone(t.trie4);
    RunOne(t.trie6, AddOp(k6, e));
    RunTwo(t.trie6, AddOp(k6, e), RmOp(k6));
    RunOne(t.trie4, AddOp(k4, e));
  }

  /** Serving a request is running its edits on the two tries. */
  lemma EditsServe(t: Table, q: Request)
    ensures Serve(t, q).trie6 == Run(t.trie6, EditsOf(t, q).on6)
    ensures Serve(t, q).trie4 == Run(t.trie4, EditsOf(t, q).on4)
  {
    hide Run, GetExact, KeyOf, RmBoth, Removals, AddEntry, Insertions;
    RunNone(t.trie6);
    RunNone(t.trie4);
    match q {
      case Insertion(e, force) => InsertionsServe(t, e, force);
      case Removal(p6, p4) =>
        if p6.Some? && p4.Some? {
          RemovalsServe(t, KeyOf(p6.value), KeyOf(p4.value));
        } else if p6.Some? {
          var e := GetExact(t.trie6, p6.value);
          if e.Some? {
            RemovalsServe(t, KeyOf(p6.value), KeyOf(e.value.prefix4));
          }
        } else if p4.Some? {
          var e := GetExact(t.trie4, p4.value);
          if e.Some? {
            RemovalsServe(t, KeyOf(e.value.prefix6), KeyOf(p4.value));
          }
        }
    }
  }

  // ------------------------------------------------------------------ disjoint tables

  ghost predicate ApartFrom(t: Table, e: Entry) {
    && (forall k :: At(t.trie6, k).Some? ==> Apart(k, KeyOf(e.prefix6)))
    && (forall k :: At(t.trie4, k).Some? ==> Apart(k, KeyOf(e.prefix4)))
  }

  /** Every insertion that gets past the checks is of prefixes apart from all those stored. */
  ghost predicate AllDisjoint(t: Table, qs: seq<Request>)
    decreases |qs|
  {
    qs != [] ==>
      && WellFormed(qs[0])
      && (qs[0].Insertion? && ValidEntry(qs[0].e) && (qs[0].force || BaseIsFree(t, qs[0].e)) ==> ApartFrom(t, qs[0].e))
      && AllDisjoint(Serve(t, qs[0]), qs[1..])
  }

  ghost predicate DisjointTable(t: Table) {
    Consistent(t) && AllApart(t.trie6) && AllApart(t.trie4)
  }

  lemma DisjointServe(t: Table, q: Request)
    requires DisjointTable(t) && AllDisjoint(t, [q])
    ensures DisjointTable(Serve(t, q))
  {
    hide Consistent, AddEntry, RmEntry, At, ValidEntry, BaseIsFree, KeyOf;
    match q {
      case Insertion(e, force) =>
        AddEntryMeaning(t, e, force);
        if AddEntry(t, e, force).1.Ok? {
          DisjointFits(t, e);
        }
      case Removal(p6, p4) => RemovalMeaning(t, p6, p4);
    }
  }

  lemma NoReplaceOne<V>(t: Node<V>, op: Op<V>)
    requires Trie.Valid(t) && AllApart(t)
    requires op.AddOp? ==> forall j :: At(t, j).Some? ==> Apart(j, op.key)
    ensures P.NeverReplaces(t, [op])
  {
    P.ApartNeverReplaces(t, op);
    assert P.NeverReplaces(Apply(t, op), []);
  }

  /** An entry apart from all gets in, so no removal follows. */
  lemma ApartGetsIn(t: Table, e: Entry)
    requires DisjointTable(t) && ApartFrom(t, e)
    ensures Add(t.trie6, KeyOf(e.prefix6), e).Added? && Add(t.trie4, KeyOf(e.prefix4), e).Added?
  {
    hide Add, KeyOf;
    AddMeaning(t.trie6, KeyOf(e.prefix6), e);
    AddMeaning(t.trie4, KeyOf(e.prefix4), e);
  }

  lemma DisjointNeverReplaces(t: Table, q: Request)
    requires DisjointTable(t) && AllDisjoint(t, [q])
    ensures P.NeverReplaces(t.trie6, EditsOf(t, q).on6) && P.NeverReplaces(t.trie4, EditsOf(t, q).on4)
  {
    hide At, Add, Rm, GetExact, KeyOf, ValidEntry, BaseIsFree, Trie.Valid, Mirrors, AllApart, P.Replaces;
    match q {
      case Insertion(e, force) =>
        if ValidEntry(e) && (force || BaseIsFree(t, e)) {
          ApartGetsIn(t, e);
          NoReplaceOne(t.trie6, AddOp(KeyOf(e.prefix6), e));
          NoReplaceOne(t.trie4, AddOp(KeyOf(e.prefix4), e));
        }
      case Removal(p6, p4) =>
        forall k ensures P.NeverReplaces(t.trie6, [RmOp(k)]) && P.NeverReplaces(t.trie4, [RmOp(k)]) {
          NoReplaceOne(t.trie6, RmOp(k));
          NoReplaceOne(t.trie4, RmOp(k));
        }
    }
  }

  lemma {:induction false} NeverReplacesAppend<V>(t: Node<V>, a: seq<Op<V>>, b: seq<Op<V>>)
    requires P.NeverReplaces(t, a) && P.NeverReplaces(Run(t, a), b)
    ensures P.NeverReplaces(t, a + b) && Run(t, a + b) == Run(Run(t, a), b)
    decreases |a|
  {
    if a == [] {
      assert a + b == b;
    } else {
      assert (a + b)[1..] == a[1..] + b;
      NeverReplacesAppend(Apply(t, a[0]), a[1..], b);
    }
  }

  lemma {:induction false} DisjointRuns(t: Table, qs: seq<Request>)
    requires DisjointTable(t) && AllDisjoint(t, qs)
    ensures var (r, x) := (ServeAll(t, qs), AllEdits(t, qs));
            && DisjointTable(r)
            && P.NeverReplaces(t.trie6, x.on6) && r.trie6 == Run(t.trie6, x.on6)
            && P.NeverReplaces(t.trie4, x.on4) && r.trie4 == Run(t.trie4, x.on4)
    decreases |qs|
  {
    hide DisjointTable, EditsOf, Serve, ApartFrom, ValidEntry, BaseIsFree;
    if qs == [] {
      RunNone(t.trie6);
      RunNone(t.trie4);
      assert ServeAll(t, qs) == t && AllEdits(t, qs) == NONE;
    } else {
      assert AllDisjoint(Serve(t, qs[0]), []);
      assert AllDisjoint(t, [qs[0]]);
      DisjointServe(t, qs[0]);
      EditsServe(t, qs[0]);
      DisjointNeverReplaces(t, qs[0]);
      var s, x, y := Serve(t, qs[0]), EditsOf(t, qs[0]), AllEdits(Serve(t, qs[0]), qs[1..]);
      DisjointRuns(s, qs[1..]);
      NeverReplacesAppend(t.trie6, x.on6, y.on6);
      NeverReplacesAppend(t.trie4, x.on4, y.on4);
    }
  }

  /**
   Tables of disjoint prefixes never take the branches that forget a parent: with its parent fields, each trie is the
   one of the model.
   */
  lemma DisjointTablesAsWritten(qs: seq<Request>)
    requires AllDisjoint(EMPTY, qs)
    ensures var (r, x) := (ServeAll(EMPTY, qs), AllEdits(EMPTY, qs));
            var d6, d4 := P.DoAll(P.Empty<Entry>(), x.on6), P.DoAll(P.Empty<Entry>(), x.on4);
            && DisjointTable(r)
            && d6.Some? && P.Erase(d6.value.root) == r.trie6
            && d4.Some? && P.Erase(d4.value.root) == r.trie4
  {
    DisjointRuns(EMPTY, qs);
    var x := AllEdits(EMPTY, qs);
    P.ParentsStayRightIff(P.Empty<Entry>(), x.on6);
    P.ParentsStayRightIff(P.Empty<Entry>(), x.on4);
  }

  // ------------------------------------------------------------------ a prefix that is stored twice

  function Padded(k: Key, width: nat): (p: Prefix)
    requires |k| <= width
    ensures ValidPrefix(p, width) && KeyOf(p) == k
  {
    Prefix(k + seq(width - |k|, _ => false), |k|)
  }

  function Key6(i: nat): (k: Key)
    ensures |k| <= 4
  {
    if i == 0 then [] else if i == 1 then [false] else if i == 3 then [true]
    else if i == 4 then [true, true] else [true, true, true, false]
  }

  function Key4(i: nat): (k: Key)
    ensures |k| == 3
  {
    [4 <= i, i == 2 || i == 3, i == 1 || i == 3 || i == 5]
  }

  function Item(i: nat): (e: Entry)
    ensures ValidEntry(e) && KeyOf(e.prefix6) == Key6(i) && KeyOf(e.prefix4) == Key4(i)
  {
    Entry(Padded(Key6(i), 128), Padded(Key4(i), 32))
  }

  /** The IPv6 trie after `i` insertions. */
  function Shape6(i: nat): Node<Entry> {
    var leaf := (j: nat) => Leaf(Key6(j), Item(j));
    if i == 0 then Nil
    else
      Node([], Some(Item(0)), if i == 1 then Nil else leaf(1),
           if i <= 2 then Nil
           else if i == 3 then leaf(2)
           else Node(Key6(3), Some(Item(3)),
                     if i == 4 then Nil
                     else if i == 5 then leaf(4)
                     else Node(Key6(4), Some(Item(4)), leaf(5), Nil),
                     leaf(2)))
  }

  lemma Keys6Apart()
    ensures !(Key6(1) <= Key6(2)) && !(Key6(1) <= Key6(3)) && !(Key6(1) <= Key6(4)) && !(Key6(2) <= Key6(4))
    ensures Key6(3) <= Key6(2) && Key6(3) <= Key6(4) && Key6(4) <= Key6(2) && Key6(5) == Key6(2)
    ensures Key6(3) != Key6(4) && Key6(4) != Key6(2) && !(Key6(3) <= Key6(1)) && !(Key6(2) <= Key6(3))
  {
    assert !Key6(1)[0] && Key6(2)[0] && Key6(3)[0] && Key6(4)[0];
  }

  lemma FirstShapes6(i: nat)
    requires i < 3
    ensures Add(Shape6(i), Key6(i), Item(i)) == Added(Shape6(i + 1))
  {
    hide Item;
    Keys6Apart();
  }

  lemma Shape6Four()
    ensures Add(Shape6(3), Key6(3), Item(3)) == Added(Shape6(4))
  {
    hide Item, AddFullCollision;
    Keys6Apart();
    var t := Shape6(3);
    assert t.left.key == Key6(1) && t.right.key == Key6(2);
    hide Key6;
  }

  lemma Shape6Five()
    ensures Add(Shape6(4), Key6(4), Item(4)) == Added(Shape6(5))
  {
    hide Item, AddFullCollision;
    Keys6Apart();
    var t, k := Shape6(4), Key6(4);
    assert t.left.key == Key6(1) && t.right.key == Key6(3) && t.right.right.key == Key6(2) && t.key == [];
    hide Key6;
    assert AddBelow(t.right, k, Item(4)) == Added(Shape6(5).right);
  }

  lemma Shape6Six()
    ensures Add(Shape6(5), Key6(5), Item(5)) == Added(Shape6(6))
  {
    hide Item, AddFullCollision;
    Keys6Apart();
    var t, k := Shape6(5), Key6(5);
    assert t.left.key == Key6(1) && t.right.key == Key6(3) && t.right.left.key == Key6(4) && t.key == [];
    hide Key6;
    assert AddBelow(t.right.left, k, Item(5)) == Added(Shape6(6).right.left);
    assert AddBelow(t.right, k, Item(5)) == Added(Shape6(6).right);
  }

  lemma Shape6Step(i: nat)
    requires i < 6
    ensures Add(Shape6(i), Key6(i), Item(i)) == Added(Shape6(i + 1))
  {
    hide Add, Shape6;
    if i < 3 {
      FirstShapes6(i);
    } else {
      Shape6Four();
      Shape6Five();
      Shape6Six();
    }
  }

  /** The IPv4 trie after `i` insertions. */
  function Shape4(i: nat): Node<Entry> {
    if i == 0 then Nil else Apply(Shape4(i - 1), AddOp(Key4(i - 1), Item(i - 1)))
  }

  ghost predicate Holds4(t: Node<Entry>, n: nat) {
    && Trie.Valid(t)
    && (forall j: nat :: j < n ==> At(t, Key4(j)) == Some(Item(j)))
    && (forall k :: At(t, k).Some? ==> exists j: nat :: j < n && k == Key4(j))
  }

  lemma Keys4Differ(i: nat, j: nat)
    requires i < 6 && j < 6 && i != j
    ensures Key4(i) != Key4(j) && Apart(Key4(i), Key4(j))
  {
  }

  lemma {:induction false} Shape4Holds(n: nat)
    requires n <= 6
    ensures Holds4(Shape4(n), n)
    ensures n < 6 ==> Add(Shape4(n), Key4(n), Item(n)) == Added(Shape4(n + 1))
  {
    hide Key4, Item, Add, Crowds, At, Trie.Valid;
    if n > 0 {
      Shape4Holds(n - 1);
      Holds4Grows(Shape4(n - 1), n - 1);
    } else {
      NilHolds();
    }
    if n < 6 {
      Holds4Grows(Shape4(n), n);
    }
  }

  lemma NilHolds()
    ensures Holds4(Nil, 0)
  {
  }

  lemma Holds4Grows(t: Node<Entry>, n: nat)
    requires n < 6 && Holds4(t, n)
    ensures Add(t, Key4(n), Item(n)).Added? && Holds4(Add(t, Key4(n), Item(n)).trie, n + 1)
  {
    hide Key4, Item, Add, Crowds, At, Trie.Valid;
    forall j: nat | j < n ensures Key4(j) != Key4(n) && Apart(Key4(j), Key4(n)) {
      Keys4Differ(j, n);
    }
    AddMeaning(t, Key4(n), Item(n));
    ApartNeverCrowds(t, Key4(n));
    var r := Add(t, Key4(n), Item(n)).trie;
    forall k | At(r, k).Some? ensures exists j: nat :: j < n + 1 && k == Key4(j) {
      if k != Key4(n) {
        assert At(t, k).Some?;
      }
    }
  }

  function Items(i: nat): seq<Request>
    requires i <= 6
    decreases 6 - i
  {
    if i == 6 then [] else [Insertion(Item(i), true)] + Items(i + 1)
  }

  lemma {:induction false} ItemsServe(i: nat)
    requires i <= 6
    ensures ServeAll(Table(Shape6(i), Shape4(i), i), Items(i)) == Table(Shape6(6), Shape4(6), 6)
    decreases 6 - i
  {
    hide Shape6, Shape4, Item, Add, Rm;
    if i < 6 {
      Shape6Step(i);
      Shape4Holds(i);
      ItemsServe(i + 1);
      assert Items(i)[1..] == Items(i + 1);
    }
  }

  /**
   Six forced insertions, all accepted, the last of a prefix that is stored already: it shadows the entry that has it,
   which stays in the IPv4 trie alone.
   */
  lemma StoredTwiceExample()
    ensures var t := ServeAll(EMPTY, Items(0));
            t.count == 6 && !Mirrors(t) && Key6(2) == Key6(5) && At(t.trie4, Key4(2)) == Some(Item(2))
            && At(t.trie6, Key6(2)) == Some(Item(5)) && Item(2) != Item(5)
  {
    ItemsServe(0);
    Shape4Holds(6);
    var t := Table(Shape6(6), Shape4(6), 6);
    assert At(t.trie4, Key4(2)) == Some(Item(2));
    Shape6At();
    assert Item(2) != Item(5) by { assert KeyOf(Item(2).prefix4) != KeyOf(Item(5).prefix4); }
  }

  lemma Shape6At()
    ensures At(Shape6(6), Key6(5)) == Some(Item(5))
  {
    hide Item;
    var k := Key6(5);
    LeafAt(k, Item(5));
    LeafAt(Key6(1), Item(1));
    assert At(Shape6(6).right.left, k) == Some(Item(5));
    assert At(Shape6(6).right, k) == Some(Item(5));
  }
}
