/**
 Walks over an ordered index, from an offset and with an early end: __foreach of the session and BIB tables and the
 callbacks that delete ranges. Keys are compared field by field, so a key is the four numbers that are compared.
 */
module TableWalk {

  import opened Types
  import opened OrderedTree

  datatype Quad = Quad(a: nat, b: nat, c: nat, d: nat)

  predicate Less(x: Quad, y: Quad) {
    x.a < y.a || (x.a == y.a && (x.b < y.b || (x.b == y.b && (x.c < y.c || (x.c == y.c && x.d < y.d)))))
  }

  ghost predicate Ascending(keys: seq<Quad>) {
    forall i, j :: 0 <= i < j < |keys| ==> Less(keys[i], keys[j])
  }

  /** The in-order sequence of an index that holds exactly `ks`. */
  ghost predicate InOrderOf(keys: seq<Quad>, ks: set<Quad>) {
    Ascending(keys) && forall k :: k in keys <==> k in ks
  }

  function Insert(keys: seq<Quad>, k: Quad): seq<Quad> {
    if keys == [] || Less(k, keys[0]) then [k] + keys else [keys[0]] + Insert(keys[1..], k)
  }

  lemma {:induction false} InsertAscends(keys: seq<Quad>, k: Quad)
    requires Ascending(keys) && k !in keys
    ensures Ascending(Insert(keys, k))
    ensures forall x :: x in Insert(keys, k) <==> x == k || x in keys
    decreases |keys|
  {
    if keys == [] {
    } else if Less(k, keys[0]) {
      assert forall x :: x in [k] + keys <==> x == k || x in keys;
      forall i, j | 0 <= i < j < |keys| + 1 ensures Less(([k] + keys)[i], ([k] + keys)[j]) {
        assert i == 0 && j > 1 ==> Less(keys[0], keys[j - 1]);
      }
    } else {
      var rest := keys[1..];
      assert keys == [keys[0]] + rest;
      InsertAscends(rest, k);
      var r := Insert(rest, k);
      assert forall x :: x in [keys[0]] + r <==> x == keys[0] || x in r;
      forall j | 0 <= j < |r| ensures Less(keys[0], r[j]) {
        assert r[j] in r;
        if r[j] != k {
          var n :| 0 <= n < |rest| && rest[n] == r[j];
          assert keys[n + 1] == r[j];
        }
      }
    }
  }

  /** Every finite set of keys has its in-order sequence. */
  ghost function Ordering(ks: set<Quad>): (keys: seq<Quad>)
    ensures InOrderOf(keys, ks)
  {
    if ks == {} then []
    else
      var k :| k in ks;
      InsertAscends(Ordering(ks - {k}), k);
      Insert(Ordering(ks - {k}), k)
  }

  lemma {:induction false} OrderingUnique(x: seq<Quad>, y: seq<Quad>, ks: set<Quad>)
    requires InOrderOf(x, ks) && InOrderOf(y, ks)
    ensures x == y
    decreases |x|
  {
    Emptiness(x, ks);
    Emptiness(y, ks);
    if x == [] {
    } else {
      FirstIsLeast(x, y, ks);
      DropFirst(x, ks);
      DropFirst(y, ks);
      OrderingUnique(x[1..], y[1..], ks - {x[0]});
      assert x == [x[0]] + x[1..] && y == [y[0]] + y[1..];
    }
  }

  lemma Emptiness(x: seq<Quad>, ks: set<Quad>)
    requires InOrderOf(x, ks)
    ensures x == [] <==> ks == {}
  {
    if x != [] {
      assert x[0] in ks;
    }
  }

  lemma FirstIsLeast(x: seq<Quad>, y: seq<Quad>, ks: set<Quad>)
    requires InOrderOf(x, ks) && InOrderOf(y, ks) && x != [] && y != []
    ensures x[0] == y[0]
  {
    assert y[0] in ks && x[0] in ks;
    var i :| 0 <= i < |x| && x[i] == y[0];
    var j :| 0 <= j < |y| && y[j] == x[0];
    assert i > 0 ==> Less(x[0], x[i]);
    assert j > 0 ==> Less(y[0], y[j]);
  }

  lemma DropFirst(x: seq<Quad>, ks: set<Quad>)
    requires InOrderOf(x, ks) && x != []
    ensures InOrderOf(x[1..], ks - {x[0]})
  {
    assert x == [x[0]] + x[1..];
    forall k | k in x[1..] ensures k != x[0] {
      var i :| 0 <= i < |x[1..]| && x[1..][i] == k;
      assert Less(x[0], x[i + 1]);
    }
  }

  // ------------------------------------------------------------------ the walk

  datatype Act = Stop | Skip | Take

  /** The keys a walk takes: it goes on while the callback does not ask to stop. */
  function Walk(keys: seq<Quad>, act: Quad -> Act): seq<Quad> {
    if keys == [] || act(keys[0]).Stop? then []
    else (if act(keys[0]).Take? then [keys[0]] else []) + Walk(keys[1..], act)
  }

  /** Once the callback would stop, it would stop for every later key. */
  ghost predicate StopsForGood(keys: seq<Quad>, act: Quad -> Act) {
    forall i, j :: 0 <= i < j < |keys| && act(keys[i]).Stop? ==> act(keys[j]).Stop?
  }

  /** Then the early end loses nothing: the walk takes exactly what a walk to the end would. */
  lemma {:induction false} WalkTakesAll(keys: seq<Quad>, act: Quad -> Act)
    requires StopsForGood(keys, act) && Ascending(keys)
    ensures forall k :: k in Walk(keys, act) <==> k in keys && act(k).Take?
    ensures Ascending(Walk(keys, act))
    decreases |keys|
  {
    if keys == [] {
    } else {
      var rest := keys[1..];
      assert keys == [keys[0]] + rest;
      assert forall i :: 0 <= i < |rest| ==> rest[i] == keys[i + 1];
      WalkTakesAll(rest, act);
      if act(keys[0]).Stop? {
        forall k | k in keys ensures !act(k).Take? {
          var i :| 0 <= i < |keys| && keys[i] == k;
          assert i > 0 ==> act(keys[i]).Stop?;
        }
      } else {
        var w := Walk(rest, act);
        forall j | 0 <= j < |w| ensures Less(keys[0], w[j]) {
          assert w[j] in w && w[j] in rest;
        }
      }
    }
  }

  // ------------------------------------------------------------------ deleting ranges

  /** compare_full4 and its kin, against an offset. */
  function Compare(offset: Quad): Quad -> int {
    (k: Quad) => if Less(k, offset) then -1 else if k == offset then 0 else 1
  }

  /** The part of the index a walk sees that starts at `offset`, or after it. */
  function From(keys: seq<Quad>, offset: Quad, inclusive: bool): seq<Quad> {
    keys[StartIndex(keys, Compare(offset), inclusive)..]
  }

  ghost predicate NotYet(k: Quad, offset: Quad, inclusive: bool) {
    Less(offset, k) || (inclusive && k == offset)
  }

  lemma FromIsTheRest(keys: seq<Quad>, offset: Quad, inclusive: bool)
    requires Ascending(keys)
    ensures forall k :: k in From(keys, offset, inclusive) <==> k in keys && NotYet(k, offset, inclusive)
    ensures Ascending(From(keys, offset, inclusive))
  {
    var n := StartIndex(keys, Compare(offset), inclusive);
    forall i | 0 <= i < |keys| ensures NotYet(keys[i], offset, inclusive) <==> n <= i {
      if n < i {
        assert Less(keys[n], keys[i]);
      }
      if i < n - 1 {
        assert Less(keys[i], keys[n - 1]);
      }
    }
    hide Less;
    forall k ensures k in keys[n..] <==> k in keys && NotYet(k, offset, inclusive) {
      Suffix(keys, n, offset, inclusive, k);
    }
  }

  lemma Suffix(keys: seq<Quad>, n: nat, offset: Quad, inclusive: bool, k: Quad)
    requires n <= |keys| && forall i :: 0 <= i < |keys| ==> (NotYet(keys[i], offset, inclusive) <==> n <= i)
    ensures k in keys[n..] <==> k in keys && NotYet(k, offset, inclusive)
  {
    hide NotYet;
    if k in keys && NotYet(k, offset, inclusive) {
      var i :| 0 <= i < |keys| && keys[i] == k;
      assert keys[n..][i - n] == k;
    }
    if k in keys[n..] {
      var i :| 0 <= i < |keys[n..]| && keys[n..][i] == k;
      assert keys[n + i] == k;
    }
  }

  /** A walk that goes on after the last key shown shows the rest, whatever came or went in between. */
  lemma ResumeShowsTheRest(keys: seq<Quad>, now: seq<Quad>, offset: Quad)
    requires Ascending(keys) && Ascending(now)
    requires forall k :: Less(offset, k) ==> (k in keys <==> k in now)
    ensures From(now, offset, false) == From(keys, offset, false)
  {
    FromIsTheRest(keys, offset, false);
    FromIsTheRest(now, offset, false);
    var a, b := From(now, offset, false), From(keys, offset, false);
    hide Less, From;
    OrderingUnique(a, b, set k | k in a);
  }

  /** A prefix is a block of `size` addresses, the one `address` is in; prefix4_contains and ipv6_prefix_equal. */
  predicate InBlock(address: nat, size: nat, x: nat)
    requires size > 0
  {
    x / size == address / size
  }

  /** Addresses from `address` on that are out of its block lie after the block. */
  lemma AfterBlock(address: nat, size: nat, x: nat, y: nat)
    requires size > 0 && address <= x <= y && !InBlock(address, size, x)
    ensures !InBlock(address, size, y)
  {
    DivMonotone(address, x, size);
    DivMonotone(x, y, size);
  }

  lemma DivMonotone(x: nat, y: nat, size: nat)
    requires size > 0 && x <= y
    ensures x / size <= y / size
  {
    assert size * (x / size) <= x && y < size * (y / size + 1);
    MulLess(size, x / size, y / size + 1);
  }

  lemma MulLess(size: nat, a: nat, b: nat)
    requires size * a < size * b
    ensures a < b
  {
  }

  /** __rm_taddr4s and __delete_taddr4s */
  function RangeAct(address: nat, size: nat, min: nat, max: nat): Quad -> Act
    requires size > 0
  {
    (k: Quad) => if !InBlock(address, size, k.a) then Stop else if min <= k.b <= max then Take else Skip
  }

  /** What the deletion of a range takes, whatever the prefix: the matching keys from its address on. */
  lemma RangeWalk(keys: seq<Quad>, address: nat, size: nat, min: nat, max: nat)
    requires Ascending(keys) && size > 0
    ensures var w := Walk(From(keys, Quad(address, min, 0, 0), true), RangeAct(address, size, min, max));
            && Ascending(w)
            && forall k :: k in w <==> k in keys && InBlock(address, size, k.a) && min <= k.b <= max && address <= k.a
  {
    var offset, act := Quad(address, min, 0, 0), RangeAct(address, size, min, max);
    var seen := From(keys, offset, true);
    FromIsTheRest(keys, offset, true);
    forall i, j | 0 <= i < j < |seen| && act(seen[i]).Stop? ensures act(seen[j]).Stop? {
      assert seen[i] in seen && Less(seen[i], seen[j]);
      AfterBlock(address, size, seen[i].a, seen[j].a);
    }
    WalkTakesAll(seen, act);
  }

  /** For a prefix without a suffix, that is every matching key. */
  lemma SuffixFreeRange(address: nat, size: nat, x: nat)
    requires size > 0 && address % size == 0 && InBlock(address, size, x)
    ensures address <= x
  {
    assert x == size * (x / size) + x % size && address == size * (address / size);
  }

  /** __flush */
  function TakeAll(): Quad -> Act {
    (k: Quad) => Take
  }

  /** __rm_by_bib */
  function BibAct(a: nat, b: nat): Quad -> Act {
    (k: Quad) => if k.a != a || k.b != b then Stop else Take
  }

  lemma BibWalk(keys: seq<Quad>, a: nat, b: nat)
    requires Ascending(keys)
    ensures var w := Walk(From(keys, Quad(a, b, 0, 0), true), BibAct(a, b));
            Ascending(w) && forall k :: k in w <==> k in keys && k.a == a && k.b == b
  {
    var offset, act := Quad(a, b, 0, 0), BibAct(a, b);
    var seen := From(keys, offset, true);
    FromIsTheRest(keys, offset, true);
    forall i, j | 0 <= i < j < |seen| && act(seen[i]).Stop? ensures act(seen[j]).Stop? {
      assert seen[i] in seen && Less(seen[i], seen[j]);
    }
    WalkTakesAll(seen, act);
  }

  // ------------------------------------------------------------------ on the tree

  lemma CompareIsExact(keys: seq<Quad>, offset: Quad)
    requires Ascending(keys)
    ensures Exact(Compare(offset), keys) && Directed(Compare(offset), keys)
  {
    forall i, j | 0 <= i < j < |keys| && Compare(offset)(keys[i]) >= 0 ensures Compare(offset)(keys[j]) > 0 {
      assert Less(keys[i], keys[j]);
    }
  }

  /** compare_addrs4 leaves the last field, the remote port, out. */
  function CompareAddrs(target: Quad): Quad -> int {
    (k: Quad) => if Less(k, target.(d := k.d)) then -1 else if k == target.(d := k.d) then 0 else 1
  }

  lemma CompareAddrsIsDirected(keys: seq<Quad>, target: Quad)
    requires Ascending(keys)
    ensures Directed(CompareAddrs(target), keys)
  {
    var cmp := CompareAddrs(target);
    forall i, j | 0 <= i < j < |keys|
      ensures (cmp(keys[i]) >= 0 ==> cmp(keys[j]) >= 0) && (cmp(keys[i]) > 0 ==> cmp(keys[j]) > 0)
    {
      assert Less(keys[i], keys[j]);
    }
  }

  /** Whatever the shape of a tree, its keys alone decide what iteration sees. */
  lemma TreeIsOrdering(tree: Tree<Quad>, ks: set<Quad>)
    requires InOrderOf(InOrder(tree), ks)
    ensures InOrder(tree) == Ordering(ks)
  {
    OrderingUnique(InOrder(tree), Ordering(ks), ks);
  }

  /** sessiontable_get */
  method Lookup(tree: Tree<Quad>, target: Quad) returns (found: bool)
    requires Ascending(InOrder(tree))
    ensures found <==> target in InOrder(tree)
  {
    CompareIsExact(InOrder(tree), target);
    var r := Find(tree, Compare(target));
    return r.Some?;
  }

  /** sessiontable_allow: some session has these three fields, whatever its remote port. */
  method Allowed(tree: Tree<Quad>, target: Quad) returns (found: bool)
    requires Ascending(InOrder(tree))
    ensures found <==> exists k <- InOrder(tree) :: k.a == target.a && k.b == target.b && k.c == target.c
  {
    CompareAddrsIsDirected(InOrder(tree), target);
    var r := Find(tree, CompareAddrs(target));
    return r.Some?;
  }

  lemma WalkStep(keys: seq<Quad>, node: nat, act: Quad -> Act, taken: seq<Quad>)
    requires node < |keys| && !act(keys[node]).Stop?
    ensures taken + Walk(keys[node..], act)
         == (if act(keys[node]).Take? then taken + [keys[node]] else taken) + Walk(keys[node + 1..], act)
  {
    assert keys[node..][1..] == keys[node + 1..];
  }

  /** What a walk sees; without an offset that is everything. */
  function Shown(keys: seq<Quad>, offset: Option<Quad>, inclusive: bool): seq<Quad> {
    if offset.None? then keys else From(keys, offset.value, inclusive)
  }

  /** __foreach with a callback that takes keys; rb_next is the next position of the in-order sequence. */
  method Foreach(tree: Tree<Quad>, offset: Option<Quad>, inclusive: bool, act: Quad -> Act) returns (taken: seq<Quad>)
    requires Ascending(InOrder(tree))
    ensures taken == Walk(Shown(InOrder(tree), offset, inclusive), act)
  {
    hide InOrder, Ascending, StartIndex, Exact, Less;
    var keys := InOrder(tree);
    var node := 0;
    if offset.Some? {
      CompareIsExact(keys, offset.value);
      node := FindStartingPoint(tree, Compare(offset.value), inclusive);
    }
    assert keys[node..] == Shown(keys, offset, inclusive);
    ghost var all := Walk(keys[node..], act);
    taken := [];
    while node < |keys| && !act(keys[node]).Stop?
      invariant node <= |keys|
      invariant all == taken + Walk(keys[node..], act)
    {
      WalkStep(keys, node, act, taken);
      if act(keys[node]).Take? {
        taken := taken + [keys[node]];
      }
      node := node + 1;
    }
  }
}
