/**
 The trie after a crowding addition: lookups are wrong at once, or some additions and removals, none crowding, make
 them so.
 */
module TrieContinuations {

  import opened Types
  import opened Trie

  function ApplyBelow<V>(t: Node<V>, op: Op<V>): Node<V>
    requires t.Node?
  {
    match op
    case AddOp(k, v) => (var r := AddBelow(t, k, v); if r.Added? then r.trie else t)
    case RmOp(k) => (var r := RmBelow(t, k); if r.Removed? then r.trie else t)
  }

  /** The operation succeeds in the subtree and leaves its top where it is. */
  predicate StaysBelow<V>(t: Node<V>, op: Op<V>) {
    && t.Node? && t.key <= op.key && ApplyBelow(t, op).Node? && ApplyBelow(t, op).key == t.key
    && match op
       case AddOp(k, v) => AddBelow(t, k, v).Added? && !CrowdsBelow(t, k)
       case RmOp(k) => RmBelow(t, k).Removed? && !RmBelow(t, k).pruning
  }

  predicate AllStay<V>(t: Node<V>, ops: seq<Op<V>>)
    decreases |ops|
  {
    ops != [] ==> StaysBelow(t, ops[0]) && AllStay(ApplyBelow(t, ops[0]), ops[1..])
  }

  function RunBelow<V>(t: Node<V>, ops: seq<Op<V>>): Node<V>
    requires AllStay(t, ops)
    decreases |ops|
  {
    if ops == [] then t else RunBelow(ApplyBelow(t, ops[0]), ops[1..])
  }

  function With<V>(t: Node<V>, inLeft: bool, child: Node<V>): Node<V>
    requires t.Node?
  {
    if inLeft then t.(left := child) else t.(right := child)
  }

  function Child<V>(t: Node<V>, inLeft: bool): Node<V>
    requires t.Node?
  {
    if inLeft then t.left else t.right
  }

  /** What the child does, the node above it does. */
  lemma LiftOp<V>(t: Node<V>, inLeft: bool, op: Op<V>)
    requires t.Node? && t.key <= op.key && StaysBelow(Child(t, inLeft), op)
    requires !inLeft ==> !(t.left.Node? && t.left.key <= op.key)
    ensures StaysBelow(t, op) && ApplyBelow(t, op) == With(t, inLeft, ApplyBelow(Child(t, inLeft), op))
  {
  }

  lemma {:induction false} LiftRun<V>(t: Node<V>, inLeft: bool, ops: seq<Op<V>>)
    requires t.Node? && AllStay(Child(t, inLeft), ops)
    requires forall op :: op in ops ==> t.key <= op.key && (!inLeft ==> !(t.left.Node? && t.left.key <= op.key))
    ensures AllStay(t, ops) && RunBelow(t, ops) == With(t, inLeft, RunBelow(Child(t, inLeft), ops))
    decreases |ops|
  {
    hide AddBelow, RmBelow, CrowdsBelow;
    if ops == [] {
    } else {
      assert ops[0] in ops;
      LiftOp(t, inLeft, ops[0]);
      var t' := ApplyBelow(t, ops[0]);
      assert Child(t', inLeft) == ApplyBelow(Child(t, inLeft), ops[0]);
      LiftRun(t', inLeft, ops[1..]);
    }
  }

  // ------------------------------------------------------------------ a white node made black

  /** Gives a white node the children it lacks, then removes its key. */
  function Blacken<V>(t: Node<V>, v: V): seq<Op<V>>
    requires t.Node?
  {
    var rm := RmOp(t.key);
    if t.left.Node? && t.right.Node? then [rm]
    else if t.left.Nil? && t.right.Nil? then [AddOp(t.key + [false], v), AddOp(t.key + [true], v), rm]
    else
      var c := if t.left.Node? then t.left.key else t.right.key;
      [AddOp(t.key + [if |c| > |t.key| then !c[|t.key|] else false], v), rm]
  }

  lemma RmForks<V>(t: Node<V>)
    requires t.Node? && t.value.Some? && t.left.Node? && t.right.Node? && t.key < t.left.key && t.key < t.right.key
    ensures StaysBelow(t, RmOp(t.key)) && ApplyBelow(t, RmOp(t.key)) == t.(value := None)
  {
  }

  lemma AddsChild<V>(t: Node<V>, b: bool, v: V)
    requires t.Node? && (t.left.Nil? || t.right.Nil?)
    requires t.left.Node? ==> t.key < t.left.key && t.left.key[|t.key|] != b
    requires t.right.Node? ==> t.key < t.right.key && t.right.key[|t.key|] != b
    ensures var op, leaf := AddOp(t.key + [b], v), Leaf(t.key + [b], v);
            StaysBelow(t, op) && ApplyBelow(t, op) == if t.left.Nil? then t.(left := leaf) else t.(right := leaf)
  {
    var k := t.key + [b];
    assert k[|t.key|] == b && t.key <= k;
    assert t.left.Node? ==> !(t.left.key <= k) && !(k <= t.left.key);
    assert t.right.Node? ==> !(t.right.key <= k) && !(k <= t.right.key);
  }

  /** Afterwards the node is black, keeps its key, and its children are further down. */
  ghost predicate Black<V>(t: Node<V>, key: Key) {
    && t.Node? && t.key == key && t.value.None? && t.left.Node? && t.right.Node?
    && key < t.left.key && key < t.right.key
  }

  lemma BlackenEnds<V>(t: Node<V>)
    requires t.Node? && t.value.Some? && t.left.Node? && t.right.Node? && t.key < t.left.key && t.key < t.right.key
    ensures AllStay(t, [RmOp(t.key)]) && Black(RunBelow(t, [RmOp(t.key)]), t.key)
  {
    hide StaysBelow, ApplyBelow;
    RmForks(t);
    var ops: seq<Op<V>> := [RmOp(t.key)];
    assert ops[1..] == [] && AllStay(ApplyBelow(t, RmOp(t.key)), []);
  }

  lemma BlackenWith<V>(t: Node<V>, b: bool, v: V)
    requires t.Node? && t.value.Some? && t.left.Nil? != t.right.Nil?
    requires t.left.Node? ==> t.key < t.left.key && t.left.key[|t.key|] != b
    requires t.right.Node? ==> t.key < t.right.key && t.right.key[|t.key|] != b
    ensures var ops := [AddOp(t.key + [b], v), RmOp(t.key)];
            AllStay(t, ops) && Black(RunBelow(t, ops), t.key)
  {
    hide StaysBelow, ApplyBelow, Black;
    var op := AddOp(t.key + [b], v);
    AddsChild(t, b, v);
    BlackenEnds(ApplyBelow(t, op));
    assert [op, RmOp(t.key)][1..] == [RmOp(t.key)];
  }

  lemma BlackenDoes<V>(t: Node<V>, v: V)
    requires t.Node? && Valid(t) && t.value.Some?
    ensures AllStay(t, Blacken(t, v)) && Black(RunBelow(t, Blacken(t, v)), t.key)
  {
    hide StaysBelow, ApplyBelow, Black;
    if t.left.Node? && t.right.Node? {
      BlackenEnds(t);
    } else if t.left.Nil? && t.right.Nil? {
      var op := AddOp(t.key + [false], v);
      AddsChild(t, false, v);
      BlackenWith(ApplyBelow(t, op), true, v);
      assert [op, AddOp(t.key + [true], v), RmOp(t.key)][1..] == [AddOp(t.key + [true], v), RmOp(t.key)];
    } else {
      var c := if t.left.Node? then t.left.key else t.right.key;
      BlackenWith(t, !c[|t.key|], v);
    }
  }

  // ------------------------------------------------------------------ the place where the key crowds

  /** The sibling the new key has been put beside. */
  function Sibling<V>(t: Node<V>, k: Key): Node<V>
    requires t.Node? && CrowdsBelow(t, k) && !ShadowsBelow(t, k)
  {
    if t.left.Node? && t.left.key <= k then Sibling(t.left, k)
    else if t.right.Node? && t.right.key <= k then Sibling(t.right, k)
    else t.left
  }

  lemma {:induction false} SiblingFacts<V>(t: Node<V>, k: Key, v: V)
    requires t.Node? && Valid(t) && t.key <= k && CrowdsBelow(t, k) && !ShadowsBelow(t, k)
    ensures var s := Sibling(t, k);
            && s.Node? && Valid(s) && s.value.Some? && k <= s.key
            && forall op :: op in Blacken(s, v) ==> s.key <= op.key
  {
    if t.left.Node? && t.left.key <= k {
      SiblingFacts(t.left, k, v);
    } else if t.right.Node? && t.right.key <= k {
      SiblingFacts(t.right, k, v);
    } else {
      var s := t.left;
      assert s.key <= s.key + [false] && s.key <= s.key + [true];
    }
  }

  /** The answer is shorter than the key that was added. */
  ghost predicate Short<V>(r: Option<(Key, V)>, k: Key) {
    r.Some? ==> |r.value.0| < |k|
  }

  /** After `ops` the key is stored, yet a query it contains gets something shorter. */
  ghost predicate Missed<V(!new)>(t: Node<V>, k: Key, q: Key) {
    && t.Node? && t.key <= k && k <= q && At(t, k).Some?
    && forall last: Option<(Key, V)> :: Short(last, k) ==> Short(Seek(t, q, last), k)
  }

  lemma MissedHere<V(!new)>(t: Node<V>, k: Key, v: V, q: Key)
    requires t.Node? && t.key < k && Black(t.left, q) && k <= q && t.right == Leaf(k, v)
    ensures Missed(t, k, q)
  {
    LeafAt(k, v);
    assert At(t.right, k).Some?;
    forall last: Option<(Key, V)> | Short(last, k) ensures Short(Seek(t, q, last), k) {
      var best := BestHere(t, last);
      assert Seek(t, q, last) == Seek(t.left, q, best);
      assert Seek(t.left, q, best) == Seek(t.left.right, q, best);
    }
  }

  lemma MissedAbove<V(!new)>(t: Node<V>, inLeft: bool, k: Key, q: Key)
    requires t.Node? && t.key < k && Child(t, inLeft).Node? && Missed(Child(t, inLeft), k, q)
    requires !inLeft ==> !(t.left.Node? && t.left.key <= q)
    ensures Missed(t, k, q)
  {
    hide Missed, Short;
    MissedFacts(Child(t, inLeft), k, q);
    assert At(t, k).Some?;
    forall last: Option<(Key, V)> | Short(last, k) ensures Short(Seek(t, q, last), k) {
      ShortBest(t, last, k);
      assert Seek(t, q, last) == Seek(Child(t, inLeft), q, BestHere(t, last));
    }
    MissedIs(t, k, q);
  }

  lemma ShortBest<V>(t: Node<V>, last: Option<(Key, V)>, k: Key)
    requires t.Node? && t.key < k && Short(last, k)
    ensures Short(BestHere(t, last), k)
  {
  }

  lemma MissedFacts<V(!new)>(t: Node<V>, k: Key, q: Key)
    requires Missed(t, k, q)
    ensures t.Node? && t.key <= k && k <= q && At(t, k).Some?
    ensures forall last: Option<(Key, V)> :: Short(last, k) ==> Short(Seek(t, q, last), k)
  {
  }

  lemma MissedIs<V(!new)>(t: Node<V>, k: Key, q: Key)
    requires t.Node? && t.key <= k && k <= q && At(t, k).Some?
    requires forall last: Option<(Key, V)> :: Short(last, k) ==> Short(Seek(t, q, last), k)
    ensures Missed(t, k, q)
  {
  }

  /** Blackening the sibling of a key that has crowded its way in hides the key. */
  lemma {:induction false} CrowdedMisses<V(!new)>(t: Node<V>, k: Key, v: V)
    requires t.Node? && Valid(t) && t.key <= k && CrowdsBelow(t, k) && !ShadowsBelow(t, k)
    ensures AddBelow(t, k, v).Added?
    ensures var s, t' := Sibling(t, k), AddBelow(t, k, v).trie;
            && s.Node? && t'.Node? && t'.key == t.key
            && AllStay(t', Blacken(s, v)) && Missed(RunBelow(t', Blacken(s, v)), k, s.key)
  {
    hide AllStay, RunBelow, Missed, Black, Blacken, At, Seek;
    SiblingFacts(t, k, v);
    var s := Sibling(t, k);
    var ops := Blacken(s, v);
    var inLeft := t.left.Node? && t.left.key <= k;
    if inLeft || (t.right.Node? && t.right.key <= k) {
      var child := Child(t, inLeft);
      CrowdedMisses(child, k, v);
      OtherChild(t, child, k);
      var t' := AddBelow(t, k, v).trie;
      assert t' == With(t, inLeft, AddBelow(child, k, v).trie);
      SideClear(t, inLeft, k, s.key, ops);
      LiftRun(t', inLeft, ops);
      MissedFacts(RunBelow(AddBelow(child, k, v).trie, ops), k, s.key);
      MissedAbove(RunBelow(t', ops), inLeft, k, s.key);
    } else {
      BlackenDoes(s, v);
      var t' := t.(right := Leaf(k, v));
      assert AddBelow(t, k, v) == Added(t');
      assert forall op :: op in ops ==> t'.key <= op.key;
      LiftRun(t', true, ops);
      MissedHere(RunBelow(t', ops), k, v, s.key);
    }
  }

  /** Beside the child that contains `k` nothing contains what lies inside `k`. */
  lemma SideClear<V>(t: Node<V>, inLeft: bool, k: Key, q: Key, ops: seq<Op<V>>)
    requires t.Node? && Valid(t) && t.key <= k && Child(t, inLeft).Node? && Child(t, inLeft).key <= k && k <= q
    requires forall op :: op in ops ==> q <= op.key
    ensures t.key < k && forall op :: op in ops ==> t.key <= op.key
    ensures !inLeft ==> !(t.left.Node? && t.left.key <= q)
    ensures !inLeft ==> forall op :: op in ops ==> !(t.left.Node? && t.left.key <= op.key)
  {
    if !inLeft && t.left.Node? {
      NoneInBoth(t.left.key, t.right.key, q);
      forall op | op in ops ensures !(t.left.key <= op.key) {
        NoneInBoth(t.left.key, t.right.key, op.key);
      }
    }
  }

  // ------------------------------------------------------------------ the theorem

  lemma {:induction false} RunFromRoot<V>(t: Node<V>, ops: seq<Op<V>>)
    requires AllStay(t, ops)
    ensures Uncrowded(t, ops) && Run(t, ops) == RunBelow(t, ops)
    decreases |ops|
  {
    hide AddBelow, RmBelow, CrowdsBelow;
    if ops == [] {
    } else {
      assert StaysBelow(t, ops[0]) && Apply(t, ops[0]) == ApplyBelow(t, ops[0]);
      RunFromRoot(ApplyBelow(t, ops[0]), ops[1..]);
    }
  }

  /** After every continuation that crowds nowhere, every lookup gets the longest stored match. */
  ghost predicate RightForGood<V(!new)>(t: Node<V>) {
    forall ops: seq<Op<V>>, q :: Uncrowded(t, ops) ==> IsLongest(Run(t, ops), q, Get(Run(t, ops), q))
  }

  lemma {:induction false} ValidForGood<V>(t: Node<V>, ops: seq<Op<V>>)
    requires Valid(t) && Uncrowded(t, ops)
    ensures Valid(Run(t, ops))
    decreases |ops|
  {
    hide Valid, Crowds, Add, Rm;
    if ops == [] {
    } else {
      match ops[0] {
        case AddOp(k, v) => AddMeaning(t, k, v);
        case RmOp(k) => RmMeaning(t, k);
      }
      ValidForGood(Apply(t, ops[0]), ops[1..]);
    }
  }

  /**
   An addition to a valid trie leaves every lookup right, now and after whatever follows without crowding, exactly if it
   does not crowd.
   */
  lemma AdditionIsRightForGoodIff<V(!new)>(t: Node<V>, k: Key, v: V)
    requires Valid(t) && Add(t, k, v).Added?
    ensures RightForGood(Add(t, k, v).trie) <==> !Crowds(t, k)
  {
    hide Valid, IsLongest, Seek, CrowdsBelow, ShadowsBelow, AddBelow, AllStay, Missed, Blacken, RunBelow, Uncrowded;
    var t' := Add(t, k, v).trie;
    AddMeaning(t, k, v);
    if !Crowds(t, k) {
      forall ops: seq<Op<V>>, q | Uncrowded(t', ops) ensures IsLongest(Run(t', ops), q, Get(Run(t', ops), q)) {
        ValidForGood(t', ops);
        LookupIsLongestPrefixMatch(Run(t', ops), q);
      }
    } else if Shadows(t, k) {
      LookupAfterAddIff(t, k, v);
      NothingFollows(t');
    } else {
      CrowdedMisses(t, k, v);
      var s := Sibling(t, k);
      RunFromRoot(t', Blacken(s, v));
      MissedIsWrong(Run(t', Blacken(s, v)), k, s.key);
    }
  }

  lemma NothingFollows<V>(t: Node<V>)
    ensures Uncrowded(t, []) && Run(t, []) == t
  {
  }

  lemma MissedIsWrong<V(!new)>(t: Node<V>, k: Key, q: Key)
    requires Missed(t, k, q)
    ensures !IsLongest(t, q, Get(t, q))
  {
    var none: Option<(Key, V)> := None;
    assert Short(none, k) && Short(Seek(t, q, none), k);
  }
}
