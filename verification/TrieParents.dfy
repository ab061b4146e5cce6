/**
 The radix trie with the parent field each node has, exactly as the code sets and reads it. Trie models what the code
 means to do; here a write goes where the parent field says. A field is wrong when it does not name the node it hangs
 from: then it is NULL, and the write goes to the root of the trie, or it points at a node that has been freed.
 */
module TrieParents {

  import opened Types
  import opened Trie

  type Id = nat

  datatype PNode<V> =
    | PNil
    | PNode(id: Id, parent: Option<Id>, key: Key, value: Option<V>, left: PNode<V>, right: PNode<V>)

  /** `freed` holds the ids of nodes that are no more. */
  datatype Store<V> = Store(root: PNode<V>, next: Id, freed: set<Id>)

  /** The trie without its parent fields. */
  function Erase<V>(t: PNode<V>): (r: Node<V>)
    ensures r.Nil? <==> t.PNil?
  {
    if t.PNil? then Nil else Node(t.key, t.value, Erase(t.left), Erase(t.right))
  }

  function Adopt<V>(t: PNode<V>, parent: Option<Id>): PNode<V> {
    if t.PNil? then t else t.(parent := parent)
  }

  function NewLeaf<V>(id: Id, parent: Option<Id>, k: Key, v: V): PNode<V> {
    PNode(id, parent, k, Some(v), PNil, PNil)
  }

  // ------------------------------------------------------------------ operations as written

  datatype Why = AlreadyThere | Odd | NotThere | NoneWhite

  /**
   How an operation on a subtree ends: the subtree becomes `tree` where it hangs, or the whole trie becomes `tree`, or
   freed memory is read, or nothing is done. `gone` are the nodes freed; after `pruning` the parent is looked at.
   */
  datatype Outcome<V> =
    | Here(tree: PNode<V>, pruning: bool, gone: set<Id>)
    | AtRoot(tree: PNode<V>, gone: set<Id>)
    | Wild(read: Id)
    | Not(why: Why)

  /** get_parent_ptr and the assignment through it; `field` is the node's parent field, `actual` where it hangs. */
  function Write<V>(field: Option<Id>, actual: Option<Id>, x: PNode<V>, pruning: bool, gone: set<Id>): Outcome<V> {
    if field == actual then Here(x, pruning, gone)
    else if field.None? then AtRoot(x, gone)
    else Wild(field.value)
  }

  /** swap_nodes: the children keep pointing at the old node. */
  function Swap<V>(t: PNode<V>, actual: Option<Id>, k: Key, v: V, n: Id): Outcome<V>
    requires t.PNode?
  {
    Write(t.parent, actual, PNode(n, t.parent, k, Some(v), t.left, t.right), false, {t.id})
  }

  /** add_full_collision; the leaf is `n` and the new inode `n + 1`. */
  function CollideP<V>(t: PNode<V>, k: Key, v: V, n: Id): Outcome<V>
    requires t.PNode? && t.left.PNode? && t.right.PNode?
  {
    var lr, ln, rn := Match(t.left.key, t.right.key), Match(t.left.key, k), Match(t.right.key, k);
    var leaf, inode, here := NewLeaf(n, Some(n + 1), k, v), Some(n + 1), Some(t.id);
    if lr > ln && lr > rn then
      Here(t.(left := leaf.(parent := here),
              right := PNode(n + 1, here, t.left.key[..lr], None, Adopt(t.left, inode), Adopt(t.right, inode))), false, {})
    else if ln > lr && ln > rn then
      Here(t.(left := Adopt(t.right, here),
              right := PNode(n + 1, here, k[..ln], None, leaf, Adopt(t.left, inode))), false, {})
    else if rn > lr && rn > ln then
      Here(t.(left := Adopt(t.left, here),
              right := PNode(n + 1, here, k[..rn], None, leaf, Adopt(t.right, inode))), false, {})
    else Not(Odd)
  }

  /** The new node between `t` and those of its children that it contains. */
  function Between<V>(t: PNode<V>, k: Key, v: V, n: Id, left: PNode<V>, right: PNode<V>): PNode<V>
    requires t.PNode?
  {
    PNode(n, Some(t.id), k, Some(v), Adopt(left, Some(n)), Adopt(right, Some(n)))
  }

  function AddHereP<V>(t: PNode<V>, actual: Option<Id>, k: Key, v: V, n: Id): Outcome<V>
    requires t.PNode?
  {
    var here, leaf := Some(t.id), NewLeaf(n, Some(t.id), k, v);
    if t.key == k then
      if t.value.None? then Swap(t, actual, k, v, n) else Not(AlreadyThere)
    else if t.left.PNil? then Here(t.(left := leaf), false, {})
    else if t.right.PNil? then Here(t.(right := leaf), false, {})
    else if k <= t.left.key && k <= t.right.key then
      if t.value.None? then Swap(t, actual, k, v, n)
      else Here(t.(left := PNil, right := Between(t, k, v, n, t.left, t.right)), false, {})
    else if k <= t.left.key then Here(t.(left := Between(t, k, v, n, t.left, PNil)), false, {})
    else if k <= t.right.key then Here(t.(right := Between(t, k, v, n, PNil, t.right)), false, {})
    else CollideP(t, k, v, n)
  }

  /** A subtree's outcome, seen from the node above it. */
  function Above<V>(t: PNode<V>, inLeft: bool, r: Outcome<V>): Outcome<V>
    requires t.PNode?
  {
    if r.Here? then Here(if inLeft then t.(left := r.tree) else t.(right := r.tree), r.pruning, r.gone) else r
  }

  function AddBelowP<V>(t: PNode<V>, actual: Option<Id>, k: Key, v: V, n: Id): Outcome<V>
    requires t.PNode?
  {
    if t.left.PNode? && t.left.key <= k then Above(t, true, AddBelowP(t.left, Some(t.id), k, v, n))
    else if t.right.PNode? && t.right.key <= k then Above(t, false, AddBelowP(t.right, Some(t.id), k, v, n))
    else AddHereP(t, actual, k, v, n)
  }

  function AddToRootP<V>(root: PNode<V>, k: Key, v: V, n: Id): PNode<V> {
    if root.PNil? then NewLeaf(n, None, k, v)
    else if k <= root.key then PNode(n, None, k, Some(v), Adopt(root, Some(n)), PNil)
    else
      PNode(n + 1, None, k[..Match(root.key, k)], None, Adopt(root, Some(n + 1)), NewLeaf(n, Some(n + 1), k, v))
  }

  /** The first turn of __rtrie_rm on the node found; a node with two children gives way to a new inode without parent. */
  function RmNodeP<V>(t: PNode<V>, actual: Option<Id>, n: Id): Outcome<V>
    requires t.PNode?
  {
    if t.left.PNode? && t.right.PNode? then
      Write(t.parent, actual, PNode(n, None, t.key, None, Adopt(t.left, Some(n)), Adopt(t.right, Some(n))), false, {t.id})
    else RmTurn(t, actual, {})
  }

  /** One turn of the pruning loop: the node goes and its only child, if any, takes its place. */
  function RmTurn<V>(t: PNode<V>, actual: Option<Id>, gone: set<Id>): Outcome<V>
    requires t.PNode?
  {
    if t.left.PNode? then Write(t.parent, actual, Adopt(t.left, t.parent), false, gone + {t.id})
    else Write(t.parent, actual, Adopt(t.right, t.parent), t.right.PNil?, gone + {t.id})
  }

  /** The loop goes on to the parent, if that is black. */
  function PruneP<V>(t: PNode<V>, actual: Option<Id>, pruning: bool, gone: set<Id>): Outcome<V>
    requires t.PNode?
  {
    if !pruning || t.value.Some? then Here(t, false, gone) else RmTurn(t, actual, gone)
  }

  function RmBelowP<V>(t: PNode<V>, actual: Option<Id>, k: Key, n: Id): Outcome<V>
    requires t.PNode?
  {
    var inLeft := t.left.PNode? && t.left.key <= k;
    var inRight := !inLeft && t.right.PNode? && t.right.key <= k;
    var r := if inLeft then RmBelowP(t.left, Some(t.id), k, n)
             else if inRight then RmBelowP(t.right, Some(t.id), k, n) else Not(NoneWhite);
    if r.Here? then PruneP(if inLeft then t.(left := r.tree) else t.(right := r.tree), actual, r.pruning, r.gone)
    else if r == Not(NoneWhite) then
      if t.value.None? then Not(NoneWhite) else if t.key == k then RmNodeP(t, actual, n) else Not(NotThere)
    else r
  }

  function Perform<V>(root: PNode<V>, op: Op<V>, n: Id): Outcome<V> {
    match op
    case AddOp(k, v) =>
      if root.PNil? || !(root.key <= k) then Here(AddToRootP(root, k, v, n), false, {}) else AddBelowP(root, None, k, v, n)
    case RmOp(k) => if root.PNil? || !(root.key <= k) then Not(NotThere) else RmBelowP(root, None, k, n)
  }

  /** None: freed memory was read, and nothing can be said of what follows. */
  function Do<V>(s: Store<V>, op: Op<V>): Option<Store<V>> {
    match Perform(s.root, op, s.next)
    case Here(tree, _, gone) => Some(Store(tree, s.next + 2, s.freed + gone))
    case AtRoot(tree, gone) => Some(Store(tree, s.next + 2, s.freed + gone))
    case Wild(_) => None
    case Not(_) => Some(s)
  }

  function DoAll<V>(s: Store<V>, ops: seq<Op<V>>): Option<Store<V>>
    decreases |ops|
  {
    if ops == [] then Some(s)
    else
      var r := Do(s, ops[0]);
      if r.None? then None else DoAll(r.value, ops[1..])
  }

  function Empty<V>(): Store<V> { Store(PNil, 0, {}) }

  // ------------------------------------------------------------------ when a write goes where it should

  /** Every parent field is right. */
  ghost predicate Right<V>(t: PNode<V>, actual: Option<Id>) {
    t.PNode? ==> t.parent == actual && Right(t.left, Some(t.id)) && Right(t.right, Some(t.id))
  }

  /** A field that is not right is NULL or points at a freed node. */
  ghost predicate Plausible<V>(t: PNode<V>, actual: Option<Id>, freed: set<Id>) {
    t.PNode? ==>
      && (t.parent == actual || t.parent == None || t.parent.value in freed)
      && Plausible(t.left, Some(t.id), freed) && Plausible(t.right, Some(t.id), freed)
  }

  /** Every node is older than the next one. */
  ghost predicate Older<V>(t: PNode<V>, next: Id) {
    t.PNode? ==> t.id < next && Older(t.left, next) && Older(t.right, next)
  }

  lemma EraseAdopt<V>(t: PNode<V>, p: Option<Id>)
    ensures Erase(Adopt(t, p)) == Erase(t) && Adopt(t, p).PNil? == t.PNil?
  {
  }

  lemma EraseLeaf<V>(n: Id, p: Option<Id>, k: Key, v: V)
    ensures Erase(NewLeaf(n, p, k, v)) == Leaf(k, v)
  {
  }

  /** What `r` says of `e`, the step without parents; an outcome elsewhere says nothing. */
  ghost predicate MirrorsAdd<V>(r: Outcome<V>, e: AddResult<V>) {
    match r
    case Here(tree, pruning, _) => e == Added(Erase(tree)) && !pruning
    case Not(why) => (why == AlreadyThere && e == Exists) || (why == Odd && e == Inconsistent)
    case _ => true
  }

  lemma EraseNode<V>(t: PNode<V>)
    requires t.PNode?
    ensures Erase(t) == Node(t.key, t.value, Erase(t.left), Erase(t.right))
  {
  }

  lemma CollideIntended<V>(t: PNode<V>, k: Key, v: V, n: Id)
    requires t.PNode? && t.left.PNode? && t.right.PNode?
    ensures MirrorsAdd(CollideP(t, k, v, n), AddFullCollision(Erase(t), k, v))
  {
    hide Match, Erase;
    var l, r, here, inode := t.left, t.right, Some(t.id), Some(n + 1);
    var lr, ln, rn := Match(l.key, r.key), Match(l.key, k), Match(r.key, k);
    EraseNode(t);
    EraseNode(l);
    EraseNode(r);
    EraseLeaf(n, inode, k, v);
    EraseLeaf(n, here, k, v);
    EraseAdopt(l, inode);
    EraseAdopt(r, inode);
    EraseAdopt(l, here);
    EraseAdopt(r, here);
    var c := CollideP(t, k, v, n);
    if c.Here? {
      EraseNode(c.tree);
      EraseNode(c.tree.right);
    }
  }

  lemma BetweenIntended<V>(t: PNode<V>, k: Key, v: V, n: Id, l: PNode<V>, r: PNode<V>)
    requires t.PNode?
    ensures Erase(Between(t, k, v, n, l, r)) == Node(k, Some(v), Erase(l), Erase(r))
  {
    EraseNode(Between(t, k, v, n, l, r));
    EraseAdopt(l, Some(n));
    EraseAdopt(r, Some(n));
  }

  lemma AddHereIntended<V>(t: PNode<V>, actual: Option<Id>, k: Key, v: V, n: Id)
    requires t.PNode?
    ensures MirrorsAdd(AddHereP(t, actual, k, v, n), AddHere(Erase(t), k, v))
  {
    hide CollideP, AddFullCollision, Erase, Between;
    EraseNode(t);
    EraseLeaf(n, Some(t.id), k, v);
    BetweenIntended(t, k, v, n, t.left, t.right);
    BetweenIntended(t, k, v, n, t.left, PNil);
    BetweenIntended(t, k, v, n, PNil, t.right);
    var c := AddHereP(t, actual, k, v, n);
    if c.Here? && c.tree.PNode? {
      EraseNode(c.tree);
    }
    if t.left.PNode? && t.right.PNode? {
      EraseNode(t.left);
      EraseNode(t.right);
      CollideIntended(t, k, v, n);
    }
  }

  /** Whatever the parent fields are, an addition that stays where it should is the intended one. */
  lemma {:induction false} AddBelowIntended<V>(t: PNode<V>, actual: Option<Id>, k: Key, v: V, n: Id)
    requires t.PNode?
    ensures MirrorsAdd(AddBelowP(t, actual, k, v, n), AddBelow(Erase(t), k, v))
  {
    hide AddHereP, AddHere;
    if t.left.PNode? && t.left.key <= k {
      AddBelowIntended(t.left, Some(t.id), k, v, n);
    } else if t.right.PNode? && t.right.key <= k {
      AddBelowIntended(t.right, Some(t.id), k, v, n);
    } else {
      AddHereIntended(t, actual, k, v, n);
    }
  }

  ghost predicate MirrorsRm<V>(r: Outcome<V>, e: RmResult<V>) {
    match r
    case Here(tree, pruning, _) => e == Removed(Erase(tree), pruning)
    case Not(why) => (why == NoneWhite && e == NoWhite) || (why == NotThere && e == Missing)
    case _ => true
  }

  lemma RmNodeIntended<V>(t: PNode<V>, actual: Option<Id>, n: Id)
    requires t.PNode?
    ensures MirrorsRm(RmNodeP(t, actual, n), RmNode(Erase(t))) && !RmNodeP(t, actual, n).Not?
  {
  }

  lemma PruneIntended<V>(t: PNode<V>, actual: Option<Id>, pruning: bool, gone: set<Id>)
    requires t.PNode?
    ensures MirrorsRm(PruneP(t, actual, pruning, gone), Prune(Erase(t), pruning)) && !PruneP(t, actual, pruning, gone).Not?
  {
  }

  lemma {:induction false} RmBelowIntended<V>(t: PNode<V>, actual: Option<Id>, k: Key, n: Id)
    requires t.PNode?
    ensures MirrorsRm(RmBelowP(t, actual, k, n), RmBelow(Erase(t), k))
  {
    hide PruneP, Prune, RmNodeP, RmNode;
    var inLeft := t.left.PNode? && t.left.key <= k;
    var inRight := !inLeft && t.right.PNode? && t.right.key <= k;
    if inLeft || inRight {
      var child := if inLeft then t.left else t.right;
      RmBelowIntended(child, Some(t.id), k, n);
      var r := RmBelowP(child, Some(t.id), k, n);
      if r.Here? {
        PruneIntended(if inLeft then t.(left := r.tree) else t.(right := r.tree), actual, r.pruning, r.gone);
      }
    }
    RmNodeIntended(t, actual, n);
  }

  // ------------------------------------------------------------------ when every field stays right

  /** The addition lands on a black node that has children and puts the new node in its place. */
  predicate SwapsHere<V>(t: Node<V>, k: Key)
    requires t.Node?
  {
    && t.value.None? && (t.left.Node? || t.right.Node?)
    && (t.key == k || (t.left.Node? && t.right.Node? && k <= t.left.key && k <= t.right.key))
  }

  predicate SwapsBelow<V>(t: Node<V>, k: Key)
    requires t.Node?
  {
    if t.left.Node? && t.left.key <= k then SwapsBelow(t.left, k)
    else if t.right.Node? && t.right.key <= k then SwapsBelow(t.right, k)
    else SwapsHere(t, k)
  }

  /** The removal finds a node with two children that is not the root of the trie. */
  predicate ForksBelow<V>(t: Node<V>, k: Key, top: bool)
    requires t.Node?
  {
    if t.left.Node? && t.left.key <= k && !RmBelow(t.left, k).NoWhite? then ForksBelow(t.left, k, false)
    else if t.right.Node? && !(t.left.Node? && t.left.key <= k) && t.right.key <= k && !RmBelow(t.right, k).NoWhite? then
      ForksBelow(t.right, k, false)
    else !top && t.value.Some? && t.key == k && t.left.Node? && t.right.Node?
  }

  /** The step replaces a node in place and forgets a parent field. */
  predicate Replaces<V>(t: Node<V>, op: Op<V>) {
    && t.Node? && t.key <= op.key
    && match op
       case AddOp(k, _) => SwapsBelow(t, k)
       case RmOp(k) => ForksBelow(t, k, true)
  }

  lemma AdoptRight<V>(t: PNode<V>, was: Option<Id>, p: Option<Id>)
    requires Right(t, was)
    ensures Right(Adopt(t, p), p)
  {
  }

  lemma LeafRight<V>(n: Id, p: Option<Id>, k: Key, v: V)
    ensures Right(NewLeaf(n, p, k, v), p) && NewLeaf(n, p, k, v).PNode?
  {
  }

  lemma CollideRight<V>(t: PNode<V>, actual: Option<Id>, k: Key, v: V, n: Id)
    requires t.PNode? && t.left.PNode? && t.right.PNode? && Right(t, actual)
    ensures var r := CollideP(t, k, v, n);
            (r.Here? && Right(r.tree, actual)) || r.Not?
  {
    hide Match, Adopt, NewLeaf;
    var here, inode := Some(t.id), Some(n + 1);
    AdoptRight(t.left, here, inode);
    AdoptRight(t.right, here, inode);
    AdoptRight(t.left, here, here);
    AdoptRight(t.right, here, here);
    LeafRight(n, here, k, v);
    LeafRight(n, inode, k, v);
    var r := CollideP(t, k, v, n);
    if r.Here? {
      assert Right(r.tree.right, here);
      assert Right(r.tree.left, here);
    }
  }

  lemma SwapRight<V>(t: PNode<V>, actual: Option<Id>, k: Key, v: V, n: Id)
    requires t.PNode? && Right(t, actual) && Older(t, n)
    ensures var r := Swap(t, actual, k, v, n);
            r.Here? && (Right(r.tree, actual) <==> t.left.PNil? && t.right.PNil?)
  {
  }

  lemma BetweenRight<V>(t: PNode<V>, k: Key, v: V, n: Id, l: PNode<V>, r: PNode<V>)
    requires t.PNode? && Right(l, Some(t.id)) && Right(r, Some(t.id))
    ensures Right(Between(t, k, v, n, l, r), Some(t.id))
  {
    AdoptRight(l, Some(t.id), Some(n));
    AdoptRight(r, Some(t.id), Some(n));
  }

  lemma AddHereRight<V>(t: PNode<V>, actual: Option<Id>, k: Key, v: V, n: Id)
    requires t.PNode? && Right(t, actual) && Older(t, n)
    ensures var r := AddHereP(t, actual, k, v, n);
            || (r.Here? && (Right(r.tree, actual) <==> !SwapsHere(Erase(t), k)))
            || (r.Not? && !SwapsHere(Erase(t), k))
  {
    hide CollideP, Between, Swap, Erase;
    EraseNode(t);
    LeafRight(n, Some(t.id), k, v);
    SwapRight(t, actual, k, v, n);
    BetweenRight(t, k, v, n, t.left, t.right);
    BetweenRight(t, k, v, n, t.left, PNil);
    BetweenRight(t, k, v, n, PNil, t.right);
    if t.left.PNode? && t.right.PNode? {
      EraseNode(t.left);
      EraseNode(t.right);
      CollideRight(t, actual, k, v, n);
    }
  }

  lemma {:induction false} AddBelowRight<V>(t: PNode<V>, actual: Option<Id>, k: Key, v: V, n: Id)
    requires t.PNode? && Right(t, actual) && Older(t, n)
    ensures var r := AddBelowP(t, actual, k, v, n);
            || (r.Here? && (Right(r.tree, actual) <==> !SwapsBelow(Erase(t), k)))
            || (r.Not? && !SwapsBelow(Erase(t), k))
  {
    hide AddHereP, SwapsHere;
    if t.left.PNode? && t.left.key <= k {
      AddBelowRight(t.left, Some(t.id), k, v, n);
    } else if t.right.PNode? && t.right.key <= k {
      AddBelowRight(t.right, Some(t.id), k, v, n);
    } else {
      AddHereRight(t, actual, k, v, n);
    }
  }

  lemma RmNodeRight<V>(t: PNode<V>, actual: Option<Id>, n: Id)
    requires t.PNode? && Right(t, actual)
    ensures var r := RmNodeP(t, actual, n);
            && r.Here? && (r.pruning ==> r.tree.PNil?)
            && (Right(r.tree, actual) <==> !(actual.Some? && t.left.PNode? && t.right.PNode?))
  {
    AdoptRight(t.left, Some(t.id), Some(n));
    AdoptRight(t.right, Some(t.id), Some(n));
    AdoptRight(t.left, Some(t.id), actual);
    AdoptRight(t.right, Some(t.id), actual);
  }

  lemma PruneRight<V>(t: PNode<V>, actual: Option<Id>, pruning: bool, gone: set<Id>)
    requires t.PNode? && t.parent == actual
    requires pruning ==> Right(t, actual)
    ensures var r := PruneP(t, actual, pruning, gone);
            r.Here? && (r.pruning ==> r.tree.PNil?) && (Right(r.tree, actual) <==> Right(t, actual))
  {
    if pruning {
      AdoptRight(t.left, Some(t.id), actual);
      AdoptRight(t.right, Some(t.id), actual);
    }
  }

  lemma {:induction false} RmBelowRight<V>(t: PNode<V>, actual: Option<Id>, k: Key, n: Id)
    requires t.PNode? && Right(t, actual)
    ensures var r := RmBelowP(t, actual, k, n);
            || (&& r.Here? && (r.pruning ==> r.tree.PNil?)
                && (Right(r.tree, actual) <==> !ForksBelow(Erase(t), k, actual.None?)))
            || (r.Not? && !ForksBelow(Erase(t), k, actual.None?))
  {
    hide PruneP, RmNodeP, RmBelow;
    var inLeft := t.left.PNode? && t.left.key <= k;
    var inRight := !inLeft && t.right.PNode? && t.right.key <= k;
    if inLeft || inRight {
      var child := if inLeft then t.left else t.right;
      RmBelowRight(child, Some(t.id), k, n);
      RmBelowIntended(child, Some(t.id), k, n);
      var r := RmBelowP(child, Some(t.id), k, n);
      if r.Here? {
        PruneRight(if inLeft then t.(left := r.tree) else t.(right := r.tree), actual, r.pruning, r.gone);
      }
    }
    RmNodeRight(t, actual, n);
  }

  // ------------------------------------------------------------------ one step

  lemma AddToRootRight<V>(root: PNode<V>, k: Key, v: V, n: Id)
    requires Right(root, None)
    ensures Right(AddToRootP(root, k, v, n), None)
  {
    AdoptRight(root, None, Some(n));
    AdoptRight(root, None, Some(n + 1));
  }

  lemma AddToRootIntended<V>(root: PNode<V>, k: Key, v: V, n: Id)
    ensures Erase(AddToRootP(root, k, v, n)) == AddToRoot(Erase(root), k, v)
  {
    EraseAdopt(root, Some(n));
    EraseAdopt(root, Some(n + 1));
  }

  /** With every field right, a step is the intended one, and it keeps every field right unless it replaces a node. */
  lemma StepRightIff<V>(s: Store<V>, op: Op<V>)
    requires Right(s.root, None) && Older(s.root, s.next)
    ensures Do(s, op).Some? && Erase(Do(s, op).value.root) == Apply(Erase(s.root), op)
    ensures Right(Do(s, op).value.root, None) <==> !Replaces(Erase(s.root), op)
  {
    hide AddBelowP, RmBelowP, AddToRootP, AddBelow, RmBelow, AddToRoot, SwapsBelow, ForksBelow;
    var t, n := s.root, s.next;
    if t.PNil? || !(t.key <= op.key) {
      if op.AddOp? {
        AddToRootRight(t, op.key, op.value, n);
        AddToRootIntended(t, op.key, op.value, n);
      }
    } else if op.AddOp? {
      AddBelowRight(t, None, op.key, op.value, n);
      AddBelowIntended(t, None, op.key, op.value, n);
    } else {
      RmBelowRight(t, None, op.key, n);
      RmBelowIntended(t, None, op.key, n);
    }
  }

  // ------------------------------------------------------------------ what a wrong field does

  /** All that is stored in `t` lies inside `k`. */
  ghost predicate Inside<V>(t: PNode<V>, k: Key) {
    forall j :: At(Erase(t), j).Some? ==> k <= j
  }

  lemma ChildrenInside<V>(t: PNode<V>)
    requires t.PNode? && Valid(Erase(t))
    ensures Inside(t.left, t.key) && Inside(t.right, t.key)
    ensures t.left.PNode? ==> Inside(t.left, t.left.key)
    ensures t.right.PNode? ==> Inside(t.right, t.right.key)
  {
    hide Erase;
    EraseNode(t);
    SubtreeKeys(Erase(t));
    if t.left.PNode? { EraseNode(t.left); }
    if t.right.PNode? { EraseNode(t.right); }
  }

  lemma InsideMore<V>(t: PNode<V>, k: Key, j: Key)
    requires Inside(t, k) && j <= k
    ensures Inside(t, j)
  {
  }

  lemma NodeInside<V>(t: PNode<V>, k: Key)
    requires t.PNode? && k <= t.key && Inside(t.left, k) && Inside(t.right, k)
    ensures Inside(t, k)
  {
    hide Erase;
    EraseNode(t);
    forall j | At(Erase(t), j).Some? ensures k <= j {
      assert t.key == j || At(Erase(t.left), j).Some? || At(Erase(t.right), j).Some?;
    }
  }

  lemma AdoptInside<V>(t: PNode<V>, p: Option<Id>, k: Key)
    requires Inside(t, k)
    ensures Inside(Adopt(t, p), k)
  {
    EraseAdopt(t, p);
  }

  lemma CollideStays<V>(t: PNode<V>, k: Key, v: V, n: Id)
    requires t.PNode? && t.left.PNode? && t.right.PNode?
    ensures CollideP(t, k, v, n).Here? || CollideP(t, k, v, n).Not?
  {
  }

  lemma SwapInside<V>(t: PNode<V>, actual: Option<Id>, k: Key, v: V, n: Id)
    requires t.PNode? && Valid(Erase(t)) && t.key <= k
    ensures Swap(t, actual, k, v, n).AtRoot? ==> Inside(Swap(t, actual, k, v, n).tree, t.key)
  {
    hide Erase, Valid, Inside;
    ChildrenInside(t);
    NodeInside(PNode(n, t.parent, k, Some(v), t.left, t.right), t.key);
  }

  lemma {:induction false} AddElsewhere<V>(t: PNode<V>, actual: Option<Id>, k: Key, v: V, n: Id)
    requires t.PNode? && Valid(Erase(t)) && t.key <= k
    ensures AddBelowP(t, actual, k, v, n).AtRoot? ==> Inside(AddBelowP(t, actual, k, v, n).tree, t.key)
  {
    hide Inside, CollideP, Swap;
    EraseNode(t);
    if t.left.PNode? && t.left.key <= k {
      AddElsewhere(t.left, Some(t.id), k, v, n);
      if AddBelowP(t, actual, k, v, n).AtRoot? {
        InsideMore(AddBelowP(t, actual, k, v, n).tree, t.left.key, t.key);
      }
    } else if t.right.PNode? && t.right.key <= k {
      AddElsewhere(t.right, Some(t.id), k, v, n);
      if AddBelowP(t, actual, k, v, n).AtRoot? {
        InsideMore(AddBelowP(t, actual, k, v, n).tree, t.right.key, t.key);
      }
    } else {
      SwapInside(t, actual, k, v, n);
      if t.left.PNode? && t.right.PNode? {
        CollideStays(t, k, v, n);
      }
    }
  }

  lemma TurnElsewhere<V>(t: PNode<V>, actual: Option<Id>, gone: set<Id>, k: Key)
    requires t.PNode? && Inside(t.left, k) && Inside(t.right, k)
    ensures RmTurn(t, actual, gone).AtRoot? ==> Inside(RmTurn(t, actual, gone).tree, k)
  {
    EraseAdopt(t.left, t.parent);
    EraseAdopt(t.right, t.parent);
  }

  lemma RmNodeElsewhere<V>(t: PNode<V>, actual: Option<Id>, n: Id)
    requires t.PNode? && Valid(Erase(t))
    ensures RmNodeP(t, actual, n).AtRoot? ==> Inside(RmNodeP(t, actual, n).tree, t.key)
  {
    hide Erase, Valid, Inside;
    ChildrenInside(t);
    TurnElsewhere(t, actual, {}, t.key);
    AdoptInside(t.left, Some(n), t.key);
    AdoptInside(t.right, Some(n), t.key);
    NodeInside(PNode(n, None, t.key, None, Adopt(t.left, Some(n)), Adopt(t.right, Some(n))), t.key);
  }

  lemma {:induction false} RmElsewhere<V>(t: PNode<V>, actual: Option<Id>, k: Key, n: Id)
    requires t.PNode? && Valid(Erase(t))
    ensures var r := RmBelowP(t, actual, k, n);
            && (r.AtRoot? ==> Inside(r.tree, t.key))
            && (r.Here? && r.pruning ==> r.tree.PNil?)
  {
    hide Inside, RmNodeP, RmTurn;
    EraseNode(t);
    ChildrenInside(t);
    var inLeft := t.left.PNode? && t.left.key <= k;
    var inRight := !inLeft && t.right.PNode? && t.right.key <= k;
    if inLeft || inRight {
      var child := if inLeft then t.left else t.right;
      RmElsewhere(child, Some(t.id), k, n);
      var r := RmBelowP(child, Some(t.id), k, n);
      if r.Here? && r.pruning {
        assert Inside(r.tree, t.key) by { NilInside<V>(t.key); }
        TurnElsewhere(if inLeft then t.(left := r.tree) else t.(right := r.tree), actual, r.gone, t.key);
        TurnPrunes(if inLeft then t.(left := r.tree) else t.(right := r.tree), actual, r.gone);
      } else if r.AtRoot? {
        InsideMore(r.tree, child.key, t.key);
      }
    }
    RmNodeElsewhere(t, actual, n);
    RmNodePrunes(t, actual, n);
  }

  lemma NilInside<V>(k: Key)
    ensures Inside<V>(PNil, k)
  {
  }

  lemma TurnPrunes<V>(t: PNode<V>, actual: Option<Id>, gone: set<Id>)
    requires t.PNode?
    ensures var r := RmTurn(t, actual, gone);
            r.Here? && r.pruning ==> r.tree.PNil?
  {
  }

  lemma RmNodePrunes<V>(t: PNode<V>, actual: Option<Id>, n: Id)
    requires t.PNode?
    ensures var r := RmNodeP(t, actual, n);
            r.Here? && r.pruning ==> r.tree.PNil?
  {
    TurnPrunes(t, actual, {});
  }

  /** Something stored outside the child that contains `k` is not `k`. */
  lemma OutsideChild<V>(t: Node<V>, child: Node<V>, k: Key) returns (j: Key)
    requires t.Node? && Valid(t) && child.Node? && child.key <= k && (child == t.left || child == t.right)
    ensures At(t, j).Some? && j != k && !(child.key <= j)
  {
    if t.value.Some? {
      j := t.key;
    } else {
      var other := if child == t.left then t.right else t.left;
      j := SomeKey(other);
      NoneInBoth(child.key, other.key, j);
      NoneInBoth(child.key, other.key, k);
    }
  }

  /** A step that reads a NULL where a parent should be makes a subtree the whole trie, and loses a stored key. */
  lemma NullParentLoses<V>(root: PNode<V>, op: Op<V>, n: Id) returns (j: Key)
    requires Valid(Erase(root)) && Perform(root, op, n).AtRoot?
    ensures j != op.key && At(Erase(root), j).Some? && At(Erase(Perform(root, op, n).tree), j).None?
  {
    hide At, Valid, AddHereP, PruneP, RmNodeP, RmTurn;
    var k := op.key;
    var e := Erase(root);
    var child := if root.left.PNode? && root.left.key <= k then root.left else root.right;
    RootWrites(root, op, n);
    ValidChildren(e);
    if op.AddOp? {
      AddElsewhere(child, Some(root.id), k, op.value, n);
    } else {
      RmElsewhere(child, Some(root.id), k, n);
    }
    j := OutsideChild(e, Erase(child), k);
  }

  lemma ValidChildren<V>(t: Node<V>)
    requires Valid(t) && t.Node?
    ensures Valid(t.left) && Valid(t.right)
  {
  }

  /** At the root NULL is right, so only a step further down can go wrong that way. */
  lemma RootWrites<V>(root: PNode<V>, op: Op<V>, n: Id)
    requires Perform(root, op, n).AtRoot?
    ensures root.PNode? && root.key <= op.key
    ensures var child := if root.left.PNode? && root.left.key <= op.key then root.left else root.right;
            && child.PNode? && child.key <= op.key
            && Perform(root, op, n)
               == match op
                  case AddOp(k, v) => AddBelowP(child, Some(root.id), k, v, n)
                  case RmOp(k) => RmBelowP(child, Some(root.id), k, n)
  {
    hide CollideP;
    if root.PNode? && root.left.PNode? && root.right.PNode? && op.AddOp? {
      CollideStays(root, op.key, op.value, n);
    }
  }

  /** A step is the intended one exactly if it reads no wrong parent field. */
  lemma StepIntendedIff<V(!new)>(s: Store<V>, op: Op<V>)
    requires Valid(Erase(s.root))
    ensures (&& Do(s, op).Some?
             && forall j :: At(Erase(Do(s, op).value.root), j) == At(Apply(Erase(s.root), op), j))
            <==> Perform(s.root, op, s.next).Here? || Perform(s.root, op, s.next).Not?
  {
    hide At, Valid, AddBelowP, RmBelowP, AddBelow, RmBelow, AddToRootP, AddToRoot;
    var t, n, r := s.root, s.next, Perform(s.root, op, s.next);
    if t.PNode? && t.key <= op.key {
      if op.AddOp? {
        AddBelowIntended(t, None, op.key, op.value, n);
      } else {
        RmBelowIntended(t, None, op.key, n);
      }
    } else if op.AddOp? {
      AddToRootIntended(t, op.key, op.value, n);
    }
    if r.AtRoot? {
      var j := NullParentLoses(t, op, n);
      if op.AddOp? {
        AddMeaning(Erase(t), op.key, op.value);
      } else {
        RmMeaning(Erase(t), op.key);
      }
    }
  }

  // ------------------------------------------------------------------ which fields can be wrong

  /** Where `t` hangs from `actual`, its ids are old, and what is wrong in it is NULL or freed. */
  ghost predicate Sane<V>(t: PNode<V>, actual: Option<Id>, next: Id, freed: set<Id>) {
    Older(t, next) && Plausible(t, actual, freed)
  }

  ghost predicate SaneOutcome<V>(r: Outcome<V>, actual: Option<Id>, n: Id, freed: set<Id>) {
    match r
    case Here(tree, _, gone) => Sane(tree, actual, n + 2, freed + gone)
    case AtRoot(tree, gone) => Sane(tree, None, n + 2, freed + gone)
    case Wild(read) => read in freed
    case Not(_) => true
  }

  lemma {:induction false} SaneMore<V>(t: PNode<V>, actual: Option<Id>, n: Id, m: Id, freed: set<Id>, more: set<Id>)
    requires Sane(t, actual, n, freed) && n <= m && freed <= more
    ensures Sane(t, actual, m, more)
  {
    if t.PNode? {
      SaneMore(t.left, Some(t.id), n, m, freed, more);
      SaneMore(t.right, Some(t.id), n, m, freed, more);
    }
  }

  lemma SaneChildren<V>(t: PNode<V>, actual: Option<Id>, n: Id, freed: set<Id>)
    requires t.PNode? && Sane(t, actual, n, freed)
    ensures Sane(t.left, Some(t.id), n, freed) && Sane(t.right, Some(t.id), n, freed)
    ensures t.id < n && (t.parent == actual || t.parent == None || t.parent.value in freed)
  {
  }

  lemma SaneNode<V>(t: PNode<V>, actual: Option<Id>, n: Id, freed: set<Id>)
    requires t.PNode? && t.id < n && (t.parent == actual || t.parent == None || t.parent.value in freed)
    requires Sane(t.left, Some(t.id), n, freed) && Sane(t.right, Some(t.id), n, freed)
    ensures Sane(t, actual, n, freed)
  {
  }

  /** A subtree keeps its fields when it changes hands, or gets a new one that is no worse. */
  lemma SaneAdopt<V>(t: PNode<V>, was: Option<Id>, p: Option<Id>, actual: Option<Id>, n: Id, freed: set<Id>)
    requires Sane(t, was, n, freed) && (p == actual || p == None || p.value in freed)
    ensures Sane(Adopt(t, p), actual, n, freed)
  {
  }

  /** A freed node's children may go on pointing at it. */
  lemma SaneOrphan<V>(t: PNode<V>, was: Id, actual: Option<Id>, n: Id, freed: set<Id>)
    requires Sane(t, Some(was), n, freed) && was in freed
    ensures Sane(t, actual, n, freed)
  {
  }

  lemma SaneNil<V>(actual: Option<Id>, n: Id, freed: set<Id>)
    ensures Sane<V>(PNil, actual, n, freed)
  {
  }

  lemma SaneLeaf<V>(i: Id, p: Option<Id>, k: Key, v: V, n: Id, freed: set<Id>)
    requires i < n
    ensures Sane(NewLeaf(i, p, k, v), p, n, freed)
  {
  }

  /** A tree fit to hang where the field says goes where the field says. */
  lemma SaneWrite<V>(field: Option<Id>, actual: Option<Id>, x: PNode<V>, pruning: bool, gone: set<Id>, n: Id,
                     freed: set<Id>)
    requires field == actual || field == None || field.value in freed
    requires field == actual || field == None ==> Sane(x, field, n + 2, freed + gone)
    ensures SaneOutcome(Write(field, actual, x, pruning, gone), actual, n, freed)
  {
  }

  lemma SwapSane<V>(t: PNode<V>, actual: Option<Id>, k: Key, v: V, n: Id, freed: set<Id>)
    requires t.PNode? && Sane(t, actual, n, freed)
    ensures SaneOutcome(Swap(t, actual, k, v, n), actual, n, freed)
  {
    hide Sane;
    SaneChildren(t, actual, n, freed);
    var more := freed + {t.id};
    SaneMore(t.left, Some(t.id), n, n + 2, freed, more);
    SaneMore(t.right, Some(t.id), n, n + 2, freed, more);
    SaneOrphan(t.left, t.id, Some(n), n + 2, more);
    SaneOrphan(t.right, t.id, Some(n), n + 2, more);
    var x := PNode(n, t.parent, k, Some(v), t.left, t.right);
    SaneNode(x, t.parent, n + 2, more);
    SaneWrite(t.parent, actual, x, false, {t.id}, n, freed);
  }

  lemma TurnSane<V>(t: PNode<V>, actual: Option<Id>, gone: set<Id>, n: Id, freed: set<Id>)
    requires t.PNode? && (t.parent == actual || t.parent == None || t.parent.value in freed)
    requires Sane(t.left, Some(t.id), n + 2, freed + gone) && Sane(t.right, Some(t.id), n + 2, freed + gone)
    ensures SaneOutcome(RmTurn(t, actual, gone), actual, n, freed)
  {
    hide Sane;
    var x := if t.left.PNode? then t.left else t.right;
    var more := freed + (gone + {t.id});
    SaneMore(x, Some(t.id), n + 2, n + 2, freed + gone, more);
    SaneAdopt(x, Some(t.id), t.parent, t.parent, n + 2, more);
    SaneWrite(t.parent, actual, Adopt(x, t.parent), x.PNil?, gone + {t.id}, n, freed);
  }

  lemma RmNodeSane<V>(t: PNode<V>, actual: Option<Id>, n: Id, freed: set<Id>)
    requires t.PNode? && Sane(t, actual, n, freed)
    ensures SaneOutcome(RmNodeP(t, actual, n), actual, n, freed)
  {
    hide Sane, RmTurn;
    SaneChildren(t, actual, n, freed);
    var more := freed + {t.id};
    SaneMore(t.left, Some(t.id), n, n + 2, freed, more);
    SaneMore(t.right, Some(t.id), n, n + 2, freed, more);
    SaneMore(t.left, Some(t.id), n, n + 2, freed, freed + {});
    SaneMore(t.right, Some(t.id), n, n + 2, freed, freed + {});
    TurnSane(t, actual, {}, n, freed);
    SaneAdopt(t.left, Some(t.id), Some(n), Some(n), n + 2, more);
    SaneAdopt(t.right, Some(t.id), Some(n), Some(n), n + 2, more);
    var x := PNode(n, None, t.key, None, Adopt(t.left, Some(n)), Adopt(t.right, Some(n)));
    SaneNode(x, t.parent, n + 2, more);
    SaneWrite(t.parent, actual, x, false, {t.id}, n, freed);
  }

  lemma BetweenSane<V>(t: PNode<V>, k: Key, v: V, n: Id, l: PNode<V>, r: PNode<V>, freed: set<Id>)
    requires t.PNode? && Sane(l, Some(t.id), n, freed) && Sane(r, Some(t.id), n, freed)
    ensures Sane(Between(t, k, v, n, l, r), Some(t.id), n + 2, freed)
  {
    hide Sane;
    SaneMore(l, Some(t.id), n, n + 2, freed, freed);
    SaneMore(r, Some(t.id), n, n + 2, freed, freed);
    SaneAdopt(l, Some(t.id), Some(n), Some(n), n + 2, freed);
    SaneAdopt(r, Some(t.id), Some(n), Some(n), n + 2, freed);
    SaneNode(Between(t, k, v, n, l, r), Some(t.id), n + 2, freed);
  }

  lemma CollideSane<V>(t: PNode<V>, actual: Option<Id>, k: Key, v: V, n: Id, freed: set<Id>)
    requires t.PNode? && t.left.PNode? && t.right.PNode? && Sane(t, actual, n, freed)
    ensures SaneOutcome(CollideP(t, k, v, n), actual, n, freed)
  {
    hide Sane, Match;
    SaneChildren(t, actual, n, freed);
    var here, inode, r := Some(t.id), Some(n + 1), CollideP(t, k, v, n);
    SaneLeaf(n, here, k, v, n + 2, freed);
    SaneLeaf(n, inode, k, v, n + 2, freed);
    forall x | x == t.left || x == t.right
      ensures Sane(Adopt(x, inode), inode, n + 2, freed) && Sane(Adopt(x, here), here, n + 2, freed)
    {
      SaneMore(x, here, n, n + 2, freed, freed);
      SaneAdopt(x, here, inode, inode, n + 2, freed);
      SaneAdopt(x, here, here, here, n + 2, freed);
    }
    if r.Here? {
      hide Adopt, NewLeaf;
      assert freed + {} == freed;
      SaneNode(r.tree.right, here, n + 2, freed);
      SaneNode(r.tree, actual, n + 2, freed);
    }
  }

  lemma SaneWith<V>(t: PNode<V>, actual: Option<Id>, n: Id, freed: set<Id>, more: set<Id>, l: PNode<V>, r: PNode<V>)
    requires t.PNode? && Sane(t, actual, n, freed) && freed <= more
    requires Sane(l, Some(t.id), n + 2, more) && Sane(r, Some(t.id), n + 2, more)
    ensures Sane(t.(left := l, right := r), actual, n + 2, more)
  {
    hide Older, Plausible;
    SaneChildren(t, actual, n, freed);
    SaneNode(t.(left := l, right := r), actual, n + 2, more);
  }

  lemma AddHereSane<V>(t: PNode<V>, actual: Option<Id>, k: Key, v: V, n: Id, freed: set<Id>)
    requires t.PNode? && Sane(t, actual, n, freed)
    ensures SaneOutcome(AddHereP(t, actual, k, v, n), actual, n, freed)
  {
    hide Sane, CollideP, Between, Swap;
    assert freed + {} == freed;
    SaneChildren(t, actual, n, freed);
    var here := Some(t.id);
    SaneNil<V>(here, n, freed);
    SaneNil<V>(here, n + 2, freed);
    SaneMore(t.left, here, n, n + 2, freed, freed);
    SaneMore(t.right, here, n, n + 2, freed, freed);
    SaneLeaf(n, here, k, v, n + 2, freed);
    SwapSane(t, actual, k, v, n, freed);
    BetweenSane(t, k, v, n, t.left, t.right, freed);
    BetweenSane(t, k, v, n, t.left, PNil, freed);
    BetweenSane(t, k, v, n, PNil, t.right, freed);
    if t.left.PNode? && t.right.PNode? {
      CollideSane(t, actual, k, v, n, freed);
    }
    var r := AddHereP(t, actual, k, v, n);
    if r.Here? && r.tree.PNode? && r.tree == t.(left := r.tree.left, right := r.tree.right)
       && Sane(r.tree.left, here, n + 2, freed) && Sane(r.tree.right, here, n + 2, freed) && r.gone == {} {
      SaneWith(t, actual, n, freed, freed, r.tree.left, r.tree.right);
    }
  }

  lemma {:induction false} AddBelowSane<V>(t: PNode<V>, actual: Option<Id>, k: Key, v: V, n: Id, freed: set<Id>)
    requires t.PNode? && Sane(t, actual, n, freed)
    ensures SaneOutcome(AddBelowP(t, actual, k, v, n), actual, n, freed)
  {
    hide Sane, AddHereP;
    SaneChildren(t, actual, n, freed);
    var inLeft := t.left.PNode? && t.left.key <= k;
    if inLeft || (t.right.PNode? && t.right.key <= k) {
      var child, other := if inLeft then t.left else t.right, if inLeft then t.right else t.left;
      AddBelowSane(child, Some(t.id), k, v, n, freed);
      var r := AddBelowP(child, Some(t.id), k, v, n);
      if r.Here? {
        SaneMore(other, Some(t.id), n, n + 2, freed, freed + r.gone);
        SaneWith(t, actual, n, freed, freed + r.gone,
                 if inLeft then r.tree else other, if inLeft then other else r.tree);
      }
    } else {
      AddHereSane(t, actual, k, v, n, freed);
    }
  }

  lemma {:induction false} RmBelowSane<V>(t: PNode<V>, actual: Option<Id>, k: Key, n: Id, freed: set<Id>)
    requires t.PNode? && Sane(t, actual, n, freed)
    ensures SaneOutcome(RmBelowP(t, actual, k, n), actual, n, freed)
  {
    hide Sane, RmNodeP, RmTurn;
    SaneChildren(t, actual, n, freed);
    RmNodeSane(t, actual, n, freed);
    var inLeft := t.left.PNode? && t.left.key <= k;
    if inLeft || (t.right.PNode? && t.right.key <= k) {
      var child, other := if inLeft then t.left else t.right, if inLeft then t.right else t.left;
      RmBelowSane(child, Some(t.id), k, n, freed);
      var r := RmBelowP(child, Some(t.id), k, n);
      if r.Here? {
        var l, m := if inLeft then r.tree else other, if inLeft then other else r.tree;
        SaneMore(other, Some(t.id), n, n + 2, freed, freed + r.gone);
        SaneWith(t, actual, n, freed, freed + r.gone, l, m);
        TurnSane(t.(left := l, right := m), actual, r.gone, n, freed);
      }
    }
  }

  lemma AddToRootSane<V>(root: PNode<V>, k: Key, v: V, n: Id, freed: set<Id>)
    requires Sane(root, None, n, freed)
    ensures Sane(AddToRootP(root, k, v, n), None, n + 2, freed)
  {
    SaneMore(root, None, n, n + 2, freed, freed);
  }

  ghost predicate SaneStore<V>(s: Store<V>) {
    Sane(s.root, None, s.next, s.freed)
  }

  /** In every state a wrong field is NULL or dangling; when a step says nothing, it has read a freed node. */
  lemma StepSane<V>(s: Store<V>, op: Op<V>)
    requires SaneStore(s)
    ensures Do(s, op).Some? ==> SaneStore(Do(s, op).value)
    ensures Do(s, op).None? ==> Perform(s.root, op, s.next).Wild? && Perform(s.root, op, s.next).read in s.freed
  {
    hide Sane, AddBelowP, RmBelowP, AddToRootP;
    assert s.freed + {} == s.freed;
    if s.root.PNil? || !(s.root.key <= op.key) {
      if op.AddOp? {
        AddToRootSane(s.root, op.key, op.value, s.next, s.freed);
      }
    } else if op.AddOp? {
      AddBelowSane(s.root, None, op.key, op.value, s.next, s.freed);
    } else {
      RmBelowSane(s.root, None, op.key, s.next, s.freed);
    }
  }

  // ------------------------------------------------------------------ runs

  /** No step of the run, as intended, replaces a node in place. */
  predicate NeverReplaces<V>(t: Node<V>, ops: seq<Op<V>>)
    decreases |ops|
  {
    ops != [] ==> !Replaces(t, ops[0]) && NeverReplaces(Apply(t, ops[0]), ops[1..])
  }

  /** Before and after every step all parent fields are right. */
  ghost predicate AlwaysRight<V>(s: Store<V>, ops: seq<Op<V>>)
    decreases |ops|
  {
    && Right(s.root, None)
    && (ops != [] ==> Do(s, ops[0]).Some? && AlwaysRight(Do(s, ops[0]).value, ops[1..]))
  }

  /** Over a whole run the fields stay right exactly if no step replaces a node, and then the run is the intended one. */
  lemma {:induction false} ParentsStayRightIff<V>(s: Store<V>, ops: seq<Op<V>>)
    requires Right(s.root, None) && SaneStore(s)
    ensures AlwaysRight(s, ops) <==> NeverReplaces(Erase(s.root), ops)
    ensures NeverReplaces(Erase(s.root), ops) ==>
              DoAll(s, ops).Some? && Erase(DoAll(s, ops).value.root) == Run(Erase(s.root), ops)
    decreases |ops|
  {
    hide Right, Plausible, Do, Replaces, Apply, Erase;
    if ops == [] {
      assert AlwaysRight(s, ops) && DoAll(s, ops) == Some(s);
    } else {
      StepRightIff(s, ops[0]);
      StepSane(s, ops[0]);
      if !Replaces(Erase(s.root), ops[0]) {
        ParentsStayRightIff(Do(s, ops[0]).value, ops[1..]);
      } else {
        NotRightNow(Do(s, ops[0]).value, ops[1..]);
      }
    }
  }

  lemma NotRightNow<V>(s: Store<V>, ops: seq<Op<V>>)
    requires !Right(s.root, None)
    ensures !AlwaysRight(s, ops)
  {
  }

  /** From the empty trie, with its parent fields: lookup is a linear scan for the longest match. */
  lemma LookupAsWritten<V>(ops: seq<Op<V>>, q: Key)
    requires Uncrowded(Nil, ops) && NeverReplaces(Nil, ops)
    ensures DoAll(Empty<V>(), ops).Some?
    ensures LongestIn(RunOnMap(map[], ops), q, Get(Erase(DoAll(Empty<V>(), ops).value.root), q))
  {
    ParentsStayRightIff(Empty<V>(), ops);
    LookupAfterRun(ops, q);
  }

  // ------------------------------------------------------------------ tables of disjoint prefixes

  lemma {:induction false} ApartNeverSwaps<V>(t: Node<V>, k: Key)
    requires t.Node? && Valid(t) && forall j :: At(t, j).Some? ==> Apart(j, k)
    ensures !SwapsBelow(t, k)
  {
    if t.left.Node? && t.left.key <= k {
      assert forall j :: At(t.left, j).Some? ==> At(t, j).Some?;
      ApartNeverSwaps(t.left, k);
    } else if t.right.Node? && t.right.key <= k {
      assert forall j :: At(t.right, j).Some? ==> At(t, j).Some?;
      ApartNeverSwaps(t.right, k);
    } else if t.value.None? {
      var w := SomeKey(t.left);
      assert At(t, w).Some?;
    }
  }

  lemma {:induction false} ApartNeverForks<V>(t: Node<V>, k: Key, top: bool)
    requires t.Node? && Valid(t) && AllApart(t)
    ensures !ForksBelow(t, k, top)
  {
    hide RmBelow;
    assert forall j :: At(t.left, j).Some? ==> At(t, j).Some?;
    assert forall j :: At(t.right, j).Some? ==> At(t, j).Some?;
    SubtreeKeys(t);
    if t.left.Node? {
      ApartNeverForks(t.left, k, false);
    }
    if t.right.Node? {
      ApartChild(t);
      ApartNeverForks(t.right, k, false);
    }
    if t.value.Some? && t.left.Node? {
      var w := SomeKey(t.left);
      assert At(t, w).Some? && At(t, t.key).Some?;
    }
  }

  lemma ApartChild<V>(t: Node<V>)
    requires t.Node? && Valid(t) && AllApart(t)
    ensures AllApart(t.left) && AllApart(t.right)
  {
    assert forall j :: At(t.left, j).Some? ==> At(t, j).Some?;
    assert forall j :: At(t.right, j).Some? ==> At(t, j).Some?;
  }

  /** As long as the stored keys lie apart, and the added one from them, no step replaces a node in place. */
  lemma ApartNeverReplaces<V>(t: Node<V>, op: Op<V>)
    requires Valid(t) && AllApart(t)
    requires op.AddOp? ==> forall j :: At(t, j).Some? ==> Apart(j, op.key)
    ensures !Replaces(t, op)
  {
    if t.Node? {
      if op.AddOp? {
        ApartNeverSwaps(t, op.key);
      } else {
        ApartNeverForks(t, op.key, true);
      }
    }
  }

  /** Every key is added apart from those stored at that moment. */
  ghost predicate AddsApart<V>(m: map<Key, V>, ops: seq<Op<V>>)
    decreases |ops|
  {
    ops != [] ==>
      && (ops[0].AddOp? ==> forall j :: j in m ==> Apart(j, ops[0].key))
      && AddsApart(ApplyToMap(m, ops[0]), ops[1..])
  }

  lemma {:induction false} ApartRun<V>(t: Node<V>, m: map<Key, V>, ops: seq<Op<V>>)
    requires Refines(t, m) && AllApart(t) && AddsApart(m, ops)
    ensures Uncrowded(t, ops) && NeverReplaces(t, ops)
    decreases |ops|
  {
    hide Valid, Size, At, Apply, Replaces, Crowds;
    if ops == [] {
    } else {
      var op := ops[0];
      assert op.AddOp? ==> forall j :: At(t, j).Some? ==> Apart(j, op.key);
      if op.AddOp? {
        ApartNeverCrowds(t, op.key);
      }
      ApartNeverReplaces(t, op);
      StepRefinesMap(t, m, op);
      ApartRun(Apply(t, op), ApplyToMap(m, op), ops[1..]);
    }
  }

  /** A table of disjoint prefixes is looked up right after any run, parent fields included. */
  lemma DisjointLookup<V>(ops: seq<Op<V>>, q: Key)
    requires AddsApart(map[], ops)
    ensures DoAll(Empty<V>(), ops).Some?
    ensures LongestIn(RunOnMap(map[], ops), q, Get(Erase(DoAll(Empty<V>(), ops).value.root), q))
  {
    assert Refines<V>(Nil, map[]);
    ApartRun<V>(Nil, map[], ops);
    LookupAsWritten(ops, q);
  }

  // ------------------------------------------------------------------ the run that loses keys

  lemma DoCons<V>(s: Store<V>, op: Op<V>, ops: seq<Op<V>>)
    ensures DoAll(s, [op] + ops) == if Do(s, op).None? then None else DoAll(Do(s, op).value, ops)
  {
    assert ([op] + ops)[1..] == ops;
  }

  const ROOT: Key := []
  const K0: Key := [false]
  const K1: Key := [true]
  const K00: Key := [false, false]
  const K01: Key := [false, true]

  /** Key 0 with its two children, before and after 0 is removed. */
  function Fork(removed: bool): PNode<int> {
    var id := if removed then 10 else 2;
    PNode(id, if removed then None else Some(0), K0, if removed then None else Some(2),
          NewLeaf(6, Some(id), K00, 4), NewLeaf(8, Some(id), K01, 5))
  }

  function Top(left: PNode<int>, right: PNode<int>): PNode<int> {
    PNode(0, None, ROOT, Some(1), left, right)
  }

  /** The trie after `i` of the five additions. */
  function Built(i: nat): PNode<int> {
    var l0, l1 := NewLeaf(2, Some(0), K0, 2), NewLeaf(4, Some(0), K1, 3);
    if i == 0 then PNil
    else if i == 1 then Top(PNil, PNil)
    else if i == 2 then Top(l0, PNil)
    else if i == 3 then Top(l0, l1)
    else if i == 4 then Top(PNode(2, Some(0), K0, Some(2), NewLeaf(6, Some(2), K00, 4), PNil), l1)
    else Top(Fork(false), l1)
  }

  const ADDS: seq<Op<int>> := [AddOp(ROOT, 1), AddOp(K0, 2), AddOp(K1, 3), AddOp(K00, 4), AddOp(K01, 5)]

  lemma OneMoreBuilt(i: nat)
    requires i < 5
    ensures Do(Store(Built(i), 2 * i, {}), ADDS[i]) == Some(Store(Built(i + 1), 2 * i + 2, {}))
  {
    var t, none: set<Id> := Built(i), {};
    assert none + none == none;
    if i == 3 {
      assert AddBelowP(t.left, Some(0), K00, 4, 6) == Here(Built(4).left, false, {});
    } else if i == 4 {
      assert AddBelowP(t.left, Some(0), K01, 5, 8) == Here(Built(5).left, false, {});
    }
  }

  lemma BuiltUncrowded(i: nat)
    requires i < 5
    ensures !Crowds(Erase(Built(i)), ADDS[i].key)
  {
  }

  lemma BuiltRight(i: nat)
    requires i <= 5
    ensures Right(Built(i), None) && Older(Built(i), 2 * i)
  {
    if i > 0 {
      assert Right(Built(i).left, Some(0)) && Older(Built(i).left, 2 * i);
      assert Right(Built(i).right, Some(0)) && Older(Built(i).right, 2 * i);
    }
  }

  lemma OneMoreIntended(i: nat)
    requires i < 5
    ensures Apply(Erase(Built(i)), ADDS[i]) == Erase(Built(i + 1))
  {
    hide Built, Do, Apply, Erase, Right, Older;
    BuiltRight(i);
    OneMoreBuilt(i);
    StepRightIff(Store(Built(i), 2 * i, {}), ADDS[i]);
  }

  lemma {:induction false} ForkIsBuilt(i: nat)
    requires i <= 5
    ensures DoAll(Store(Built(i), 2 * i, {}), ADDS[i..]) == Some(Store(Built(5), 10, {}))
    decreases 5 - i
  {
    hide Do, Built;
    if i < 5 {
      OneMoreBuilt(i);
      ForkIsBuilt(i + 1);
      assert ADDS[i..][1..] == ADDS[i + 1..];
    }
  }

  lemma {:induction false} ForkUncrowded(i: nat)
    requires i <= 5
    ensures Uncrowded(Erase(Built(i)), ADDS[i..] + [RmOp(K0), RmOp(K00)])
    decreases 5 - i
  {
    hide Do, Built, Apply, Crowds, Erase;
    var ops := ADDS[i..] + [RmOp(K0), RmOp(K00)];
    if i < 5 {
      OneMoreIntended(i);
      BuiltUncrowded(i);
      ForkUncrowded(i + 1);
      assert ops[0] == ADDS[i] && ops[1..] == ADDS[i + 1..] + [RmOp(K0), RmOp(K00)];
    } else {
      assert ops == [RmOp(K0), RmOp(K00)];
      var t := Apply(Erase(Built(5)), RmOp(K0));
      assert ops[1..] == [RmOp(K00)] && Uncrowded(Apply(t, RmOp(K00)), []);
      assert Uncrowded(t, [RmOp(K00)]);
    }
  }

  lemma ForkIsRemoved()
    ensures Do(Store(Top(Fork(false), NewLeaf(4, Some(0), K1, 3)), 10, {}), RmOp(K0))
         == Some(Store(Top(Fork(true), NewLeaf(4, Some(0), K1, 3)), 12, {2}))
  {
    var t := Top(Fork(false), NewLeaf(4, Some(0), K1, 3));
    assert !(K00 <= K0) && !(K01 <= K0);
    assert RmBelowP(t.left, Some(0), K0, 10) == Here(Fork(true), false, {2});
    assert RmBelowP(t, None, K0, 10) == Here(Top(Fork(true), t.right), false, {2});
    assert {} + {2} == {2};
  }

  lemma ForkLoses()
    ensures Do(Store(Top(Fork(true), NewLeaf(4, Some(0), K1, 3)), 12, {2}), RmOp(K00))
         == Some(Store(NewLeaf(8, None, K01, 5), 14, {2, 6, 10}))
  {
    var t := Top(Fork(true), NewLeaf(4, Some(0), K1, 3));
    assert RmBelowP(t.left.left, Some(10), K00, 12) == Here(PNil, true, {6});
    assert RmBelowP(t.left, Some(0), K00, 12) == AtRoot(NewLeaf(8, None, K01, 5), {6, 10});
    assert RmBelowP(t, None, K00, 12) == AtRoot(NewLeaf(8, None, K01, 5), {6, 10});
    assert {2} + {6, 10} == {2, 6, 10};
  }

  /** A run that crowds nowhere, after which the keys [] and 1, never removed, are not found. */
  lemma LostKeysExample()
    ensures var ops := ADDS + [RmOp(K0), RmOp(K00)];
            var r := DoAll(Empty(), ops);
            && Uncrowded(Nil, ops) && r.Some? && Get(Erase(r.value.root), K1) == None
            && At(Erase(r.value.root), ROOT) == None && At(Erase(r.value.root), K1) == None
  {
    hide Do;
    DoAppend(Empty(), ADDS, [RmOp(K0), RmOp(K00)]);
    ForkIsBuilt(0);
    ForkIsRemoved();
    ForkLoses();
    ForkUncrowded(0);
    DoCons(Store(Built(5), 10, {}), RmOp(K0), [RmOp(K00)]);
    DoCons(Store(Top(Fork(true), NewLeaf(4, Some(0), K1, 3)), 12, {2}), RmOp(K00), []);
    LeafAt(K01, 5);
    EraseLeaf(8, None, K01, 5);
    assert ADDS[0..] == ADDS && !(K01 <= K1) && ROOT != K01 && K1 != K01;
  }

  lemma {:induction false} DoAppend<V>(s: Store<V>, ops: seq<Op<V>>, more: seq<Op<V>>)
    ensures DoAll(s, ops + more) == if DoAll(s, ops).None? then None else DoAll(DoAll(s, ops).value, more)
    decreases |ops|
  {
    if ops == [] {
      assert ops + more == more;
    } else {
      assert (ops + more)[1..] == ops[1..] + more;
      if Do(s, ops[0]).Some? {
        DoAppend(Do(s, ops[0]).value, ops[1..], more);
      }
    }
  }
}
