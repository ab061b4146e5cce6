/**
 The ordered-tree searches every table is built on. They run on any binary
 search tree: balancing (kernel code) changes the shape of a tree, never its
 in-order sequence, and everything below is stated about that sequence.

 A search is driven by a comparison `cmp` of stored entries against what is
 being looked for: negative for entries before it, positive for entries after it.
 */
module OrderedTree {

  import opened Types

  datatype Tree<T> = Leaf | Node(left: Tree<T>, value: T, right: Tree<T>)

  function InOrder<T>(t: Tree<T>): seq<T> {
    match t
    case Leaf => []
    case Node(l, v, r) => InOrder(l) + [v] + InOrder(r)
  }

  /**
   Entries come before, at, and after the target, in that order. A comparison that
   looks at fewer fields than the tree is sorted by satisfies this too; then several
   entries may compare equal.
   */
  ghost predicate Directed<T>(cmp: T -> int, s: seq<T>) {
    forall i, j :: 0 <= i < j < |s| ==>
      (cmp(s[i]) >= 0 ==> cmp(s[j]) >= 0) && (cmp(s[i]) > 0 ==> cmp(s[j]) > 0)
  }

  /** The comparison looks at the whole sorting key, so at most one entry compares equal. */
  ghost predicate Exact<T>(cmp: T -> int, s: seq<T>) {
    forall i, j :: 0 <= i < j < |s| && cmp(s[i]) >= 0 ==> cmp(s[j]) > 0
  }

  lemma DirectedParts<T>(cmp: T -> int, l: seq<T>, v: T, r: seq<T>)
    requires Directed(cmp, l + [v] + r)
    ensures Directed(cmp, l) && Directed(cmp, r)
    ensures cmp(v) < 0 ==> forall x <- l :: cmp(x) < 0
    ensures cmp(v) > 0 ==> forall x <- r :: cmp(x) > 0
  {
    var s := l + [v] + r;
    assert forall i :: 0 <= i < |l| ==> s[i] == l[i];
    assert s[|l|] == v;
    assert forall i :: |l| < i < |s| ==> s[i] == r[i - |l| - 1];
    forall i, j | 0 <= i < j < |r|
      ensures (cmp(r[i]) >= 0 ==> cmp(r[j]) >= 0) && (cmp(r[i]) > 0 ==> cmp(r[j]) > 0)
    {
      assert s[|l| + 1 + i] == r[i] && s[|l| + 1 + j] == r[j];
    }
    forall i | 0 <= i < |r|
      ensures cmp(v) > 0 ==> cmp(r[i]) > 0
    {
      assert s[|l| + 1 + i] == r[i];
    }
  }

  /** rbtree_find: the walk finds a match if and only if a scan of the whole tree would. */
  method Find<T>(root: Tree<T>, cmp: T -> int) returns (result: Option<T>)
    requires Directed(cmp, InOrder(root))
    ensures result.Some? <==> exists x <- InOrder(root) :: cmp(x) == 0
    ensures result.Some? ==> result.value in InOrder(root) && cmp(result.value) == 0
  {
    var node := root;
    while node.Node?
      invariant Directed(cmp, InOrder(node))
      invariant forall x <- InOrder(node) :: x in InOrder(root)
      invariant forall x <- InOrder(root) :: cmp(x) == 0 ==> x in InOrder(node)
      decreases node
    {
      DirectedParts(cmp, InOrder(node.left), node.value, InOrder(node.right));
      var comparison := cmp(node.value);
      if comparison < 0 {
        node := node.right;
      } else if comparison > 0 {
        node := node.left;
      } else {
        return Some(node.value);
      }
    }
    return None;
  }

  /**
   rbtree_add walks down to the empty slot where the entry belongs and links it
   there; None stands for EEXIST.
   */
  function Add<T>(t: Tree<T>, entry: T, cmp: T -> int): Option<Tree<T>> {
    match t
    case Leaf => Some(Node(Leaf, entry, Leaf))
    case Node(l, v, r) =>
      if cmp(v) < 0 then
        var sub := Add(r, entry, cmp);
        if sub.None? then None else Some(Node(l, v, sub.value))
      else if cmp(v) > 0 then
        var sub := Add(l, entry, cmp);
        if sub.None? then None else Some(Node(sub.value, v, r))
      else None
  }

  /** `result` is `s` with `entry` put at the lower bound, or None exactly if an equal entry is there. */
  ghost predicate Inserted<T>(s: seq<T>, entry: T, cmp: T -> int, result: Option<seq<T>>) {
    && (result.None? <==> exists i :: 0 <= i < |s| && cmp(s[i]) == 0)
    && (result.Some? ==> var n := LowerBound(s, cmp); result.value == s[..n] + [entry] + s[n..])
  }

  function Contents<T>(t: Option<Tree<T>>): Option<seq<T>> {
    if t.None? then None else Some(InOrder(t.value))
  }

  lemma {:induction false} AddInserts<T>(t: Tree<T>, entry: T, cmp: T -> int)
    requires Exact(cmp, InOrder(t))
    ensures Inserted(InOrder(t), entry, cmp, Contents(Add(t, entry, cmp)))
  {
    if t.Node? {
      var l, v, r := InOrder(t.left), t.value, InOrder(t.right);
      ExactParts(cmp, l, v, r);
      if cmp(v) < 0 {
        AddInserts(t.right, entry, cmp);
        InsertedRight(l, v, r, entry, cmp, Contents(Add(t.right, entry, cmp)));
      } else if cmp(v) > 0 {
        AddInserts(t.left, entry, cmp);
        InsertedLeft(l, v, r, entry, cmp, Contents(Add(t.left, entry, cmp)));
      } else {
        assert (l + [v] + r)[|l|] == v;
      }
    }
  }

  lemma InsertedRight<T>(l: seq<T>, v: T, r: seq<T>, entry: T, cmp: T -> int, result: Option<seq<T>>)
    requires cmp(v) < 0 && forall i :: 0 <= i < |l| ==> cmp(l[i]) < 0
    requires Inserted(r, entry, cmp, result)
    ensures Inserted(l + [v] + r, entry, cmp, if result.None? then None else Some(l + [v] + result.value))
  {
    var a := l + [v];
    if i :| 0 <= i < |r| && cmp(r[i]) == 0 {
      assert (a + r)[|a| + i] == r[i];
    } else {
      assert forall i :: 0 <= i < |a + r| ==> cmp((a + r)[i]) != 0;
    }
    LowerBoundRight(cmp, a, r);
    InsertRight(a, r, LowerBound(r, cmp), entry);
  }

  lemma InsertedLeft<T>(l: seq<T>, v: T, r: seq<T>, entry: T, cmp: T -> int, result: Option<seq<T>>)
    requires cmp(v) > 0 && forall i :: 0 <= i < |r| ==> cmp(r[i]) > 0
    requires Inserted(l, entry, cmp, result)
    ensures Inserted(l + [v] + r, entry, cmp, if result.None? then None else Some(result.value + [v] + r))
  {
    var s := l + [v] + r;
    if i :| 0 <= i < |l| && cmp(l[i]) == 0 {
      assert s[i] == l[i];
    } else {
      assert forall i :: 0 <= i < |s| ==> cmp(s[i]) != 0;
    }
    LowerBoundLeft(cmp, l, v, r);
    InsertLeft(l, [v] + r, LowerBound(l, cmp), entry);
    assert s == l + ([v] + r);
    if result.Some? {
      assert result.value + ([v] + r) == result.value + [v] + r;
    }
  }

  lemma ExactParts<T>(cmp: T -> int, l: seq<T>, v: T, r: seq<T>)
    requires Exact(cmp, l + [v] + r)
    ensures Exact(cmp, l) && Exact(cmp, r)
    ensures cmp(v) < 0 ==> forall i :: 0 <= i < |l| ==> cmp(l[i]) < 0
    ensures cmp(v) > 0 ==> forall i :: 0 <= i < |r| ==> cmp(r[i]) > 0
  {
    var s := l + [v] + r;
    assert forall i :: 0 <= i < |l| ==> s[i] == l[i];
    assert s[|l|] == v;
    forall i, j | 0 <= i < j < |r| && cmp(r[i]) >= 0
      ensures cmp(r[j]) > 0
    {
      assert s[|l| + 1 + i] == r[i] && s[|l| + 1 + j] == r[j];
    }
    forall i | 0 <= i < |r|
      ensures cmp(v) > 0 ==> cmp(r[i]) > 0
    {
      assert s[|l| + 1 + i] == r[i];
    }
  }

  lemma LowerBoundRight<T>(cmp: T -> int, a: seq<T>, r: seq<T>)
    requires forall i :: 0 <= i < |a| ==> cmp(a[i]) < 0
    ensures LowerBound(a + r, cmp) == |a| + LowerBound(r, cmp)
  {
    LowerBoundUnique(a + r, cmp, |a| + LowerBound(r, cmp));
  }

  lemma LowerBoundLeft<T>(cmp: T -> int, l: seq<T>, v: T, r: seq<T>)
    requires cmp(v) > 0
    ensures LowerBound(l + [v] + r, cmp) == LowerBound(l, cmp)
  {
    LowerBoundUnique(l + [v] + r, cmp, LowerBound(l, cmp));
  }

  lemma InsertRight<T>(a: seq<T>, r: seq<T>, n: nat, e: T)
    requires n <= |r|
    ensures (a + r)[..|a| + n] + [e] + (a + r)[|a| + n..] == a + (r[..n] + [e] + r[n..])
  {
  }

  lemma InsertLeft<T>(l: seq<T>, b: seq<T>, n: nat, e: T)
    requires n <= |l|
    ensures (l + b)[..n] + [e] + (l + b)[n..] == (l[..n] + [e] + l[n..]) + b
  {
  }

  /** How many entries of `s` come before the target. */
  function LowerBound<T>(s: seq<T>, cmp: T -> int): (n: nat)
    ensures n <= |s|
    ensures forall i :: 0 <= i < n ==> cmp(s[i]) < 0
    ensures n < |s| ==> cmp(s[n]) >= 0
  {
    if s != [] && cmp(s[0]) < 0 then LowerBound(s[1..], cmp) + 1 else 0
  }

  lemma LowerBoundUnique<T>(s: seq<T>, cmp: T -> int, n: nat)
    requires n <= |s|
    requires forall i :: 0 <= i < n ==> cmp(s[i]) < 0
    requires n < |s| ==> cmp(s[n]) >= 0
    ensures n == LowerBound(s, cmp)
  {
  }

  /** Where a walk that starts at position `from` of the in-order sequence begins. */
  function StartIndex<T>(s: seq<T>, cmp: T -> int, inclusive: bool): (n: nat)
    ensures n <= |s|
  {
    var n := LowerBound(s, cmp);
    if n < |s| && cmp(s[n]) == 0 && !inclusive then n + 1 else n
  }

  /**
   find_starting_point: rbtree_find_node walks down remembering the last node seen
   (`parent`); if nothing compares equal, iteration starts at the parent or at
   its successor, whichever is first after the target. Positions are indices in the
   in-order sequence, so rb_next is +1; `before` counts the entries left of `node`.
   */
  method FindStartingPoint<T>(root: Tree<T>, cmp: T -> int, inclusive: bool) returns (start: nat)
    requires Exact(cmp, InOrder(root))
    ensures start == StartIndex(InOrder(root), cmp, inclusive)
  {
    ghost var s := InOrder(root);
    var node, before: nat := root, 0;
    var parent: Option<T>, parentAt: nat := None, 0;
    while node.Node?
      invariant Window(s, before, InOrder(node)) && Decided(s, cmp, before, |InOrder(node)|)
      invariant parent.None? ==> before == 0
      invariant parent.Some? ==> Beside(parent.value, parentAt, cmp, before, |InOrder(node)|)
      decreases node
    {
      var l, r := InOrder(node.left), InOrder(node.right);
      Step(s, cmp, before, l, node.value, r);
      var here := before + |l|;
      if cmp(node.value) == 0 {
        LowerBoundUnique(s, cmp, here);
        return if inclusive then here else here + 1;
      }
      parent, parentAt := Some(node.value), here;
      if cmp(node.value) < 0 {
        before := here + 1;
        node := node.right;
      } else {
        node := node.left;
      }
    }
    LowerBoundUnique(s, cmp, before);
    if parent.None? {
      return 0;
    }
    return if cmp(parent.value) < 0 then parentAt + 1 else parentAt;
  }

  /** `w` is the part of `s` that starts at `before`. */
  ghost predicate Window<T>(s: seq<T>, before: nat, w: seq<T>) {
    && before + |w| <= |s|
    && forall j :: before <= j < before + |w| ==> s[j] == w[j - before]
  }
  /** Everything outside the window is known to lie before or after the target. */
  ghost predicate Decided<T>(s: seq<T>, cmp: T -> int, before: nat, size: nat) {
    && (forall i :: 0 <= i < before && i < |s| ==> cmp(s[i]) < 0)
    && (forall i :: before + size <= i < |s| ==> cmp(s[i]) > 0)
  }

  /** The last node passed is a neighbour of the remaining window, on the side its comparison says. */
  ghost predicate Beside<T>(parent: T, at: nat, cmp: T -> int, before: nat, size: nat) {
    && cmp(parent) != 0
    && (cmp(parent) < 0 ==> at + 1 == before)
    && (cmp(parent) > 0 ==> at == before + size)
  }

  /** What one comparison establishes, in the middle of a window made of `l`, `v` and `r`. */
  lemma Step<T>(s: seq<T>, cmp: T -> int, before: nat, l: seq<T>, v: T, r: seq<T>)
    requires Exact(cmp, s)
    requires Window(s, before, l + [v] + r) && Decided(s, cmp, before, |l| + 1 + |r|)
    ensures Window(s, before, l) && Window(s, before + |l| + 1, r)
    ensures before + |l| < |s| && s[before + |l|] == v
    ensures cmp(v) < 0 ==> Decided(s, cmp, before + |l| + 1, |r|)
    ensures cmp(v) > 0 ==> Decided(s, cmp, before, |l|)
    ensures cmp(v) == 0 ==> forall i :: 0 <= i < before + |l| ==> cmp(s[i]) < 0
  {
    var w := l + [v] + r;
    forall j | before <= j < before + |l|
      ensures s[j] == l[j - before]
    {
      assert s[j] == w[j - before];
    }
    assert s[before + |l|] == w[|l|];
    forall j | before + |l| + 1 <= j < before + |l| + 1 + |r|
      ensures s[j] == r[j - (before + |l| + 1)]
    {
      assert s[j] == w[j - before];
    }
  }
}
