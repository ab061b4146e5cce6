/**
 The radix trie behind the EAM table. Keys are bit strings; a key contains another if
 it is a prefix of it (Dafny's `<=` on sequences). White nodes hold a value, black ones only
 group their children.

 Tries are values here: a node's parent is wherever the node hangs.
 */
module Trie {
  import opened Types

  type Key = seq<bool>

  datatype Node<V> = Nil | Node(key: Key, value: Option<V>, left: Node<V>, right: Node<V>)

  function Leaf<V>(key: Key, value: V): Node<V> {
    Node(key, Some(value), Nil, Nil)
  }

  // ---------------------------------------------------------------------- keys

  /** The number of leading bits two keys have in common. */
  function Match(a: Key, b: Key): (n: nat)
    ensures n <= |a| && n <= |b|
    ensures forall i :: 0 <= i < n ==> a[i] == b[i]
    ensures n < |a| && n < |b| ==> a[n] != b[n]
  {
    if a == [] || b == [] || a[0] != b[0] then 0 else Match(a[1..], b[1..]) + 1
  }

  ghost predicate Apart(a: Key, b: Key) {
    !(a <= b) && !(b <= a)
  }

  lemma MatchUnique(a: Key, b: Key, n: nat)
    requires n <= |a| && n <= |b| && (forall i :: 0 <= i < n ==> a[i] == b[i])
    requires n < |a| && n < |b| && a[n] != b[n]
    ensures Match(a, b) == n
  {
  }

  lemma ApartMatch(a: Key, b: Key)
    ensures Apart(a, b) <==> Match(a, b) < |a| && Match(a, b) < |b|
  {
    var m := Match(a, b);
    if m == |a| {
      assert a <= b;
    } else if m == |b| {
      assert b <= a;
    } else {
      assert a[m] != b[m];
    }
  }

  /** Of three keys, the third diverging from both others, exactly one pair is closest: bits have two values. */
  lemma ClosestPair(l: Key, r: Key, n: Key)
    requires Apart(l, n) && Apart(r, n)
    ensures var lr, ln, rn := Match(l, r), Match(l, n), Match(r, n);
            || (lr > ln && lr > rn)
            || (ln > lr && ln > rn)
            || (rn > lr && rn > ln)
  {
    var ln, rn := Match(l, n), Match(r, n);
    ApartMatch(l, n);
    ApartMatch(r, n);
    if ln > rn {
      MatchUnique(l, r, rn);
    } else if rn > ln {
      MatchUnique(l, r, ln);
    } else {
      assert l[ln] == r[ln];
    }
  }

  // -------------------------------------------------------------------- lookup

  /** What a scan of every node finds stored under a key. */
  function At<V>(t: Node<V>, k: Key): Option<V> {
    if t.Nil? then None
    else if t.key == k && t.value.Some? then t.value
    else if At(t.left, k).Some? then At(t.left, k)
    else At(t.right, k)
  }

  /** The result a linear scan would give: the longest stored key that contains the query. */
  ghost predicate IsLongest<V>(t: Node<V>, q: Key, r: Option<(Key, V)>) {
    match r
    case None => forall k :: k <= q ==> At(t, k) == None
    case Some((k, v)) => k <= q && At(t, k) == Some(v) && forall j :: j <= q && At(t, j).Some? ==> |j| <= |k|
  }

  /** find_longest_common_prefix for white nodes: the left child is tried first. */
  function Seek<V>(t: Node<V>, q: Key, last: Option<(Key, V)>): Option<(Key, V)> {
    if t.Nil? || !(t.key <= q) then last
    else
      var best := if t.value.Some? then Some((t.key, t.value.value)) else last;
      if t.left.Node? && t.left.key <= q then Seek(t.left, q, best) else Seek(t.right, q, best)
  }

  function Get<V>(t: Node<V>, q: Key): Option<(Key, V)> {
    Seek(t, q, None)
  }

  method Find<V>(root: Node<V>, key: Key) returns (lastWhite: Option<(Key, V)>)
    ensures lastWhite == Get(root, key)
  {
    if root.Nil? || !(root.key <= key) {
      return None;
    }
    var node := root;
    lastWhite := None;
    while true
      invariant node.Node? && node.key <= key
      invariant Seek(node, key, lastWhite) == Get(root, key)
      decreases node
    {
      if node.value.Some? {
        lastWhite := Some((node.key, node.value.value));
      }
      if node.left.Node? && node.left.key <= key {
        node := node.left;
      } else if node.right.Node? && node.right.key <= key {
        node := node.right;
      } else {
        return;
      }
    }
  }

  /** Children strictly inside their parent, siblings apart, and black nodes with two children. */
  ghost predicate Fits<V>(key: Key, white: bool, l: Node<V>, r: Node<V>) {
    && (l.Node? ==> key < l.key)
    && (r.Node? ==> key < r.key)
    && (l.Node? && r.Node? ==> Apart(l.key, r.key))
    && (white || (l.Node? && r.Node?))
  }

  ghost predicate Valid<V>(t: Node<V>) {
    t.Node? ==> Fits(t.key, t.value.Some?, t.left, t.right) && Valid(t.left) && Valid(t.right)
  }

  lemma {:induction false} KeysBelow<V>(t: Node<V>, k: Key)
    requires Valid(t) && At(t, k).Some?
    ensures t.key <= k
  {
    if !(t.key == k && t.value.Some?) {
      if At(t.left, k).Some? {
        KeysBelow(t.left, k);
      } else {
        KeysBelow(t.right, k);
      }
    }
  }

  /** No key is contained in both of two keys that lie apart. */
  lemma NoneInBoth(a: Key, b: Key, q: Key)
    requires Apart(a, b)
    ensures !(a <= q && b <= q)
  {
  }

  /** `r` is the longest in `t` containing `q`, or `last` if there is none. */
  ghost predicate Sought<V>(t: Node<V>, q: Key, last: Option<(Key, V)>, r: Option<(Key, V)>) {
    if forall k :: k <= q ==> At(t, k) == None then r == last else r.Some? && IsLongest(t, q, r)
  }

  /** One level: the child that contains the query answers, and nothing stored elsewhere is longer. */
  lemma SoughtNode<V>(t: Node<V>, q: Key, last: Option<(Key, V)>, r: Option<(Key, V)>, child: Node<V>, other: Node<V>)
    requires t.Node? && t.key <= q
    requires (child == t.left && other == t.right) || (child == t.right && other == t.left)
    requires forall k :: At(t, k) == if t.key == k && t.value.Some? then t.value
                                     else if At(child, k).Some? then At(child, k) else At(other, k)
    requires forall k :: At(child, k).Some? ==> t.key <= k
    requires forall k :: k <= q ==> At(other, k) == None
    requires Sought(child, q, if t.value.Some? then Some((t.key, t.value.value)) else last, r)
    requires t.value.Some? ==> At(child, t.key) == None
    ensures Sought(t, q, last, r)
  {
    if forall k :: k <= q ==> At(child, k) == None {
      if t.value.Some? {
        assert At(t, t.key) == t.value;
        assert forall j :: j <= q && At(t, j).Some? ==> j == t.key;
      }
    } else {
      var (k, v) := r.value;
      assert At(child, k).Some? && t.key <= k;
    }
  }

  ghost predicate KeysInside<V>(t: Node<V>) {
    forall k :: At(t, k).Some? ==> t.Node? && t.key <= k
  }

  function BestHere<V>(t: Node<V>, last: Option<(Key, V)>): Option<(Key, V)>
    requires t.Node?
  {
    if t.value.Some? then Some((t.key, t.value.value)) else last
  }

  /** If the walk is right in both subtrees, and these lie apart, then it is right in the whole. */
  lemma SoughtFromChildren<V>(t: Node<V>, q: Key, last: Option<(Key, V)>)
    requires t.Node? && t.key <= q
    requires KeysInside(t.left) && KeysInside(t.right)
    requires (t.left.Node? ==> t.key < t.left.key) && (t.right.Node? ==> t.key < t.right.key)
    requires t.left.Node? && t.right.Node? ==> Apart(t.left.key, t.right.key)
    requires Sought(t.left, q, BestHere(t, last), Seek(t.left, q, BestHere(t, last)))
    requires Sought(t.right, q, BestHere(t, last), Seek(t.right, q, BestHere(t, last)))
    ensures Sought(t, q, last, Seek(t, q, last))
  {
    forall k | At(t.left, k).Some? ensures At(t.right, k) == None {
      if t.right.Node? {
        NoneInBoth(t.left.key, t.right.key, k);
      }
    }
    if t.left.Node? && t.left.key <= q {
      if t.right.Node? {
        NoneInBoth(t.left.key, t.right.key, q);
      }
      assert forall k :: k <= q ==> At(t.right, k) == None;
      SoughtNode(t, q, last, Seek(t, q, last), t.left, t.right);
    } else {
      SoughtNode(t, q, last, Seek(t, q, last), t.right, t.left);
    }
  }

  lemma NothingSought<V>(t: Node<V>, q: Key, last: Option<(Key, V)>)
    requires KeysInside(t) && !(t.Node? && t.key <= q)
    ensures Sought(t, q, last, Seek(t, q, last))
  {
  }

  lemma {:induction false} SeekFindsLongest<V>(t: Node<V>, q: Key, last: Option<(Key, V)>)
    requires Valid(t)
    ensures Sought(t, q, last, Seek(t, q, last))
  {
    ValidKeysInside(t);
    if t.Node? && t.key <= q {
      ValidKeysInside(t.left);
      ValidKeysInside(t.right);
      SeekFindsLongest(t.left, q, BestHere(t, last));
      SeekFindsLongest(t.right, q, BestHere(t, last));
      SoughtFromChildren(t, q, last);
    } else {
      NothingSought(t, q, last);
    }
  }

  lemma ValidKeysInside<V>(t: Node<V>)
    requires Valid(t)
    ensures KeysInside(t)
  {
    forall k | At(t, k).Some? ensures t.key <= k {
      KeysBelow(t, k);
    }
  }

  /** Where the keys of a valid node's subtrees are. */
  lemma SubtreeKeys<V>(t: Node<V>)
    requires Valid(t) && t.Node?
    ensures forall k :: At(t.left, k).Some? ==> t.left.key <= k && t.key < k
    ensures forall k :: At(t.right, k).Some? ==> t.right.key <= k && t.key < k
    ensures forall k :: At(t.left, k).Some? ==> At(t.right, k) == None
  {
    forall k | At(t.left, k).Some? ensures t.left.key <= k && t.key < k {
      KeysBelow(t.left, k);
    }
    forall k | At(t.right, k).Some? ensures t.right.key <= k && t.key < k {
      KeysBelow(t.right, k);
    }
    forall k | At(t.left, k).Some? ensures At(t.right, k) == None {
      if t.right.Node? {
        NoneInBoth(t.left.key, t.right.key, k);
      }
    }
  }

  /** In a valid trie the walk gives what a linear scan would. */
  lemma LookupIsLongestPrefixMatch<V>(t: Node<V>, q: Key)
    requires Valid(t)
    ensures IsLongest(t, q, Get(t, q))
  {
    SeekFindsLongest(t, q, None);
  }

  // ------------------------------------------------------------------ addition

  datatype AddResult<V> = Added(trie: Node<V>) | Exists | Inconsistent

  function AddToRoot<V>(root: Node<V>, k: Key, v: V): Node<V> {
    if root.Nil? then Leaf(k, v)
    else if k <= root.key then Node(k, Some(v), root, Nil)
    else Node(k[..Match(root.key, k)], None, root, Leaf(k, v))
  }

  /** The two closest of the children and the new node move one level down, under a new black node. */
  function AddFullCollision<V>(t: Node<V>, k: Key, v: V): AddResult<V>
    requires t.Node? && t.left.Node? && t.right.Node?
  {
    var lr, ln, rn := Match(t.left.key, t.right.key), Match(t.left.key, k), Match(t.right.key, k);
    var leaf := Leaf(k, v);
    if lr > ln && lr > rn then
      Added(t.(left := leaf, right := Node(t.left.key[..lr], None, t.left, t.right)))
    else if ln > lr && ln > rn then
      Added(t.(left := t.right, right := Node(k[..ln], None, leaf, t.left)))
    else if rn > lr && rn > ln then
      Added(t.(right := Node(k[..rn], None, leaf, t.right)))
    else Inconsistent
  }

  /** The rest of __rtrie_add, once the deepest node that contains the key is found. */
  function AddHere<V>(t: Node<V>, k: Key, v: V): AddResult<V>
    requires t.Node?
  {
    if t.key == k then
      if t.value.None? then Added(t.(value := Some(v))) else Exists
    else if t.left.Nil? then Added(t.(left := Leaf(k, v)))
    else if t.right.Nil? then Added(t.(right := Leaf(k, v)))
    else if k <= t.left.key && k <= t.right.key then
      if t.value.None? then Added(t.(key := k, value := Some(v)))
      else Added(t.(left := Nil, right := Node(k, Some(v), t.left, t.right)))
    else if k <= t.left.key then Added(t.(left := Node(k, Some(v), t.left, Nil)))
    else if k <= t.right.key then Added(t.(right := Node(k, Some(v), Nil, t.right)))
    else AddFullCollision(t, k, v)
  }

  function AddBelow<V>(t: Node<V>, k: Key, v: V): AddResult<V>
    requires t.Node?
  {
    if t.left.Node? && t.left.key <= k then
      var r := AddBelow(t.left, k, v);
      if r.Added? then Added(t.(left := r.trie)) else r
    else if t.right.Node? && t.right.key <= k then
      var r := AddBelow(t.right, k, v);
      if r.Added? then Added(t.(right := r.trie)) else r
    else AddHere(t, k, v)
  }

  function Add<V>(root: Node<V>, k: Key, v: V): AddResult<V> {
    if root.Nil? || !(root.key <= k) then Added(AddToRoot(root, k, v)) else AddBelow(root, k, v)
  }

  /** An only child lies inside the key about to be put into the empty slot beside it. */
  predicate CrowdsHere<V>(t: Node<V>, k: Key)
    requires t.Node?
  {
    && t.key != k
    && (|| (t.left.Nil? && t.right.Node? && k <= t.right.key)
        || (t.right.Nil? && t.left.Node? && k <= t.left.key))
  }

  predicate CrowdsBelow<V>(t: Node<V>, k: Key)
    requires t.Node?
  {
    if t.left.Node? && t.left.key <= k then CrowdsBelow(t.left, k)
    else if t.right.Node? && t.right.key <= k then CrowdsBelow(t.right, k)
    else CrowdsHere(t, k)
  }

  /** Whether adding `k` takes the branch that fills an empty slot without looking at the other one. */
  predicate Crowds<V>(root: Node<V>, k: Key) {
    root.Node? && root.key <= k && CrowdsBelow(root, k)
  }

  /** `t'` stores what `t` stores, and `v` under `k`. */
  ghost predicate Stores<V>(t': Node<V>, t: Node<V>, k: Key, v: V) {
    forall j :: At(t', j) == if j == k then Some(v) else At(t, j)
  }

  /** The number of stored keys. */
  function Size<V>(t: Node<V>): nat {
    if t.Nil? then 0 else (if t.value.Some? then 1 else 0) + Size(t.left) + Size(t.right)
  }

  lemma ApartExtends(a: Key, b: Key, a': Key)
    requires Apart(a, b) && a <= a'
    ensures Apart(a', b) && Apart(b, a')
  {
    NoneInBoth(a, b, a');
  }

  lemma LeafAt<V>(k: Key, v: V)
    ensures forall j :: At(Leaf(k, v), j) == if j == k then Some(v) else None
    ensures Valid(Leaf(k, v)) && Size(Leaf(k, v)) == 1
  {
    assert forall j :: At<V>(Nil, j) == None;
  }

  lemma AddToRootMeaning<V>(root: Node<V>, k: Key, v: V)
    requires Valid(root) && (root.Node? ==> !(root.key <= k))
    ensures Valid(AddToRoot(root, k, v)) && Stores(AddToRoot(root, k, v), root, k, v)
    ensures Size(AddToRoot(root, k, v)) == Size(root) + 1
    ensures At(root, k) == None
  {
    ValidKeysInside(root);
    LeafAt(k, v);
    if root.Node? && k <= root.key {
      WhiteAt(k, v, root, Nil);
    } else if root.Node? {
      AddBesideRoot(root, k, v);
    }
  }

  lemma AddBesideRoot<V>(root: Node<V>, k: Key, v: V)
    requires root.Node? && Valid(root) && Apart(root.key, k)
    ensures var t := Node(k[..Match(root.key, k)], None, root, Leaf(k, v));
            Valid(t) && Stores(t, root, k, v) && Size(t) == Size(root) + 1
  {
    var m := Match(root.key, k);
    MatchSymmetric(root.key, k);
    ApartMatch(root.key, k);
    CutKeys(k, root.key, m);
    LeafAt(k, v);
    ValidKeysInside(root);
    InodeAt(k[..m], root, Leaf(k, v));
    assert Fits(k[..m], false, root, Leaf(k, v));
  }

  /** The deepest node containing `k` has no child that contains it. */
  ghost predicate Deepest<V>(t: Node<V>, k: Key) {
    && t.Node? && Valid(t) && t.key <= k
    && !(t.left.Node? && t.left.key <= k)
    && !(t.right.Node? && t.right.key <= k)
  }

  lemma DeepestAt<V>(t: Node<V>, k: Key)
    requires Deepest(t, k)
    ensures At(t.left, k) == None && At(t.right, k) == None
    ensures At(t, k) == if t.key == k then t.value else None
  {
    SubtreeKeys(t);
  }

  /** What a black node stores is what its children store. */
  lemma InodeAt<V>(key: Key, a: Node<V>, b: Node<V>)
    ensures forall j :: At(Node(key, None, a, b), j) == if At(a, j).Some? then At(a, j) else At(b, j)
    ensures Size(Node(key, None, a, b)) == Size(a) + Size(b)
  {
  }

  lemma NodeSize<V>(t: Node<V>)
    requires t.Node?
    ensures Size(t) == (if t.value.Some? then 1 else 0) + Size(t.left) + Size(t.right)
    ensures Size<V>(Nil) == 0
  {
  }

  lemma WhiteAt<V>(key: Key, v: V, a: Node<V>, b: Node<V>)
    ensures forall j :: At(Node(key, Some(v), a, b), j) ==
              if j == key then Some(v) else if At(a, j).Some? then At(a, j) else At(b, j)
    ensures Size(Node(key, Some(v), a, b)) == 1 + Size(a) + Size(b)
  {
  }

  ghost predicate AddedOk<V>(t': Node<V>, t: Node<V>, k: Key, v: V) {
    t.Node? && t'.Node? && Stores(t', t, k, v) && Size(t') == Size(t) + 1 && t.key <= t'.key <= k
  }

  lemma AddHereStores<V>(t: Node<V>, k: Key, v: V)
    requires Deepest(t, k)
    ensures !AddHere(t, k, v).Inconsistent?
    ensures AddHere(t, k, v).Exists? <==> At(t, k).Some?
    ensures AddHere(t, k, v).Added? ==> AddedOk(AddHere(t, k, v).trie, t, k, v)
  {
    DeepestAt(t, k);
    if t.key == k && t.value.Some? {
    } else if t.key == k || t.left.Nil? || t.right.Nil? {
      LeafAt(k, v);
      NodeSize(t);
      NodeSize(AddHere(t, k, v).trie);
    } else if !(k <= t.left.key) && !(k <= t.right.key) {
      CollisionStores(t, k, v);
    } else {
      AddBetweenStores(t, k, v);
    }
  }

  /** The new node takes one or both children of `t` over. */
  lemma AddBetweenStores<V>(t: Node<V>, k: Key, v: V)
    requires Deepest(t, k) && t.key != k && t.left.Node? && t.right.Node?
    requires k <= t.left.key || k <= t.right.key
    ensures AddHere(t, k, v).Added? && AddedOk(AddHere(t, k, v).trie, t, k, v)
  {
    DeepestAt(t, k);
    SubtreeKeys(t);
    NodeSize(t);
    NodeSize(AddHere(t, k, v).trie);
    if k <= t.left.key && k <= t.right.key {
      WhiteAt(k, v, t.left, t.right);
    } else if k <= t.left.key {
      WhiteAt(k, v, t.left, Nil);
    } else {
      WhiteAt(k, v, Nil, t.right);
    }
  }

  lemma CollisionStores<V>(t: Node<V>, k: Key, v: V)
    requires Deepest(t, k) && t.key != k && t.left.Node? && t.right.Node?
    requires !(k <= t.left.key) && !(k <= t.right.key)
    ensures AddFullCollision(t, k, v).Added? && AddedOk(AddFullCollision(t, k, v).trie, t, k, v)
  {
    ClosestPair(t.left.key, t.right.key, k);
    var lr, ln, rn := Match(t.left.key, t.right.key), Match(t.left.key, k), Match(t.right.key, k);
    if lr > ln && lr > rn {
      GroupedStores(t, Leaf(k, v), t.left, t.right, t.left.key[..lr], k, v);
    } else if ln > lr && ln > rn {
      GroupedStores(t, t.right, Leaf(k, v), t.left, k[..ln], k, v);
    } else {
      GroupedStores(t, t.left, Leaf(k, v), t.right, k[..rn], k, v);
    }
  }

  /** However the two children and the new leaf are grouped, the three are what is stored below `t`. */
  lemma GroupedStores<V>(t: Node<V>, s: Node<V>, a: Node<V>, b: Node<V>, inode: Key, k: Key, v: V)
    requires Deepest(t, k) && t.key != k
    requires (s, a, b) == (Leaf(k, v), t.left, t.right) || (s, a, b) == (t.right, Leaf(k, v), t.left)
             || (s, a, b) == (t.left, Leaf(k, v), t.right)
    ensures AddedOk(t.(left := s, right := Node(inode, None, a, b)), t, k, v)
  {
    DeepestAt(t, k);
    SubtreeKeys(t);
    LeafAt(k, v);
    InodeAt(inode, a, b);
    var t' := t.(left := s, right := Node(inode, None, a, b));
    assert Size(t') == Size(t) + 1;
  }

  lemma AddHereValid<V>(t: Node<V>, k: Key, v: V)
    requires Deepest(t, k) && AddHere(t, k, v).Added?
    ensures Valid(AddHere(t, k, v).trie) <==> !CrowdsHere(t, k)
  {
    LeafAt(k, v);
    if t.key != k && t.left.Node? && t.right.Node? {
      if !(k <= t.left.key) && !(k <= t.right.key) {
        CollisionValid(t, k, v);
      } else if k <= t.left.key && !(k <= t.right.key) {
        assert Apart(k, t.right.key);
      } else if !(k <= t.left.key) && k <= t.right.key {
        assert Apart(t.left.key, k);
      }
    }
  }

  lemma CutKeys(a: Key, b: Key, m: nat)
    requires m == Match(a, b) < |a| && m < |b|
    ensures a[..m] < a && a[..m] < b && Apart(a, b)
  {
    ApartMatch(a, b);
  }

  lemma CollisionValid<V>(t: Node<V>, k: Key, v: V)
    requires Deepest(t, k) && t.left.Node? && t.right.Node?
    requires !(k <= t.left.key) && !(k <= t.right.key)
    ensures AddFullCollision(t, k, v).Added? && Valid(AddFullCollision(t, k, v).trie)
  {
    var l, r, leaf := t.left.key, t.right.key, Leaf(k, v);
    var lr, ln, rn := Match(l, r), Match(l, k), Match(r, k);
    CollisionKeys(t.key, l, r, k);
    LeafAt(k, v);
    if lr > ln && lr > rn {
      var t' := t.(left := leaf, right := Node(l[..lr], None, t.left, t.right));
      assert Valid(t') by { GroupedValid(t, leaf, t.left, t.right, l[..lr]); }
      assert AddFullCollision(t, k, v) == Added(t');
    } else if ln > lr && ln > rn {
      var t' := t.(left := t.right, right := Node(k[..ln], None, leaf, t.left));
      assert Valid(t') by { GroupedValid(t, t.right, leaf, t.left, k[..ln]); }
      assert AddFullCollision(t, k, v) == Added(t');
    } else {
      var t' := t.(right := Node(k[..rn], None, leaf, t.right));
      assert Valid(t') by { GroupedValid(t, t.left, leaf, t.right, k[..rn]); }
      assert AddFullCollision(t, k, v) == Added(t');
    }
  }

  /** A black node with key `cut` fits over `a` and `b`, and beside `s`, under `t`. */
  ghost predicate Groups(t: Key, s: Key, a: Key, b: Key, cut: Key) {
    t < cut && cut < a && cut < b && Apart(s, cut) && Apart(a, b)
  }

  lemma CollisionKeys(t: Key, l: Key, r: Key, k: Key)
    requires t < l && t < r && t <= k && Apart(l, r) && Apart(l, k) && Apart(r, k)
    ensures var lr, ln, rn := Match(l, r), Match(l, k), Match(r, k);
            && (lr > ln && lr > rn ==> Groups(t, k, l, r, l[..lr]))
            && (ln > lr && ln > rn ==> Groups(t, r, k, l, k[..ln]))
            && (rn > lr && rn > ln ==> Groups(t, l, k, r, k[..rn]))
            && ((lr > ln && lr > rn) || (ln > lr && ln > rn) || (rn > lr && rn > ln))
  {
    ClosestPair(l, r, k);
    ProperPrefix(t, l, r, k);
    MatchSymmetric(l, k);
    MatchSymmetric(r, k);
    var lr, ln, rn := Match(l, r), Match(l, k), Match(r, k);
    if lr > ln && lr > rn {
      GroupedKeys(t, k, l, r, lr);
    } else if ln > lr && ln > rn {
      GroupedKeys(t, r, k, l, ln);
    } else {
      GroupedKeys(t, l, k, r, rn);
    }
  }

  lemma GroupedValid<V>(t: Node<V>, s: Node<V>, a: Node<V>, b: Node<V>, cut: Key)
    requires t.Node? && s.Node? && a.Node? && b.Node?
    requires Valid(s) && Valid(a) && Valid(b)
    requires t.key < s.key && Groups(t.key, s.key, a.key, b.key, cut)
    ensures Valid(t.(left := s, right := Node(cut, None, a, b)))
  {
    assert Fits(cut, false, a, b);
    assert Valid(Node(cut, None, a, b));
    assert Fits(t.key, t.value.Some?, s, Node(cut, None, a, b));
  }

  lemma GroupedKeys(t: Key, s: Key, a: Key, b: Key, m: nat)
    requires t <= a && Apart(a, b) && Apart(a, s)
    requires m == Match(a, b) > Match(a, s) >= |t|
    ensures Groups(t, s, a, b, a[..m])
  {
    ApartMatch(a, b);
    CutKeys(a, b, m);
    Parted(a, s, m);
    InsideCut(t, a, m);
  }

  lemma InsideCut(p: Key, a: Key, m: nat)
    requires p <= a && |p| < m <= |a|
    ensures p < a[..m]
  {
  }

  lemma {:induction false} MatchSymmetric(a: Key, b: Key)
    ensures Match(a, b) == Match(b, a)
  {
    if a != [] && b != [] && a[0] == b[0] {
      MatchSymmetric(a[1..], b[1..]);
    }
  }

  /** `a` cut after more than Match(a, b) bits still parts ways with `b`. */
  lemma Parted(a: Key, b: Key, n: nat)
    requires Apart(a, b) && Match(a, b) < n <= |a|
    ensures Apart(a[..n], b) && Apart(b, a[..n])
  {
    ApartMatch(a, b);
    var m := Match(a, b);
    assert a[..n][m] != b[m];
  }

  /** What is common to two keys strictly inside `p` and diverging inside it extends `p`. */
  lemma ProperPrefix(p: Key, l: Key, r: Key, k: Key)
    requires p < l && p < r && p <= k
    ensures Match(l, r) >= |p| && Match(l, k) >= |p| && Match(r, k) >= |p|
  {
    CommonLength(p, l, r);
    CommonLength(p, l, k);
    CommonLength(p, r, k);
  }

  lemma CommonLength(p: Key, a: Key, b: Key)
    requires p <= a && p <= b
    ensures Match(a, b) >= |p|
  {
    assert forall i :: 0 <= i < |p| ==> a[i] == b[i];
  }

  lemma {:induction false} AddBelowMeaning<V>(t: Node<V>, k: Key, v: V)
    requires t.Node? && Valid(t) && t.key <= k
    ensures !AddBelow(t, k, v).Inconsistent?
    ensures AddBelow(t, k, v).Exists? <==> At(t, k).Some?
    ensures AddBelow(t, k, v).Added? ==> AddedOk(AddBelow(t, k, v).trie, t, k, v)
    ensures AddBelow(t, k, v).Added? ==> (Valid(AddBelow(t, k, v).trie) <==> !CrowdsBelow(t, k))
  {
    if t.left.Node? && t.left.key <= k {
      AddBelowMeaning(t.left, k, v);
      AddInChild(t, t.left, k, v, AddBelow(t.left, k, v));
    } else if t.right.Node? && t.right.key <= k {
      AddBelowMeaning(t.right, k, v);
      AddInChild(t, t.right, k, v, AddBelow(t.right, k, v));
    } else {
      AddHereStores(t, k, v);
      if AddHere(t, k, v).Added? {
        AddHereValid(t, k, v);
      }
    }
  }

  /** Replacing the child that contains `k` by what the addition made of it. */
  lemma AddInChild<V>(t: Node<V>, child: Node<V>, k: Key, v: V, r: AddResult<V>)
    requires t.Node? && Valid(t) && t.key <= k
    requires child.Node? && child.key <= k && (child == t.left || child == t.right)
    requires r.Exists? <==> At(child, k).Some?
    requires r.Added? ==> AddedOk(r.trie, child, k, v)
    ensures r.Exists? <==> At(t, k).Some?
    ensures r.Added? && child == t.left ==>
              AddedOk(t.(left := r.trie), t, k, v) && (Valid(t.(left := r.trie)) <==> Valid(r.trie))
    ensures r.Added? && child == t.right ==>
              AddedOk(t.(right := r.trie), t, k, v) && (Valid(t.(right := r.trie)) <==> Valid(r.trie))
  {
    SubtreeKeys(t);
    OtherChild(t, child, k);
    if r.Added? {
      NodeSize(t);
      NodeSize(t.(left := r.trie));
      NodeSize(t.(right := r.trie));
      if t.left.Node? && t.right.Node? {
        ApartExtends(child.key, if child == t.left then t.right.key else t.left.key, r.trie.key);
      }
    }
  }

  /** The sibling of a child that contains `k` does not. */
  lemma OtherChild<V>(t: Node<V>, child: Node<V>, k: Key)
    requires t.Node? && Valid(t)
    requires child.Node? && child.key <= k && (child == t.left || child == t.right)
    ensures t.key != k && !(t.left.Node? && t.right.Node? && t.left.key <= k && t.right.key <= k)
    ensures child == t.left ==> At(t.right, k) == None
    ensures child == t.right ==> At(t.left, k) == None
  {
    SubtreeKeys(t);
    if t.left.Node? && t.right.Node? {
      NoneInBoth(t.left.key, t.right.key, k);
    }
  }

  /**
   Adding to a valid trie stores exactly the new key, or reports that it is there. "Inconsistent" is
   never reported. The result is valid exactly if the key did not go into an empty slot beside a child it contains.
   */
  lemma AddMeaning<V>(t: Node<V>, k: Key, v: V)
    requires Valid(t)
    ensures !Add(t, k, v).Inconsistent?
    ensures Add(t, k, v).Exists? <==> At(t, k).Some?
    ensures Add(t, k, v).Added? ==> Stores(Add(t, k, v).trie, t, k, v) && Size(Add(t, k, v).trie) == Size(t) + 1
    ensures Add(t, k, v).Added? ==> (Valid(Add(t, k, v).trie) <==> !Crowds(t, k))
  {
    if t.Nil? || !(t.key <= k) {
      AddToRootMeaning(t, k, v);
    } else {
      AddBelowMeaning(t, k, v);
    }
  }

  // ------------------------------------------- exactly when lookup survives an addition

  /** The new key hides its sibling, or a black sibling hides the new key: the left child answers first. */
  predicate ShadowsHere<V>(t: Node<V>, k: Key)
    requires t.Node?
  {
    && t.key != k
    && (|| (t.left.Nil? && t.right.Node? && k <= t.right.key)
        || (t.right.Nil? && t.left.Node? && k <= t.left.key && t.left.value.None?))
  }

  predicate ShadowsBelow<V>(t: Node<V>, k: Key)
    requires t.Node?
  {
    if t.left.Node? && t.left.key <= k then ShadowsBelow(t.left, k)
    else if t.right.Node? && t.right.key <= k then ShadowsBelow(t.right, k)
    else ShadowsHere(t, k)
  }

  predicate Shadows<V>(root: Node<V>, k: Key) {
    root.Node? && root.key <= k && ShadowsBelow(root, k)
  }

  lemma AddBelowKeysInside<V>(t: Node<V>, k: Key, v: V)
    requires t.Node? && Valid(t) && t.key <= k && AddBelow(t, k, v).Added?
    ensures KeysInside(AddBelow(t, k, v).trie)
  {
    var t' := AddBelow(t, k, v).trie;
    AddBelowMeaning(t, k, v);
    ValidKeysInside(t);
    if t'.key != t.key {
      AddHereValid(t, k, v);
      ValidKeysInside(t');
    }
  }

  lemma {:induction false} UnshadowedSought<V>(t: Node<V>, k: Key, v: V, q: Key, last: Option<(Key, V)>)
    requires t.Node? && Valid(t) && t.key <= k
    requires AddBelow(t, k, v).Added? && !ShadowsBelow(t, k)
    ensures Sought(AddBelow(t, k, v).trie, q, last, Seek(AddBelow(t, k, v).trie, q, last))
  {
    AddBelowMeaning(t, k, v);
    AddBelowKeysInside(t, k, v);
    var t' := AddBelow(t, k, v).trie;
    if !CrowdsBelow(t, k) {
      SeekFindsLongest(t', q, last);
    } else if !(t'.key <= q) {
      NothingSought(t', q, last);
    } else if t.left.Node? && t.left.key <= k {
      UnshadowedSought(t.left, k, v, q, BestHere(t, last));
      SeekFindsLongest(t.right, q, BestHere(t, last));
      ReplacedChild(t, t.left, k, v);
      SoughtFromChildren(t', q, last);
    } else if t.right.Node? && t.right.key <= k {
      UnshadowedSought(t.right, k, v, q, BestHere(t, last));
      SeekFindsLongest(t.left, q, BestHere(t, last));
      ReplacedChild(t, t.right, k, v);
      SoughtFromChildren(t', q, last);
    } else {
      CrowdedRightSought(t, k, v, q, last);
    }
  }

  lemma ReplacedChild<V>(t: Node<V>, child: Node<V>, k: Key, v: V)
    requires t.Node? && Valid(t) && t.key <= k
    requires child.Node? && child.key <= k && (child == t.left || child == t.right)
    requires AddBelow(child, k, v).Added?
    ensures var c := AddBelow(child, k, v).trie;
            && KeysInside(c) && KeysInside(t.left) && KeysInside(t.right)
            && c.Node? && t.key < c.key
            && (child == t.left && t.right.Node? ==> Apart(c.key, t.right.key))
            && (child == t.right && t.left.Node? ==> Apart(t.left.key, c.key))
  {
    ValidKeysInside(t.left);
    ValidKeysInside(t.right);
    AddBelowKeysInside(child, k, v);
    AddBelowMeaning(child, k, v);
    if t.left.Node? && t.right.Node? {
      ApartExtends(child.key, if child == t.left then t.right.key else t.left.key, AddBelow(child, k, v).trie.key);
    }
  }

  /** A white left child answers for everything it contains, and its answer is longer than the new key. */
  lemma CrowdedRightSought<V>(t: Node<V>, k: Key, v: V, q: Key, last: Option<(Key, V)>)
    requires Deepest(t, k) && t.key != k && t.key <= q
    requires t.right.Nil? && t.left.Node? && k <= t.left.key && t.left.value.Some?
    ensures Sought(t.(right := Leaf(k, v)), q, last, Seek(t.(right := Leaf(k, v)), q, last))
  {
    var t', best := t.(right := Leaf(k, v)), BestHere(t, last);
    LeafAt(k, v);
    ValidKeysInside(t.left);
    SubtreeKeys(t);
    DeepestAt(t, k);
    if t.left.key <= q {
      SeekFindsLongest(t.left, q, best);
      assert At(t.left, t.left.key).Some?;
      assert Seek(t', q, last) == Seek(t.left, q, best);
      LeftAnswers(t', q, Seek(t.left, q, best), k);
    } else {
      SeekFindsLongest(Leaf(k, v), q, best);
      SoughtNode(t', q, last, Seek(t', q, last), t'.right, t.left);
    }
  }

  lemma LeftAnswers<V>(t': Node<V>, q: Key, r: Option<(Key, V)>, k: Key)
    requires t'.Node? && t'.left.Node? && t'.left.key <= q && r.Some? && IsLongest(t'.left, q, r)
    requires At(t'.left, t'.left.key).Some?
    requires t'.key < t'.left.key && k <= t'.left.key
    requires forall j :: At(t'.left, j).Some? ==> t'.key < j
    requires forall j :: At(t'.right, j).Some? ==> j == k
    ensures IsLongest(t', q, r)
  {
    var (w, x) := r.value;
    assert |t'.left.key| <= |w|;
    assert At(t', w) == Some(x);
  }

  lemma {:induction false} SomeKey<V>(t: Node<V>) returns (w: Key)
    requires t.Node? && Valid(t)
    ensures At(t, w).Some? && t.key <= w
  {
    if t.value.Some? {
      w := t.key;
    } else {
      w := SomeKey(t.left);
    }
  }

  /** `q` is a query whose answer `r` in `t` is shorter than a stored key that contains it. */
  ghost predicate Misses<V>(t: Node<V>, q: Key, r: Option<(Key, V)>) {
    exists w :: At(t, w).Some? && w <= q && (r.Some? ==> |r.value.0| < |w|)
  }

  lemma {:induction false} ShadowedBelow<V>(t: Node<V>, k: Key, v: V, last: Option<(Key, V)>) returns (q: Key)
    requires t.Node? && Valid(t) && t.key <= k && ShadowsBelow(t, k)
    requires AddBelow(t, k, v).Added?
    requires last.Some? ==> |last.value.0| < |k|
    ensures k <= q && Misses(AddBelow(t, k, v).trie, q, Seek(AddBelow(t, k, v).trie, q, last))
  {
    var t', best := AddBelow(t, k, v).trie, BestHere(t, last);
    if t.left.Node? && t.left.key <= k {
      q := ShadowedBelow(t.left, k, v, best);
      AddBelowMeaning(t.left, k, v);
      assert Seek(t', q, last) == Seek(t'.left, q, best);
      MissesAbove(t', t'.left, q, Seek(t', q, last));
    } else if t.right.Node? && t.right.key <= k {
      q := ShadowedBelow(t.right, k, v, best);
      AddBelowMeaning(t.right, k, v);
      if t.left.Node? {
        NoneInBoth(t.left.key, t.right.key, q);
      }
      assert Seek(t', q, last) == Seek(t'.right, q, best);
      MissesAbove(t', t'.right, q, Seek(t', q, last));
    } else {
      q := ShadowedHere(t, k, v, last);
    }
  }

  lemma MissesAbove<V>(t: Node<V>, child: Node<V>, q: Key, r: Option<(Key, V)>)
    requires t.Node? && (child == t.left || child == t.right) && Misses(child, q, r)
    ensures Misses(t, q, r)
  {
    var w :| At(child, w).Some? && w <= q && (r.Some? ==> |r.value.0| < |w|);
    assert At(t, w).Some?;
  }

  lemma ShadowedHere<V>(t: Node<V>, k: Key, v: V, last: Option<(Key, V)>) returns (q: Key)
    requires Deepest(t, k) && ShadowsHere(t, k)
    requires last.Some? ==> |last.value.0| < |k|
    ensures AddHere(t, k, v).Added?
    ensures k <= q && Misses(AddHere(t, k, v).trie, q, Seek(AddHere(t, k, v).trie, q, last))
  {
    var t', best, leaf := AddHere(t, k, v).trie, BestHere(t, last), Leaf(k, v);
    LeafAt(k, v);
    if t.left.Nil? {
      q := SomeKey(t.right);
      assert Seek(t', q, last) == Seek(leaf, q, best) == Some((k, v)) by {
        assert Seek<V>(Nil, q, Some((k, v))) == Some((k, v));
      }
      assert At(t', q).Some?;
    } else {
      q := t.left.key;
      assert Valid(t.left);
      assert Seek(t.left.right, q, best) == best;
      assert Seek(t', q, last) == Seek(t.left, q, best) == best;
      assert At(t', k).Some?;
    }
  }

  /**
   Exactly when a single addition keeps lookups right: every query gets the longest stored
   key that contains it if and only if the key did not shadow or get shadowed in its slot.
   */
  lemma LookupAfterAddIff<V(!new)>(t: Node<V>, k: Key, v: V)
    requires Valid(t) && Add(t, k, v).Added?
    ensures (forall q :: IsLongest(Add(t, k, v).trie, q, Get(Add(t, k, v).trie, q))) <==> !Shadows(t, k)
  {
    var t' := Add(t, k, v).trie;
    AddMeaning(t, k, v);
    if Shadows(t, k) {
      var q := ShadowedBelow(t, k, v, None);
      assert !IsLongest(t', q, Get(t', q));
    } else {
      forall q ensures IsLongest(t', q, Get(t', q)) {
        if t.Node? && t.key <= k {
          UnshadowedSought(t, k, v, q, None);
        } else {
          LookupIsLongestPrefixMatch(t', q);
        }
      }
    }
  }

  // ------------------------------------------------------------------- removal

  /** `pruning` says that a slot was just emptied, so a black parent has to go too. */
  datatype RmResult<V> = Removed(trie: Node<V>, pruning: bool) | Missing | NoWhite

  /** The node leaves; at most one of its children takes its place, or a black copy keeps both together. */
  function RmNode<V>(t: Node<V>): RmResult<V>
    requires t.Node?
  {
    if t.left.Node? && t.right.Node? then Removed(t.(value := None), false)
    else if t.left.Node? then Removed(t.left, false)
    else Removed(t.right, t.right.Nil?)
  }

  /** After a child was replaced: a black node that lost a child leaves as well. */
  function Prune<V>(t: Node<V>, pruning: bool): RmResult<V>
    requires t.Node?
  {
    if !pruning || t.value.Some? then Removed(t, false)
    else if t.left.Node? then Removed(t.left, false)
    else Removed(t.right, t.right.Nil?)
  }

  /** Follows the lookup path; the deepest white node on it is the only candidate. */
  function RmBelow<V>(t: Node<V>, k: Key): RmResult<V>
    requires t.Node?
  {
    var inLeft := t.left.Node? && t.left.key <= k;
    var inRight := !inLeft && t.right.Node? && t.right.key <= k;
    var r := if inLeft then RmBelow(t.left, k) else if inRight then RmBelow(t.right, k) else NoWhite;
    match r
    case Removed(child, pruning) => Prune(if inLeft then t.(left := child) else t.(right := child), pruning)
    case Missing => Missing
    case NoWhite => if t.value.None? then NoWhite else if t.key == k then RmNode(t) else Missing
  }

  /** None stands for ESRCH. */
  function Rm<V>(root: Node<V>, k: Key): Option<Node<V>> {
    if root.Nil? || !(root.key <= k) then None
    else
      var r := RmBelow(root, k);
      if r.Removed? then Some(r.trie) else None
  }

  /** `t'` is `t` without `k`, still valid, and where `t` was. */
  ghost predicate RemovedOk<V>(t': Node<V>, t: Node<V>, k: Key) {
    && t.Node? && Valid(t')
    && (t'.Node? ==> t.key <= t'.key)
    && (forall j :: At(t', j) == if j == k then None else At(t, j))
    && Size(t') + 1 == Size(t)
  }

  lemma RmNodeMeaning<V>(t: Node<V>)
    requires t.Node? && Valid(t) && t.value.Some?
    ensures RemovedOk(RmNode(t).trie, t, t.key) && RmNode(t).pruning == RmNode(t).trie.Nil?
  {
    SubtreeKeys(t);
    NodeSize(t);
    NodeSize(t.(value := None));
  }

  lemma PruneMeaning<V>(t: Node<V>, child: Node<V>, c: Node<V>, k: Key)
    requires t.Node? && Valid(t) && child.Node? && child.key <= k
    requires child == t.left || child == t.right
    requires RemovedOk(c, child, k)
    ensures var t' := if child == t.left then t.(left := c) else t.(right := c);
            var r := Prune(t', c.Nil?);
            RemovedOk(r.trie, t, k) && r.pruning == r.trie.Nil?
  {
    SubtreeKeys(t);
    OtherChild(t, child, k);
    var t' := if child == t.left then t.(left := c) else t.(right := c);
    NodeSize(t);
    NodeSize(t');
    if c.Node? && t.left.Node? && t.right.Node? {
      ApartExtends(child.key, if child == t.left then t.right.key else t.left.key, c.key);
    }
    assert forall j :: At(t', j) == if j == k then None else At(t, j);
    if c.Node? || t.value.Some? {
      assert Fits(t'.key, t'.value.Some?, t'.left, t'.right);
    } else {
      assert forall j :: At(c, j) == None;
    }
  }

  lemma {:induction false} RmBelowMeaning<V>(t: Node<V>, k: Key)
    requires t.Node? && Valid(t) && t.key <= k
    ensures RmBelow(t, k).Removed? <==> At(t, k).Some?
    ensures RmBelow(t, k).Removed? ==>
              RemovedOk(RmBelow(t, k).trie, t, k) && RmBelow(t, k).pruning == RmBelow(t, k).trie.Nil?
  {
    SubtreeKeys(t);
    if t.left.Node? && t.left.key <= k {
      RmBelowMeaning(t.left, k);
      OtherChild(t, t.left, k);
      if At(t.left, k).Some? {
        PruneMeaning(t, t.left, RmBelow(t.left, k).trie, k);
      }
    } else if t.right.Node? && t.right.key <= k {
      RmBelowMeaning(t.right, k);
      OtherChild(t, t.right, k);
      if At(t.right, k).Some? {
        PruneMeaning(t, t.right, RmBelow(t.right, k).trie, k);
      }
    } else if t.key == k && t.value.Some? {
      RmNodeMeaning(t);
    } else {
      DeepestAt(t, k);
    }
  }

  /** Removing from a valid trie takes out exactly the key, or reports that it is not there. */
  lemma RmMeaning<V>(t: Node<V>, k: Key)
    requires Valid(t)
    ensures Rm(t, k).Some? <==> At(t, k).Some?
    ensures Rm(t, k).Some? ==> RemovedOk(Rm(t, k).value, t, k)
  {
    ValidKeysInside(t);
    if t.Node? && t.key <= k {
      RmBelowMeaning(t, k);
    }
  }

  // ---------------------------------------------------------------------- runs

  datatype Op<V> = AddOp(key: Key, value: V) | RmOp(key: Key)

  function Apply<V>(t: Node<V>, op: Op<V>): Node<V> {
    match op
    case AddOp(k, v) => (var r := Add(t, k, v); if r.Added? then r.trie else t)
    case RmOp(k) => (var r := Rm(t, k); if r.Some? then r.value else t)
  }

  function Run<V>(t: Node<V>, ops: seq<Op<V>>): Node<V>
    decreases |ops|
  {
    if ops == [] then t else Run(Apply(t, ops[0]), ops[1..])
  }

  /** No addition of the run crowds a slot at the moment it happens. */
  predicate Uncrowded<V>(t: Node<V>, ops: seq<Op<V>>)
    decreases |ops|
  {
    ops != [] ==> (ops[0].AddOp? ==> !Crowds(t, ops[0].key)) && Uncrowded(Apply(t, ops[0]), ops[1..])
  }

  /** The reference: a finite map, where adding a key that is there changes nothing. */
  function ApplyToMap<V>(m: map<Key, V>, op: Op<V>): map<Key, V> {
    match op
    case AddOp(k, v) => if k in m then m else m[k := v]
    case RmOp(k) => m - {k}
  }

  function RunOnMap<V>(m: map<Key, V>, ops: seq<Op<V>>): map<Key, V>
    decreases |ops|
  {
    if ops == [] then m else RunOnMap(ApplyToMap(m, ops[0]), ops[1..])
  }

  ghost predicate Agrees<V>(t: Node<V>, m: map<Key, V>) {
    forall k :: At(t, k) == if k in m then Some(m[k]) else None
  }

  /** The linear scan over a map. */
  ghost predicate LongestIn<V>(m: map<Key, V>, q: Key, r: Option<(Key, V)>) {
    match r
    case None => forall k :: k in m ==> !(k <= q)
    case Some((k, v)) => k in m && m[k] == v && k <= q && forall j :: j in m && j <= q ==> |j| <= |k|
  }

  /** The trie is valid and holds what the map holds. */
  ghost predicate Refines<V>(t: Node<V>, m: map<Key, V>) {
    Valid(t) && Agrees(t, m) && Size(t) == |m|
  }

  lemma AddRefinesMap<V>(t: Node<V>, m: map<Key, V>, k: Key, v: V)
    requires Refines(t, m) && !Crowds(t, k)
    ensures Refines(Apply(t, AddOp(k, v)), ApplyToMap(m, AddOp(k, v)))
  {
    AddMeaning(t, k, v);
  }

  lemma RmRefinesMap<V>(t: Node<V>, m: map<Key, V>, k: Key)
    requires Refines(t, m)
    ensures Refines(Apply(t, RmOp(k)), ApplyToMap(m, RmOp(k)))
  {
    RmMeaning(t, k);
    if k in m {
      assert |m| == |m - {k}| + 1 by {
        assert m.Keys == (m - {k}).Keys + {k};
      }
    } else {
      assert m - {k} == m;
    }
  }

  lemma StepRefinesMap<V>(t: Node<V>, m: map<Key, V>, op: Op<V>)
    requires Refines(t, m)
    requires op.AddOp? ==> !Crowds(t, op.key)
    ensures Refines(Apply(t, op), ApplyToMap(m, op))
  {
    match op
    case AddOp(k, v) => AddRefinesMap(t, m, k, v);
    case RmOp(k) => RmRefinesMap(t, m, k);
  }

  lemma {:induction false} RunRefinesMap<V>(t: Node<V>, m: map<Key, V>, ops: seq<Op<V>>)
    requires Refines(t, m) && Uncrowded(t, ops)
    ensures Refines(Run(t, ops), RunOnMap(m, ops))
    decreases |ops|
  {
    if ops == [] {
    } else {
      StepRefinesMap(t, m, ops[0]);
      RunRefinesMap(Apply(t, ops[0]), ApplyToMap(m, ops[0]), ops[1..]);
    }
  }

  /** After any sequence of additions and removals, none crowding, lookup is a linear scan for the longest match. */
  lemma LookupAfterRun<V>(ops: seq<Op<V>>, q: Key)
    requires Uncrowded(Nil, ops)
    ensures LongestIn(RunOnMap(map[], ops), q, Get(Run(Nil, ops), q))
  {
    var t, m := Run<V>(Nil, ops), RunOnMap<V>(map[], ops);
    assert Refines<V>(Nil, map[]);
    RunRefinesMap<V>(Nil, map[], ops);
    LookupIsLongestPrefixMatch(t, q);
    var r := Get(t, q);
    if r.None? {
      assert forall k :: k in m ==> At(t, k).Some?;
    } else {
      assert forall j :: j in m ==> At(t, j).Some?;
    }
  }

  /** No stored key contains another. */
  ghost predicate AllApart<V>(t: Node<V>) {
    forall i, j :: At(t, i).Some? && At(t, j).Some? && i != j ==> Apart(i, j)
  }

  /** A key that lies apart from all stored ones never crowds. */
  lemma {:induction false} ApartNeverCrowds<V>(t: Node<V>, k: Key)
    requires Valid(t)
    requires forall j :: At(t, j).Some? ==> Apart(j, k)
    ensures !Crowds(t, k)
  {
    if t.Node? && t.key <= k {
      ApartNeverCrowdsBelow(t, k);
    }
  }

  lemma {:induction false} ApartNeverCrowdsBelow<V>(t: Node<V>, k: Key)
    requires t.Node? && Valid(t) && t.key <= k
    requires forall j :: At(t, j).Some? ==> Apart(j, k)
    ensures !CrowdsBelow(t, k)
  {
    if t.left.Node? && t.left.key <= k {
      assert forall j :: At(t.left, j).Some? ==> At(t, j).Some?;
      ApartNeverCrowdsBelow(t.left, k);
    } else if t.right.Node? && t.right.key <= k {
      assert forall j :: At(t.right, j).Some? ==> At(t, j).Some?;
      ApartNeverCrowdsBelow(t.right, k);
    } else {
      assert At(t, t.key).None?;
    }
  }

  /** Removing a key that has just crowded its way in restores the trie as it was. */
  lemma {:induction false} RmUndoesCrowding<V>(t: Node<V>, k: Key, v: V)
    requires t.Node? && Valid(t) && t.key <= k && CrowdsBelow(t, k)
    ensures AddBelow(t, k, v).Added? && AddBelow(t, k, v).trie.Node? && AddBelow(t, k, v).trie.key == t.key
    ensures RmBelow(AddBelow(t, k, v).trie, k) == Removed(t, false)
  {
    if t.left.Node? && t.left.key <= k {
      RmUndoesCrowding(t.left, k, v);
    } else if t.right.Node? && t.right.key <= k {
      RmUndoesCrowding(t.right, k, v);
    } else {
      assert RmBelow(Leaf(k, v), k) == Removed(Nil, true);
    }
  }

  /** Removing a key that has just been added restores what was stored, crowded or not. */
  lemma RmUndoesAdd<V>(t: Node<V>, k: Key, v: V)
    requires Valid(t) && Add(t, k, v).Added?
    ensures var r := Rm(Add(t, k, v).trie, k);
            r.Some? && Valid(r.value) && Size(r.value) == Size(t) && forall j :: At(r.value, j) == At(t, j)
  {
    hide At, Valid, Size, AddBelow, RmBelow, CrowdsBelow;
    AddMeaning(t, k, v);
    if Crowds(t, k) {
      RmUndoesCrowding(t, k, v);
    } else {
      RmMeaning(Add(t, k, v).trie, k);
    }
  }

  // ------------------------------------------------------------------ examples

  /** Five additions after which 1110 is stored, yet looking it up gives 11. */
  lemma ShadowExample()
    ensures var k0, k1110, k1, k11 := [false], [true, true, true, false], [true], [true, true];
            var t := Run(Nil, [AddOp([], 1), AddOp(k0, 2), AddOp(k1110, 3), AddOp(k1, 4), AddOp(k11, 5)]);
            At(t, k1110) == Some(3) && Get(t, k1110) == Some((k11, 5))
  {
    var k0, k1110, k1, k11 := [false], [true, true, true, false], [true], [true, true];
    var t1 := Node([], Some(1), Leaf(k0, 2), Leaf(k1110, 3));
    assert Run(Nil, [AddOp([], 1), AddOp(k0, 2), AddOp(k1110, 3), AddOp(k1, 4), AddOp(k11, 5)])
        == Run(t1, [AddOp(k1, 4), AddOp(k11, 5)]) by {
      RunCons(Nil, AddOp([], 1), [AddOp(k0, 2), AddOp(k1110, 3), AddOp(k1, 4), AddOp(k11, 5)]);
      RunCons(Leaf([], 1), AddOp(k0, 2), [AddOp(k1110, 3), AddOp(k1, 4), AddOp(k11, 5)]);
      RunCons(Node([], Some(1), Leaf(k0, 2), Nil), AddOp(k1110, 3), [AddOp(k1, 4), AddOp(k11, 5)]);
    }
    var t2 := Node([], Some(1), Leaf(k0, 2), Node(k1, Some(4), Nil, Leaf(k1110, 3)));
    var t3 := Node([], Some(1), Leaf(k0, 2), Node(k1, Some(4), Leaf(k11, 5), Leaf(k1110, 3)));
    RunCons(t1, AddOp(k1, 4), [AddOp(k11, 5)]);
    RunCons(t2, AddOp(k11, 5), []);
    assert !(k0 <= k1) && !(k0 <= k11) && !(k0 <= k1110) && !(k1110 <= k1) && !(k1110 <= k11);
    assert Apply(t1, AddOp(k1, 4)) == t2;
    assert AddBelow(t2.right, k11, 5) == Added(t3.right);
    assert Apply(t2, AddOp(k11, 5)) == t3;
    assert Seek(Leaf(k11, 5), k1110, Some((k1, 4))) == Some((k11, 5)) by {
      assert Seek<int>(Nil, k1110, Some((k11, 5))) == Some((k11, 5));
    }
    assert Seek(t3.right, k1110, Some(([], 1))) == Some((k11, 5));
    assert Get(t3, k1110) == Seek(t3.right, k1110, Some(([], 1)));
    LeafAt(k0, 2);
    LeafAt(k1110, 3);
    LeafAt(k11, 5);
    assert At(t3.right, k1110) == Some(3);
  }

  lemma RunCons<V>(t: Node<V>, op: Op<V>, ops: seq<Op<V>>)
    ensures Run(t, [op] + ops) == Run(Apply(t, op), ops)
  {
    assert ([op] + ops)[0] == op && ([op] + ops)[1..] == ops;
  }

  lemma CrowdRight(rest: seq<Op<int>>)
    ensures var k00, k000 := [false, false], [false, false, false];
            Run(Nil, [AddOp([], 1), AddOp(k000, 2), AddOp(k00, 3)] + rest)
            == Run(Node([], Some(1), Leaf(k000, 2), Leaf(k00, 3)), rest)
  {
    var k00, k000 := [false, false], [false, false, false];
    var t1 := Node([], Some(1), Leaf(k000, 2), Nil);
    assert !(k000 <= k00);
    RunCons(Nil, AddOp([], 1), [AddOp(k000, 2), AddOp(k00, 3)] + rest);
    RunCons(Leaf([], 1), AddOp(k000, 2), [AddOp(k00, 3)] + rest);
    RunCons(t1, AddOp(k00, 3), rest);
    assert [AddOp([], 1), AddOp(k000, 2), AddOp(k00, 3)] + rest
        == [AddOp([], 1)] + ([AddOp(k000, 2), AddOp(k00, 3)] + rest);
    assert [AddOp(k000, 2), AddOp(k00, 3)] + rest == [AddOp(k000, 2)] + ([AddOp(k00, 3)] + rest);
  }

  /**
   Crowding the right slot is not safe either: 00 goes in beside 000, which lies inside it, and once 000 has
   been removed from between its own children, looking 000 up no longer finds 00.
   */
  lemma CrowdedRightExample()
    ensures var k00, k000, k0000, k0001 :=
              [false, false], [false, false, false], [false, false, false, false], [false, false, false, true];
            var t := Run(Nil, [AddOp([], 1), AddOp(k000, 2), AddOp(k00, 3), AddOp(k0000, 4), AddOp(k0001, 5), RmOp(k000)]);
            At(t, k00) == Some(3) && k00 <= k000 && Get(t, k000) == Some(([], 1))
  {
    var k00, k000, k0000, k0001 :=
      [false, false], [false, false, false], [false, false, false, false], [false, false, false, true];
    var inner := Node(k000, Some(2), Leaf(k0000, 4), Leaf(k0001, 5));
    var t2 := Node([], Some(1), Leaf(k000, 2), Leaf(k00, 3));
    var t3 := Node([], Some(1), Node(k000, Some(2), Leaf(k0000, 4), Nil), Leaf(k00, 3));
    var t4 := Node([], Some(1), inner, Leaf(k00, 3));
    var t5 := Node([], Some(1), inner.(value := None), Leaf(k00, 3));
    var rest := [AddOp(k0000, 4), AddOp(k0001, 5), RmOp(k000)];
    assert [AddOp([], 1), AddOp(k000, 2), AddOp(k00, 3)] + rest
        == [AddOp([], 1), AddOp(k000, 2), AddOp(k00, 3), AddOp(k0000, 4), AddOp(k0001, 5), RmOp(k000)];
    CrowdRight(rest);
    RunCons(t2, AddOp(k0000, 4), [AddOp(k0001, 5), RmOp(k000)]);
    RunCons(t3, AddOp(k0001, 5), [RmOp(k000)]);
    RunCons(t4, RmOp(k000), []);
    assert !(k000 <= k00) && !(k0000 <= k0001) && !(k0000 <= k000) && !(k0001 <= k000);
    assert Apply(t2, AddOp(k0000, 4)) == t3 by { assert AddBelow(t2.left, k0000, 4) == Added(t3.left); }
    assert Apply(t3, AddOp(k0001, 5)) == t4 by { assert AddBelow(t3.left, k0001, 5) == Added(t4.left); }
    assert Apply(t4, RmOp(k000)) == t5 by { assert RmBelow(t4.left, k000) == Removed(t5.left, false); }
    assert Get(t5, k000) == Seek(t5.left, k000, Some(([], 1))) == Some(([], 1)) by {
      assert Seek(t5.left.right, k000, Some(([], 1))) == Some(([], 1));
    }
    LeafAt(k00, 3);
    LeafAt(k0000, 4);
    LeafAt(k0001, 5);
    InodeAt(k000, Leaf(k0000, 4), Leaf(k0001, 5));
  }

  // ---------------------------------------------------------------- keys as bytes

  function GetBit(byte: bv8, pos: nat): bool
    requires pos < 8
  {
    (byte >> (7 - pos)) & 1 == 1
  }

  function Bit(bytes: seq<bv8>, i: nat): bool
    requires i < 8 * |bytes|
  {
    GetBit(bytes[i / 8], i % 8)
  }

  lemma SomeBitDiffers(a: bv8, b: bv8)
    requires a != b
    ensures exists i: nat :: i < 8 && GetBit(a, i) != GetBit(b, i)
  {
    assert || GetBit(a, 0) != GetBit(b, 0) || GetBit(a, 1) != GetBit(b, 1) || GetBit(a, 2) != GetBit(b, 2)
           || GetBit(a, 3) != GetBit(b, 3) || GetBit(a, 4) != GetBit(b, 4) || GetBit(a, 5) != GetBit(b, 5)
           || GetBit(a, 6) != GetBit(b, 6) || GetBit(a, 7) != GetBit(b, 7);
  }

  lemma ByteOf(k: nat, y: nat, i: nat)
    requires k <= 8 * y + i && i <= 8
    ensures k / 8 < y || (k / 8 == y && k % 8 <= i) || (i == 8 && k == 8 * y + 8)
    ensures k < 8 * y + i ==> k / 8 < y || (k / 8 == y && k % 8 < i)
    ensures i < 8 && k == 8 * y + i ==> k / 8 == y && k % 8 == i
  {
  }

  /** __key_match: whole bytes first, then the bits of the byte where they stopped agreeing. */
  method KeyMatch(key1: seq<bv8>, key2: seq<bv8>, bits: nat) returns (result: nat)
    requires bits <= 8 * |key1| && bits <= 8 * |key2|
    ensures result <= bits
    ensures forall i :: 0 <= i < result ==> Bit(key1, i) == Bit(key2, i)
    ensures result < bits ==> Bit(key1, result) != Bit(key2, result)
  {
    var bytes, rest := bits / 8, bits % 8;
    var y := 0;
    while y < bytes && key1[y] == key2[y]
      invariant 0 <= y <= bytes
      invariant forall k :: 0 <= k < y ==> key1[k] == key2[k]
    {
      y := y + 1;
    }
    if y < bytes {
      rest := 8;
    }
    var i := 0;
    while i < rest && GetBit(key1[y], i) == GetBit(key2[y], i)
      invariant 0 <= i <= rest <= 8
      invariant forall k :: 0 <= k < i ==> GetBit(key1[y], k) == GetBit(key2[y], k)
    {
      i := i + 1;
    }
    result := 8 * y + i;
    if y < bytes {
      SomeBitDiffers(key1[y], key2[y]);
    }
    forall k | 0 <= k < result ensures Bit(key1, k) == Bit(key2, k) {
      ByteOf(k, y, i);
    }
    ByteOf(result, y, i);
  }
}
