/**
 The parent-pointer treap that the kernel uses twice: for the run queue
 (kernel/core/process.c, `rq_*`) and for the VM-area index (`area_*`).

 Node addresses are natural numbers, 0 is the null pointer, and the pointer
 fields of all nodes live in one map that the methods reassign, so every store
 of the source is one update of that map and aliasing is visible.  A ghost
 `Tree` says what the pointers denote; a `Path` is a tree with a hole, the place
 a cursor stands at.
 */
module Treaps {
  import opened Lists

  datatype Links = Links(left: Ref, right: Ref, parent: Ref, priority: nat)

  type Memory = map<Ref, Links>

  datatype Tree = Leaf | Node(l: Tree, ref: Ref, r: Tree)

  datatype Path = Top | InLeft(up: Path, ref: Ref, r: Tree) | InRight(l: Tree, ref: Ref, up: Path)

  // ---------------------------------------------------------------------------
  // What a tree is, as a value
  // ---------------------------------------------------------------------------

  ghost function InOrder(t: Tree): seq<Ref> {
    if t.Leaf? then [] else InOrder(t.l) + [t.ref] + InOrder(t.r)
  }

  ghost function Refs(t: Tree): set<Ref> {
    if t.Leaf? then {} else Refs(t.l) + {t.ref} + Refs(t.r)
  }

  ghost predicate Distinct(t: Tree) {
    t.Node? ==>
      && t.ref !in Refs(t.l) && t.ref !in Refs(t.r) && Refs(t.l) !! Refs(t.r)
      && Distinct(t.l) && Distinct(t.r)
  }

  ghost function Size(t: Tree): nat {
    if t.Leaf? then 0 else Size(t.l) + 1 + Size(t.r)
  }

  ghost function Ptr(t: Tree): Ref {
    if t.Leaf? then NULL else t.ref
  }

  ghost function Tip(path: Path): Ref {
    if path.Top? then NULL else path.ref
  }

  ghost function Plug(path: Path, t: Tree): Tree {
    match path
    case Top => t
    case InLeft(up, n, r) => Plug(up, Node(t, n, r))
    case InRight(l, n, up) => Plug(up, Node(l, n, t))
  }

  ghost function PathRefs(path: Path): set<Ref> {
    match path
    case Top => {}
    case InLeft(up, n, r) => PathRefs(up) + {n} + Refs(r)
    case InRight(l, n, up) => PathRefs(up) + {n} + Refs(l)
  }

  ghost predicate PathDistinct(path: Path) {
    match path
    case Top => true
    case InLeft(up, n, r) =>
      n !in Refs(r) && n !in PathRefs(up) && Refs(r) !! PathRefs(up) && Distinct(r) && PathDistinct(up)
    case InRight(l, n, up) =>
      n !in Refs(l) && n !in PathRefs(up) && Refs(l) !! PathRefs(up) && Distinct(l) && PathDistinct(up)
  }

  ghost function Before(path: Path): seq<Ref> {
    match path
    case Top => []
    case InLeft(up, n, r) => Before(up)
    case InRight(l, n, up) => Before(up) + InOrder(l) + [n]
  }

  ghost function After(path: Path): seq<Ref> {
    match path
    case Top => []
    case InLeft(up, n, r) => [n] + InOrder(r) + After(up)
    case InRight(l, n, up) => After(up)
  }

  // ---------------------------------------------------------------------------
  // What the pointers denote
  // ---------------------------------------------------------------------------

  ghost predicate Shape(m: Memory, t: Tree, up: Ref) {
    t.Node? ==>
      && t.ref != NULL && t.ref in m
      && m[t.ref].left == Ptr(t.l) && m[t.ref].right == Ptr(t.r) && m[t.ref].parent == up
      && Shape(m, t.l, t.ref) && Shape(m, t.r, t.ref)
  }

  ghost predicate PathShape(m: Memory, path: Path, root: Ref, hole: Ref) {
    match path
    case Top => root == hole
    case InLeft(up, n, r) =>
      && n != NULL && n in m
      && m[n].left == hole && m[n].right == Ptr(r) && m[n].parent == Tip(up)
      && Shape(m, r, n) && PathShape(m, up, root, n)
    case InRight(l, n, up) =>
      && n != NULL && n in m
      && m[n].left == Ptr(l) && m[n].right == hole && m[n].parent == Tip(up)
      && Shape(m, l, n) && PathShape(m, up, root, n)
  }

  // No node of t hangs above the bound (small priorities are near the root).
  ghost predicate Above(m: Memory, t: Tree, bound: nat) {
    t.Node? ==> t.ref in m && bound <= m[t.ref].priority
  }

  ghost predicate HeapOrdered(m: Memory, t: Tree) {
    t.Node? ==>
      && t.ref in m
      && Above(m, t.l, m[t.ref].priority) && Above(m, t.r, m[t.ref].priority)
      && HeapOrdered(m, t.l) && HeapOrdered(m, t.r)
  }

  ghost function Floor(m: Memory, path: Path): nat {
    if path.Top? || path.ref !in m then 0 else m[path.ref].priority
  }

  ghost predicate PathOrdered(m: Memory, path: Path) {
    match path
    case Top => true
    case InLeft(up, n, r) =>
      n in m && Floor(m, up) <= m[n].priority && Above(m, r, m[n].priority) && HeapOrdered(m, r) && PathOrdered(m, up)
    case InRight(l, n, up) =>
      n in m && Floor(m, up) <= m[n].priority && Above(m, l, m[n].priority) && HeapOrdered(m, l) && PathOrdered(m, up)
  }

  // ---------------------------------------------------------------------------
  // Frames: pointers elsewhere do not matter
  // ---------------------------------------------------------------------------

  ghost predicate Agree(m: Memory, m': Memory, s: set<Ref>) {
    forall r :: r in s && r in m ==> r in m' && m'[r] == m[r]
  }

  ghost predicate SamePriorities(m: Memory, m': Memory, s: set<Ref>) {
    forall r :: r in s && r in m ==> r in m' && m'[r].priority == m[r].priority
  }

  lemma {:induction false} ShapeFrame(m: Memory, m': Memory, t: Tree, up: Ref)
    requires Shape(m, t, up) && Agree(m, m', Refs(t))
    ensures Shape(m', t, up)
  {
    if t.Node? {
      ShapeFrame(m, m', t.l, t.ref);
      ShapeFrame(m, m', t.r, t.ref);
    }
  }

  lemma {:induction false} PathShapeFrame(m: Memory, m': Memory, path: Path, root: Ref, hole: Ref)
    requires PathShape(m, path, root, hole) && Agree(m, m', PathRefs(path))
    ensures PathShape(m', path, root, hole)
  {
    match path
    case Top =>
    case InLeft(up, n, r) =>
      ShapeFrame(m, m', r, n);
      PathShapeFrame(m, m', up, root, n);
    case InRight(l, n, up) =>
      ShapeFrame(m, m', l, n);
      PathShapeFrame(m, m', up, root, n);
  }

  lemma {:induction false} HeapFrame(m: Memory, m': Memory, t: Tree)
    requires HeapOrdered(m, t) && SamePriorities(m, m', Refs(t))
    ensures HeapOrdered(m', t)
  {
    if t.Node? {
      HeapFrame(m, m', t.l);
      HeapFrame(m, m', t.r);
    }
  }

  lemma {:induction false} PathHeapFrame(m: Memory, m': Memory, path: Path)
    requires PathOrdered(m, path) && SamePriorities(m, m', PathRefs(path))
    ensures PathOrdered(m', path) && Floor(m', path) == Floor(m, path)
  {
    match path
    case Top =>
    case InLeft(up, n, r) =>
      HeapFrame(m, m', r);
      PathHeapFrame(m, m', up);
    case InRight(l, n, up) =>
      HeapFrame(m, m', l);
      PathHeapFrame(m, m', up);
  }

  // ---------------------------------------------------------------------------
  // Taking a tree apart at a hole and putting it back
  // ---------------------------------------------------------------------------

  lemma {:induction false} InOrderPlug(path: Path, t: Tree)
    ensures InOrder(Plug(path, t)) == Before(path) + InOrder(t) + After(path)
  {
    match path
    case Top =>
    case InLeft(up, n, r) => InOrderPlug(up, Node(t, n, r));
    case InRight(l, n, up) => InOrderPlug(up, Node(l, n, t));
  }

  lemma {:induction false} RefsPlug(path: Path, t: Tree)
    ensures Refs(Plug(path, t)) == PathRefs(path) + Refs(t)
  {
    match path
    case Top =>
    case InLeft(up, n, r) => RefsPlug(up, Node(t, n, r));
    case InRight(l, n, up) => RefsPlug(up, Node(l, n, t));
  }

  lemma {:induction false} DistinctPlug(path: Path, t: Tree)
    ensures Distinct(Plug(path, t)) <==> Distinct(t) && PathDistinct(path) && Refs(t) !! PathRefs(path)
  {
    match path
    case Top =>
    case InLeft(up, n, r) => DistinctPlug(up, Node(t, n, r));
    case InRight(l, n, up) => DistinctPlug(up, Node(l, n, t));
  }

  lemma {:induction false} ShapePlug(m: Memory, path: Path, t: Tree, root: Ref)
    requires PathShape(m, path, root, Ptr(t)) && Shape(m, t, Tip(path))
    ensures Shape(m, Plug(path, t), NULL) && Ptr(Plug(path, t)) == root
  {
    match path
    case Top =>
    case InLeft(up, n, r) => ShapePlug(m, up, Node(t, n, r), root);
    case InRight(l, n, up) => ShapePlug(m, up, Node(l, n, t), root);
  }

  lemma {:induction false} HeapPlug(m: Memory, path: Path, t: Tree)
    requires PathOrdered(m, path) && HeapOrdered(m, t) && Above(m, t, Floor(m, path))
    ensures HeapOrdered(m, Plug(path, t))
  {
    match path
    case Top =>
    case InLeft(up, n, r) => HeapPlug(m, up, Node(t, n, r));
    case InRight(l, n, up) => HeapPlug(m, up, Node(l, n, t));
  }

  lemma {:induction false} InOrderRefs(t: Tree)
    ensures forall r :: r in InOrder(t) <==> r in Refs(t)
    ensures |InOrder(t)| == Size(t)
  {
    if t.Node? {
      InOrderRefs(t.l);
      InOrderRefs(t.r);
    }
  }

  lemma {:induction false} InOrderDistinct(t: Tree)
    requires Distinct(t)
    ensures NoRepeats(InOrder(t))
  {
    if t.Node? {
      InOrderDistinct(t.l);
      InOrderDistinct(t.r);
      InOrderRefs(t.l);
      InOrderRefs(t.r);
      var a, b := InOrder(t.l), InOrder(t.r);
      var s := InOrder(t);
      forall i, j | 0 <= i < j < |s| ensures s[i] != s[j] {
        assert i < |a| ==> s[i] in a;
        assert j > |a| ==> s[j] == b[j - |a| - 1] && s[j] in b;
        assert i > |a| ==> s[i] == b[i - |a| - 1];
      }
    }
  }

  // The path from the root down to a node of the tree.
  lemma {:induction false} FindPath(m: Memory, root: Ref, path: Path, t: Tree, node: Ref)
    returns (path': Path, a: Tree, b: Tree)
    requires PathShape(m, path, root, Ptr(t)) && Shape(m, t, Tip(path))
    requires PathOrdered(m, path) && HeapOrdered(m, t) && Above(m, t, Floor(m, path))
    requires node in Refs(t)
    ensures Plug(path', Node(a, node, b)) == Plug(path, t)
    ensures PathShape(m, path', root, node) && Shape(m, Node(a, node, b), Tip(path'))
    ensures PathOrdered(m, path') && HeapOrdered(m, Node(a, node, b))
    ensures Above(m, Node(a, node, b), Floor(m, path'))
    decreases t
  {
    if t.ref == node {
      path', a, b := path, t.l, t.r;
    } else if node in Refs(t.l) {
      path', a, b := FindPath(m, root, InLeft(path, t.ref, t.r), t.l, node);
    } else {
      path', a, b := FindPath(m, root, InRight(t.l, t.ref, path), t.r, node);
    }
  }

  // Redirecting the pointer that leads into the hole.
  lemma Redirect(m: Memory, m': Memory, path: Path, root: Ref, root': Ref, old_: Ref, new_: Ref)
    requires PathShape(m, path, root, old_) && PathDistinct(path)
    requires path.Top? ==> root' == new_
    requires !path.Top? ==> root' == root
    requires Agree(m, m', PathRefs(path) - {Tip(path)})
    requires path.InLeft? ==> path.ref in m' && m'[path.ref] == m[path.ref].(left := new_)
    requires path.InRight? ==> path.ref in m' && m'[path.ref] == m[path.ref].(right := new_)
    ensures PathShape(m', path, root', new_)
  {
    match path
    case Top =>
    case InLeft(up, n, r) =>
      ShapeFrame(m, m', r, n);
      PathShapeFrame(m, m', up, root, n);
    case InRight(l, n, up) =>
      ShapeFrame(m, m', l, n);
      PathShapeFrame(m, m', up, root, n);
  }

  // ---------------------------------------------------------------------------
  // The treap object
  // ---------------------------------------------------------------------------

  // Rotating a node above its parent: the tree that replaces the parent's subtree.
  ghost function Rotated(path: Path, a: Tree, node: Ref, b: Tree): Tree
    requires !path.Top?
  {
    match path
    case InLeft(up, p, r) => Node(a, node, Node(b, p, r))
    case InRight(l, p, up) => Node(Node(l, p, a), node, b)
  }

  ghost function Unrotated(path: Path, a: Tree, node: Ref, b: Tree): Tree
    requires !path.Top?
  {
    match path
    case InLeft(up, p, r) => Node(Node(a, node, b), p, r)
    case InRight(l, p, up) => Node(l, p, Node(a, node, b))
  }

  lemma {:induction false} RotatedKeeps(a: Tree, n: Ref, b: Tree, p: Ref, c: Tree)
    ensures InOrder(Node(a, n, Node(b, p, c))) == InOrder(Node(Node(a, n, b), p, c))
    ensures Refs(Node(a, n, Node(b, p, c))) == Refs(Node(Node(a, n, b), p, c))
    ensures Distinct(Node(a, n, Node(b, p, c))) <==> Distinct(Node(Node(a, n, b), p, c))
  {
    var low, high := Node(b, p, c), Node(a, n, b);
    assert InOrder(Node(a, n, low)) == InOrder(a) + [n] + InOrder(b) + [p] + InOrder(c);
    assert InOrder(Node(high, p, c)) == InOrder(a) + [n] + InOrder(b) + [p] + InOrder(c);
  }

  lemma {:induction false} RotatedPlugKeeps(path: Path, a: Tree, node: Ref, b: Tree)
    requires !path.Top?
    ensures InOrder(Plug(path.up, Rotated(path, a, node, b))) == InOrder(Plug(path, Node(a, node, b)))
    ensures Refs(Plug(path.up, Rotated(path, a, node, b))) == Refs(Plug(path, Node(a, node, b)))
    ensures Distinct(Plug(path, Node(a, node, b))) ==> Distinct(Plug(path.up, Rotated(path, a, node, b)))
  {
    var before, after := Unrotated(path, a, node, b), Rotated(path, a, node, b);
    assert Plug(path, Node(a, node, b)) == Plug(path.up, before);
    if path.InLeft? {
      RotatedKeeps(a, node, b, path.ref, path.r);
    } else {
      RotatedKeeps(path.l, path.ref, a, node, b);
    }
    InOrderPlug(path.up, after);
    InOrderPlug(path.up, before);
    RefsPlug(path.up, after);
    RefsPlug(path.up, before);
    DistinctPlug(path.up, after);
    DistinctPlug(path.up, before);
  }

  // The child of node that a rotation hands over to node's parent.
  function Inner(m: Memory, node: Ref): Ref
    requires node in m && m[node].parent in m
  {
    if m[m[node].parent].left == node then m[node].right else m[node].left
  }

  // The four nodes a rotation touches are there and differ.
  ghost predicate CanRotate(m: Memory, node: Ref) {
    && node in m && m[node].parent in m
    && var p := m[node].parent; var g := m[p].parent; var c := Inner(m, node);
    && p != node
    && (c != NULL ==> c in m && c != p && c != node)
    && (g != NULL ==> g in m && g != p && g != node && g != c)
  }

  // A store to one pointer field.
  function SetLeft(m: Memory, at: Ref, to: Ref): (m': Memory)
    requires at in m
    ensures m'.Keys == m.Keys
  {
    m[at := m[at].(left := to)]
  }

  function SetRight(m: Memory, at: Ref, to: Ref): (m': Memory)
    requires at in m
    ensures m'.Keys == m.Keys
  {
    m[at := m[at].(right := to)]
  }

  function SetParent(m: Memory, at: Ref, to: Ref): (m': Memory)
    requires at in m
    ensures m'.Keys == m.Keys
  {
    m[at := m[at].(parent := to)]
  }

  // What a rotation stores: the node, its parent, the inner child and the
  // pointer that led from the grandparent to the parent, and nothing else.
  ghost predicate RotationStores(m: Memory, m': Memory, root: Ref, root': Ref, node: Ref)
    requires CanRotate(m, node)
  {
    var p := m[node].parent; var g := m[p].parent; var c := Inner(m, node);
    && m'.Keys == m.Keys
    && m'[node] == (if m[p].left == node then m[node].(right := p, parent := g) else m[node].(left := p, parent := g))
    && m'[p] == (if m[p].left == node then m[p].(left := c, parent := node) else m[p].(right := c, parent := node))
    && (c != NULL ==> m'[c] == m[c].(parent := p))
    && root' == (if g == NULL then node else root)
    && (g != NULL ==> m'[g] == if m[g].left == p then m[g].(left := node) else m[g].(right := node))
    && (forall r :: r in m && r != node && r != p && (r != c || c == NULL) && (r != g || g == NULL) ==> m'[r] == m[r])
  }

  lemma RotationPriorities(m: Memory, m': Memory, root: Ref, root': Ref, node: Ref)
    requires CanRotate(m, node) && RotationStores(m, m', root, root', node)
    ensures SamePriorities(m, m', m.Keys)
  {
  }

  // The ghost position of a cursor: `tree` is `path` around Node(a, node, b).
  ghost predicate Stands(m: Memory, root: Ref, path: Path, t: Tree) {
    && PathShape(m, path, root, Ptr(t)) && Shape(m, t, Tip(path))
    && PathDistinct(path) && Distinct(t) && Refs(t) !! PathRefs(path)
  }

  lemma {:induction false} NullFree(m: Memory, t: Tree, up: Ref)
    requires Shape(m, t, up)
    ensures NULL !in Refs(t) && Refs(t) <= m.Keys
  {
    if t.Node? {
      NullFree(m, t.l, t.ref);
      NullFree(m, t.r, t.ref);
    }
  }

  lemma {:induction false} PathNullFree(m: Memory, path: Path, root: Ref, hole: Ref)
    requires PathShape(m, path, root, hole)
    ensures NULL !in PathRefs(path) && PathRefs(path) <= m.Keys
  {
    match path
    case Top =>
    case InLeft(up, n, r) =>
      NullFree(m, r, n);
      PathNullFree(m, up, root, n);
    case InRight(l, n, up) =>
      NullFree(m, l, n);
      PathNullFree(m, up, root, n);
  }

  lemma {:induction false} RotationLegal(m: Memory, root: Ref, path: Path, a: Tree, node: Ref, b: Tree)
    requires !path.Top? && Stands(m, root, path, Node(a, node, b))
    ensures CanRotate(m, node)
    ensures m[node].parent == path.ref && m[path.ref].parent == Tip(path.up)
    ensures (m[path.ref].left == node) == path.InLeft?
    ensures Inner(m, node) == Ptr(if path.InLeft? then b else a)
    ensures !path.up.Top? ==> path.up.ref in m && (m[path.up.ref].left == path.ref) == path.up.InLeft?
  {
    assert PathShape(m, path.up, root, path.ref);
    PathNullFree(m, path, root, node);
    NullFree(m, Node(a, node, b), Tip(path));
    if path.InRight? {
      assert Ptr(path.l) == NULL || Ptr(path.l) in Refs(path.l);
    }
    if path.up.InRight? {
      assert Ptr(path.up.l) == NULL || Ptr(path.up.l) in Refs(path.up.l);
    }
  }

  // Hanging a subtree under another node.
  lemma {:induction false} Rehang(m: Memory, m': Memory, t: Tree, up: Ref, up': Ref)
    requires Shape(m, t, up) && Distinct(t)
    requires t.Node? ==> t.ref in m' && m'[t.ref] == m[t.ref].(parent := up')
    requires Agree(m, m', Refs(t) - {Ptr(t)})
    ensures Shape(m', t, up')
  {
    if t.Node? {
      ShapeFrame(m, m', t.l, t.ref);
      ShapeFrame(m, m', t.r, t.ref);
    }
  }

  lemma {:induction false} RotationSubtree(m: Memory, m': Memory, root: Ref, root': Ref, path: Path, a: Tree, node: Ref, b: Tree)
    requires !path.Top? && Stands(m, root, path, Node(a, node, b))
    requires CanRotate(m, node) && RotationStores(m, m', root, root', node)
    ensures Shape(m', Rotated(path, a, node, b), Tip(path.up))
  {
    RotationLegal(m, root, path, a, node, b);
    PathNullFree(m, path, root, node);
    NullFree(m, Node(a, node, b), Tip(path));
    var p, t := path.ref, Node(a, node, b);
    assert Refs(t) == Refs(a) + {node} + Refs(b);
    assert Distinct(a) && Distinct(b);
    if path.InLeft? {
      ShapeFrame(m, m', a, node);
      ShapeFrame(m, m', path.r, p);
      Rehang(m, m', b, node, p);
    } else {
      ShapeFrame(m, m', b, node);
      ShapeFrame(m, m', path.l, p);
      Rehang(m, m', a, node, p);
    }
  }

  lemma {:induction false} RotationShape(m: Memory, m': Memory, root: Ref, root': Ref, path: Path, a: Tree, node: Ref, b: Tree)
    requires !path.Top? && Stands(m, root, path, Node(a, node, b))
    requires CanRotate(m, node) && RotationStores(m, m', root, root', node)
    ensures Stands(m', root', path.up, Rotated(path, a, node, b))
  {
    RotationSubtree(m, m', root, root', path, a, node, b);
    RotationLegal(m, root, path, a, node, b);
    PathNullFree(m, path, root, node);
    if path.InLeft? {
      RotatedKeeps(a, node, b, path.ref, path.r);
    } else {
      RotatedKeeps(path.l, path.ref, a, node, b);
    }
    assert Distinct(Unrotated(path, a, node, b));
    assert PathRefs(path.up) <= PathRefs(path);
    Redirect(m, m', path.up, root, root', path.ref, node);
  }

  // Moving a cursor one step down, or back up.
  lemma {:induction false} StepDown(m: Memory, root: Ref, path: Path, t: Tree)
    requires t.Node?
    ensures Stands(m, root, path, t) <==> Stands(m, root, InLeft(path, t.ref, t.r), t.l)
    ensures Stands(m, root, path, t) <==> Stands(m, root, InRight(t.l, t.ref, path), t.r)
  {
    assert Refs(t) == Refs(t.l) + {t.ref} + Refs(t.r);
  }

  lemma {:induction false} StandsTop(m: Memory, root: Ref, path: Path, t: Tree)
    requires Stands(m, root, path, t)
    ensures Shape(m, Plug(path, t), NULL) && root == Ptr(Plug(path, t)) && Distinct(Plug(path, t))
  {
    ShapePlug(m, path, t, root);
    DistinctPlug(path, t);
  }

  // While a freshly inserted node climbs, only its own edge may be out of order.
  ghost predicate Climbing(m: Memory, path: Path, a: Tree, node: Ref, b: Tree) {
    && node in m && PathOrdered(m, path) && HeapOrdered(m, a) && HeapOrdered(m, b)
    && Above(m, a, Floor(m, path)) && Above(m, b, Floor(m, path))
    && Above(m, a, m[node].priority) && Above(m, b, m[node].priority)
  }

  // While a node to be removed sinks, it alone may be out of order.
  ghost predicate Sinking(m: Memory, path: Path, a: Tree, b: Tree) {
    && PathOrdered(m, path) && HeapOrdered(m, a) && HeapOrdered(m, b)
    && Above(m, a, Floor(m, path)) && Above(m, b, Floor(m, path))
  }

  lemma {:induction false} ClimbOnce(m: Memory, m': Memory, path: Path, a: Tree, node: Ref, b: Tree)
    requires !path.Top? && Climbing(m, path, a, node, b) && m[node].priority < Floor(m, path)
    requires SamePriorities(m, m', m.Keys)
    ensures Climbing(m', path.up, Rotated(path, a, node, b).l, node, Rotated(path, a, node, b).r)
  {
    HeapFrame(m, m', a);
    HeapFrame(m, m', b);
    PathHeapFrame(m, m', path);
    PathHeapFrame(m, m', path.up);
  }

  lemma {:induction false} SinkOnce(m: Memory, m': Memory, path: Path, a: Tree, node: Ref, b: Tree, left: bool)
    requires Sinking(m, path, a, b) && SamePriorities(m, m', m.Keys)
    requires left ==> a.Node? && Above(m, b, m[a.ref].priority)
    requires !left ==> b.Node? && Above(m, a, m[b.ref].priority)
    ensures left ==> Sinking(m', InRight(a.l, a.ref, path), a.r, b)
    ensures !left ==> Sinking(m', InLeft(path, b.ref, b.r), a, b.l)
  {
    HeapFrame(m, m', a);
    HeapFrame(m, m', b);
    PathHeapFrame(m, m', path);
  }

  // goLeft(r): the node being inserted belongs before r.
  ghost predicate Monotone(goLeft: Ref -> bool, s: seq<Ref>) {
    forall i, j :: 0 <= i < j < |s| && goLeft(s[i]) ==> goLeft(s[j])
  }

  // Everything before lo stays left of the key, everything from hi on stays right of it.
  ghost predicate Narrowed(goLeft: Ref -> bool, s: seq<Ref>, lo: int, hi: int) {
    && 0 <= lo <= hi <= |s|
    && (forall i :: 0 <= i < lo ==> !goLeft(s[i]))
    && (forall i :: hi <= i < |s| ==> goLeft(s[i]))
  }

  lemma Narrow(goLeft: Ref -> bool, s: seq<Ref>, lo: int, hi: int, c: int)
    requires Monotone(goLeft, s) && Narrowed(goLeft, s, lo, hi) && lo <= c < hi
    ensures goLeft(s[c]) ==> Narrowed(goLeft, s, lo, c)
    ensures !goLeft(s[c]) ==> Narrowed(goLeft, s, c + 1, hi)
  {
  }

  lemma {:induction false} PlantOrder(path: Path, node: Ref)
    ensures InOrder(Plug(path, Leaf)) == Before(path) + After(path)
    ensures InOrder(Plug(path, Node(Leaf, node, Leaf))) == Before(path) + [node] + After(path)
    ensures Refs(Plug(path, Leaf)) == PathRefs(path)
    ensures Refs(Plug(path, Node(Leaf, node, Leaf))) == PathRefs(path) + {node}
  {
    InOrderPlug(path, Leaf);
    InOrderPlug(path, Node(Leaf, node, Leaf));
    RefsPlug(path, Leaf);
    RefsPlug(path, Node(Leaf, node, Leaf));
    assert InOrder(Node(Leaf, node, Leaf)) == [node];
    assert Refs(Node(Leaf, node, Leaf)) == {node};
  }

  // What the pointers around a cursor look like, without unfolding the tree.
  lemma {:induction false} Around(m: Memory, root: Ref, path: Path, t: Tree)
    requires Stands(m, root, path, t)
    ensures t.Leaf? <==> Ptr(t) == NULL
    ensures path.Top? <==> Tip(path) == NULL
    ensures t.Node? ==> t.ref in m && m[t.ref] == Links(Ptr(t.l), Ptr(t.r), Tip(path), m[t.ref].priority)
    ensures !path.Top? ==> path.ref in m && path.ref !in Refs(t) && m[path.ref].parent == Tip(path.up)
    ensures path.Top? ==> root == Ptr(t)
    ensures path.InLeft? ==> m[path.ref].left == Ptr(t) && (t.Node? ==> m[path.ref].right != t.ref)
    ensures path.InRight? ==> m[path.ref].right == Ptr(t) && (t.Node? ==> m[path.ref].left != t.ref)
  {
    PathNullFree(m, path, root, Ptr(t));
    if path.InRight? {
      assert Ptr(path.l) == NULL || Ptr(path.l) in Refs(path.l);
    }
    if path.InLeft? {
      assert Ptr(path.r) == NULL || Ptr(path.r) in Refs(path.r);
    }
  }

  // Clearing the pointer that leads to a leaf.
  lemma {:induction false} CutLeaf(m: Memory, m': Memory, root: Ref, root': Ref, path: Path, node: Ref)
    requires Stands(m, root, path, Node(Leaf, node, Leaf)) && PathOrdered(m, path)
    requires path.Top? ==> root' == NULL
    requires !path.Top? ==> root' == root
    requires path.InLeft? ==> path.ref in m' && path.ref in m && m'[path.ref] == m[path.ref].(left := NULL)
    requires path.InRight? ==> path.ref in m' && path.ref in m && m'[path.ref] == m[path.ref].(right := NULL)
    requires forall r :: r in m && r != node && r != Tip(path) ==> r in m' && m'[r] == m[r]
    ensures Stands(m', root', path, Leaf) && HeapOrdered(m', Plug(path, Leaf))
  {
    assert node in Refs(Node(Leaf, node, Leaf));
    PathNullFree(m, path, root, node);
    PathHeapFrame(m, m', path);
    HeapPlug(m', path, Leaf);
    Redirect(m, m', path, root, root', node, NULL);
  }

  // One rotation of a removal: the chosen child moves above the sinking node.
  lemma {:induction false} SinkShape(m: Memory, m': Memory, root: Ref, root': Ref, path: Path, a: Tree, node: Ref, b: Tree, left: bool)
    requires Stands(m, root, path, Node(a, node, b)) && (if left then a.Node? else b.Node?)
    requires var child := if left then a.ref else b.ref;
             CanRotate(m, child) && RotationStores(m, m', root, root', child)
    ensures left ==> Stands(m', root', InRight(a.l, a.ref, path), Node(a.r, node, b))
    ensures !left ==> Stands(m', root', InLeft(path, b.ref, b.r), Node(a, node, b.l))
  {
    StepDown(m, root, path, Node(a, node, b));
    if left {
      RotationShape(m, m', root, root', InLeft(path, node, b), a.l, a.ref, a.r);
      StepDown(m', root', path, Node(a.l, a.ref, Node(a.r, node, b)));
    } else {
      RotationShape(m, m', root, root', InRight(a, node, path), b.l, b.ref, b.r);
      StepDown(m', root', path, Node(Node(a, node, b.l), b.ref, b.r));
    }
  }

  lemma {:induction false} SinkLegal(m: Memory, root: Ref, path: Path, a: Tree, node: Ref, b: Tree)
    requires Stands(m, root, path, Node(a, node, b))
    ensures node in m && m[node].left == Ptr(a) && m[node].right == Ptr(b)
    ensures Ptr(a) == NULL <==> a.Leaf?
    ensures Ptr(b) == NULL <==> b.Leaf?
    ensures a.Node? ==> a.ref in m && CanRotate(m, a.ref)
    ensures b.Node? ==> b.ref in m && CanRotate(m, b.ref)
    ensures a.Node? && b.Node? ==> a.ref != b.ref
  {
    StepDown(m, root, path, Node(a, node, b));
    assert Shape(m, a, node) && Shape(m, b, node);
    if a.Node? {
      RotationLegal(m, root, InLeft(path, node, b), a.l, a.ref, a.r);
    }
    if b.Node? {
      RotationLegal(m, root, InRight(a, node, path), b.l, b.ref, b.r);
    }
  }

  lemma {:induction false} SinkOrder(path: Path, a: Tree, node: Ref, b: Tree)
    ensures a.Node? ==> InOrder(Plug(InRight(a.l, a.ref, path), Node(a.r, node, b))) == InOrder(Plug(path, Node(a, node, b)))
    ensures a.Node? ==> Refs(Plug(InRight(a.l, a.ref, path), Node(a.r, node, b))) == Refs(Plug(path, Node(a, node, b)))
    ensures b.Node? ==> InOrder(Plug(InLeft(path, b.ref, b.r), Node(a, node, b.l))) == InOrder(Plug(path, Node(a, node, b)))
    ensures b.Node? ==> Refs(Plug(InLeft(path, b.ref, b.r), Node(a, node, b.l))) == Refs(Plug(path, Node(a, node, b)))
  {
    if a.Node? {
      RotatedPlugKeeps(InLeft(path, node, b), a.l, a.ref, a.r);
    }
    if b.Node? {
      RotatedPlugKeeps(InRight(a, node, path), b.l, b.ref, b.r);
    }
  }

  // Storing a fresh leaf into an empty hole.
  lemma {:induction false} PlantLeaf(m: Memory, m': Memory, root: Ref, root': Ref, path: Path, node: Ref, priority: nat)
    requires Stands(m, root, path, Leaf) && node != NULL && node !in PathRefs(path)
    requires node in m' && m'[node] == Links(NULL, NULL, Tip(path), priority)
    requires path.Top? ==> root' == node
    requires !path.Top? ==> root' == root
    requires path.InLeft? ==> path.ref in m' && path.ref in m && m'[path.ref] == m[path.ref].(left := node)
    requires path.InRight? ==> path.ref in m' && path.ref in m && m'[path.ref] == m[path.ref].(right := node)
    requires forall r :: r in m && r != node && r != Tip(path) ==> r in m' && m'[r] == m[r]
    ensures Stands(m', root', path, Node(Leaf, node, Leaf))
    ensures PathOrdered(m, path) ==> Climbing(m', path, Leaf, node, Leaf)
  {
    PathNullFree(m, path, root, NULL);
    if PathOrdered(m, path) {
      PathHeapFrame(m, m', path);
    }
    Redirect(m, m', path, root, root', NULL, node);
    assert Refs(Node(Leaf, node, Leaf)) == {node};
  }

  ghost predicate Cursor(m: Memory, root: Ref, tree: Tree, path: Path, t: Tree) {
    tree == Plug(path, t) && Stands(m, root, path, t)
  }

  lemma {:induction false} FindCursor(m: Memory, root: Ref, tree: Tree, node: Ref) returns (path: Path, a: Tree, b: Tree)
    requires Shape(m, tree, NULL) && root == Ptr(tree) && Distinct(tree) && HeapOrdered(m, tree) && node in Refs(tree)
    ensures Cursor(m, root, tree, path, Node(a, node, b)) && Sinking(m, path, a, b)
  {
    path, a, b := FindPath(m, root, Top, tree, node);
    DistinctPlug(path, Node(a, node, b));
  }

  // One step of a downward walk: both places below a node, and where they sit in the order.
  lemma {:induction false} GoDown(m: Memory, root: Ref, tree: Tree, path: Path, t: Tree)
    requires Cursor(m, root, tree, path, t) && t.Node?
    ensures Cursor(m, root, tree, InLeft(path, t.ref, t.r), t.l)
    ensures Cursor(m, root, tree, InRight(t.l, t.ref, path), t.r)
    ensures t.ref != NULL && t.ref in m && m[t.ref].left == Ptr(t.l) && m[t.ref].right == Ptr(t.r)
    ensures Ptr(t.l) == NULL <==> t.l.Leaf?
    ensures Ptr(t.r) == NULL <==> t.r.Leaf?
    ensures |InOrder(t)| == |InOrder(t.l)| + 1 + |InOrder(t.r)|
    ensures |InOrder(tree)| == |Before(path)| + |InOrder(t)| + |After(path)|
    ensures InOrder(tree)[|Before(path)| + |InOrder(t.l)|] == t.ref
    ensures Before(InLeft(path, t.ref, t.r)) == Before(path)
    ensures |Before(InRight(t.l, t.ref, path))| == |Before(path)| + |InOrder(t.l)| + 1
    ensures After(InRight(t.l, t.ref, path)) == After(path)
    ensures |After(InLeft(path, t.ref, t.r))| == 1 + |InOrder(t.r)| + |After(path)|
  {
    StepDown(m, root, path, t);
    InOrderPlug(path, t);
    assert Shape(m, t.l, t.ref) && Shape(m, t.r, t.ref);
  }

  // A downward search: the cursor together with what has been ruled out on either side.
  ghost predicate Searching(m: Memory, root: Ref, tree: Tree, goLeft: Ref -> bool, path: Path, t: Tree) {
    && Cursor(m, root, tree, path, t)
    && PathOrdered(m, path) && HeapOrdered(m, t) && Above(m, t, Floor(m, path))
    && Narrowed(goLeft, InOrder(tree), |Before(path)|, |Before(path)| + |InOrder(t)|)
  }

  lemma {:induction false} SearchStart(m: Memory, root: Ref, tree: Tree, goLeft: Ref -> bool)
    requires Shape(m, tree, NULL) && root == Ptr(tree) && Distinct(tree) && HeapOrdered(m, tree)
    ensures Searching(m, root, tree, goLeft, Top, tree) && (tree.Leaf? <==> root == NULL) && |Before(Top)| == 0
  {
  }

  lemma {:induction false} SearchStep(m: Memory, root: Ref, tree: Tree, goLeft: Ref -> bool, path: Path, t: Tree)
    requires Searching(m, root, tree, goLeft, path, t) && t.Node? && Monotone(goLeft, InOrder(tree))
    ensures t.ref in m && m[t.ref].left == Ptr(t.l) && m[t.ref].right == Ptr(t.r)
    ensures Ptr(t.l) == NULL <==> t.l.Leaf?
    ensures Ptr(t.r) == NULL <==> t.r.Leaf?
    ensures goLeft(t.ref) ==> Searching(m, root, tree, goLeft, InLeft(path, t.ref, t.r), t.l)
    ensures !goLeft(t.ref) ==> Searching(m, root, tree, goLeft, InRight(t.l, t.ref, path), t.r)
    ensures |Before(InLeft(path, t.ref, t.r))| == |Before(path)|
    ensures 0 < |Before(InRight(t.l, t.ref, path))| <= |InOrder(tree)|
    ensures InOrder(tree)[|Before(InRight(t.l, t.ref, path))| - 1] == t.ref
  {
    hide Shape, PathShape, Distinct, PathDistinct, Stands, Cursor, Plug, InOrder, Before, After, Refs, PathRefs, Monotone, Narrowed;
    GoDown(m, root, tree, path, t);
    Narrow(goLeft, InOrder(tree), |Before(path)|, |Before(path)| + |InOrder(t)|, |Before(path)| + |InOrder(t.l)|);
  }

  lemma {:induction false} SearchEnd(m: Memory, root: Ref, tree: Tree, goLeft: Ref -> bool, path: Path)
    requires Searching(m, root, tree, goLeft, path, Leaf)
    ensures Cursor(m, root, tree, path, Leaf) && PathOrdered(m, path)
    ensures Narrowed(goLeft, InOrder(tree), |Before(path)|, |Before(path)|)
  {
  }

  // A leaf under the cursor: its surroundings, and the tree once it is cut off.
  lemma {:induction false} LeafCursor(m: Memory, root: Ref, tree: Tree, path: Path, node: Ref)
    requires Cursor(m, root, tree, path, Node(Leaf, node, Leaf))
    ensures node in m && m[node].parent == Tip(path) && (path.Top? <==> Tip(path) == NULL)
    ensures !path.Top? ==> path.ref in m && path.ref != node && (m[path.ref].left == node <==> path.InLeft?)
    ensures var k := |Before(path)|;
            && k < |InOrder(tree)| && InOrder(tree)[k] == node
            && InOrder(Plug(path, Leaf)) == InOrder(tree)[..k] + InOrder(tree)[k + 1..]
    ensures Refs(Plug(path, Leaf)) == Refs(tree) - {node}
  {
    Around(m, root, path, Node(Leaf, node, Leaf));
    PlantOrder(path, node);
    assert node in Refs(Node(Leaf, node, Leaf));
  }

  lemma {:induction false} LeafCut(m: Memory, m': Memory, root: Ref, root': Ref, tree: Tree, path: Path, node: Ref)
    requires Cursor(m, root, tree, path, Node(Leaf, node, Leaf)) && PathOrdered(m, path)
    requires path.Top? ==> root' == NULL
    requires !path.Top? ==> root' == root
    requires path.InLeft? ==> path.ref in m' && path.ref in m && m'[path.ref] == m[path.ref].(left := NULL)
    requires path.InRight? ==> path.ref in m' && path.ref in m && m'[path.ref] == m[path.ref].(right := NULL)
    requires forall r :: r in m && r != node && r != Tip(path) ==> r in m' && m'[r] == m[r]
    ensures var t := Plug(path, Leaf);
            Shape(m', t, NULL) && root' == Ptr(t) && Distinct(t) && HeapOrdered(m', t)
  {
    CutLeaf(m, m', root, root', path, node);
    StandsTop(m', root', path, Leaf);
  }

  // One step of an upward walk: is the node its parent's left or right child?
  lemma {:induction false} GoUp(m: Memory, root: Ref, tree: Tree, path: Path, t: Tree)
    requires Cursor(m, root, tree, path, t) && t.Node?
    ensures t.ref in m && m[t.ref].parent == Tip(path)
    ensures path.Top? <==> Tip(path) == NULL
    ensures path.InLeft? ==> path.ref in m && m[path.ref].right != t.ref && Cursor(m, root, tree, path.up, Node(t, path.ref, path.r))
    ensures path.InLeft? ==> |InOrder(Node(t, path.ref, path.r))| == |InOrder(t)| + 1 + |InOrder(path.r)| && Before(path.up) == Before(path)
    ensures path.InRight? ==> path.ref in m && m[path.ref].right == t.ref && Cursor(m, root, tree, path.up, Node(path.l, path.ref, t))
    ensures path.InRight? ==> |Before(path)| + |InOrder(t)| == |Before(path.up)| + |InOrder(Node(path.l, path.ref, t))|
    ensures path.Top? ==> tree == t && Before(path) == []
  {
    Around(m, root, path, t);
    if path.InLeft? {
      StepDown(m, root, path.up, Node(t, path.ref, path.r));
    }
    if path.InRight? {
      StepDown(m, root, path.up, Node(path.l, path.ref, t));
    }
  }

  // One rotation of an insertion, all at once.
  lemma {:induction false} ClimbStep(m: Memory, m': Memory, root: Ref, root': Ref, tree: Tree, path: Path, a: Tree, node: Ref, b: Tree)
    requires Cursor(m, root, tree, path, Node(a, node, b)) && Climbing(m, path, a, node, b)
    requires !path.Top? && m[node].priority < Floor(m, path)
    requires CanRotate(m, node) && RotationStores(m, m', root, root', node)
    ensures var t := Rotated(path, a, node, b);
            && Cursor(m', root', Plug(path.up, t), path.up, Node(t.l, node, t.r)) && Climbing(m', path.up, t.l, node, t.r)
            && InOrder(Plug(path.up, t)) == InOrder(tree) && Refs(Plug(path.up, t)) == Refs(tree)
            && m'[node].priority == m[node].priority
  {
    RotationPriorities(m, m', root, root', node);
    RotationShape(m, m', root, root', path, a, node, b);
    ClimbOnce(m, m', path, a, node, b);
    RotatedPlugKeeps(path, a, node, b);
  }

  // The guard of the climbing loop, read from memory.
  lemma {:induction false} ClimbGuard(m: Memory, root: Ref, tree: Tree, path: Path, a: Tree, node: Ref, b: Tree)
    requires Cursor(m, root, tree, path, Node(a, node, b)) && Climbing(m, path, a, node, b)
    ensures node in m && (m[node].parent == NULL <==> path.Top?)
    ensures !path.Top? ==> m[node].parent in m && m[m[node].parent].priority == Floor(m, path) && CanRotate(m, node)
    ensures path.Top? || m[node].priority >= Floor(m, path) ==>
              HeapOrdered(m, tree) && Shape(m, tree, NULL) && root == Ptr(tree) && Distinct(tree)
  {
    Around(m, root, path, Node(a, node, b));
    if !path.Top? {
      RotationLegal(m, root, path, a, node, b);
    }
    if path.Top? || m[node].priority >= Floor(m, path) {
      StandsTop(m, root, path, Node(a, node, b));
      HeapPlug(m, path, Node(a, node, b));
    }
  }

  // One rotation of a removal, all at once.
  lemma {:induction false} SinkStep(m: Memory, m': Memory, root: Ref, root': Ref, tree: Tree, path: Path, a: Tree, node: Ref, b: Tree, left: bool)
    requires Cursor(m, root, tree, path, Node(a, node, b)) && Sinking(m, path, a, b)
    requires left ==> a.Node? && Above(m, b, m[a.ref].priority)
    requires !left ==> b.Node? && Above(m, a, m[b.ref].priority)
    requires var child := if left then a.ref else b.ref;
             CanRotate(m, child) && RotationStores(m, m', root, root', child)
    ensures var path' := if left then InRight(a.l, a.ref, path) else InLeft(path, b.ref, b.r);
            var a' := if left then a.r else a; var b' := if left then b else b.l;
            var tree' := Plug(path', Node(a', node, b'));
            && Cursor(m', root', tree', path', Node(a', node, b')) && Sinking(m', path', a', b')
            && InOrder(tree') == InOrder(tree) && Refs(tree') == Refs(tree)
            && Size(a') + Size(b') < Size(a) + Size(b)
  {
    RotationPriorities(m, m', root, root', if left then a.ref else b.ref);
    SinkShape(m, m', root, root', path, a, node, b, left);
    SinkOnce(m, m', path, a, node, b, left);
    SinkOrder(path, a, node, b);
  }

  // Nothing comes before or after the top, or in a leaf.
  lemma Ends()
    ensures Before(Top) == [] && After(Top) == [] && InOrder(Leaf) == []
  {
  }

  class Treap {
    var links: Memory
    var root: Ref
    ghost var tree: Tree

    ghost predicate Valid()
      reads this
    {
      Shape(links, tree, NULL) && root == Ptr(tree) && Distinct(tree) && HeapOrdered(links, tree)
    }

    ghost function Order(): seq<Ref>
      reads this
    {
      InOrder(tree)
    }

    constructor ()
      ensures Valid() && tree == Leaf && links == map[]
    {
      links := map[];
      root := NULL;
      tree := Leaf;
    }

    lemma OrderFacts()
      requires Valid()
      ensures NoRepeats(Order()) && NULL !in Order() && forall r :: r in Order() <==> r in Refs(tree)
    {
      InOrderDistinct(tree);
      InOrderRefs(tree);
      NullFree(links, tree, NULL);
    }

    method RotateUp(node: Ref)
      requires CanRotate(links, node)
      modifies this`links, this`root
      ensures RotationStores(old(links), links, old(root), root, node)
    {
      var m := links;
      var parent := m[node].parent;
      var grand := m[parent].parent;
      if m[parent].left == node {
        m := SetLeft(m, parent, m[node].right);
        if m[node].right != NULL {
          m := SetParent(m, m[node].right, parent);
        }
        m := SetRight(m, node, parent);
      } else {
        m := SetRight(m, parent, m[node].left);
        if m[node].left != NULL {
          m := SetParent(m, m[node].left, parent);
        }
        m := SetLeft(m, node, parent);
      }
      m := SetParent(m, parent, node);
      m := SetParent(m, node, grand);
      if grand == NULL {
        root := node;
      } else if m[grand].left == parent {
        m := SetLeft(m, grand, node);
      } else {
        m := SetRight(m, grand, node);
      }
      links := m;
    }

    // The first half of an insertion: walk down to the empty link the node goes to.
    method Descend(goLeft: Ref -> bool) returns (parent: Ref, left: bool, ghost path: Path)
      requires Valid() && Monotone(goLeft, Order())
      ensures Cursor(links, root, tree, path, Leaf) && PathOrdered(links, path)
      ensures parent == Tip(path) && (parent != NULL ==> left == path.InLeft?)
      ensures Narrowed(goLeft, Order(), |Before(path)|, |Before(path)|)
    {
      hide Shape, PathShape, Distinct, HeapOrdered, PathOrdered, PathDistinct, Refs, InOrder, Before, After, Plug, Cursor, Stands, Searching, Monotone, Narrowed;
      var at := root;
      parent, left := NULL, false;
      ghost var sub := tree;
      path := Top;
      SearchStart(links, root, tree, goLeft);
      while at != NULL
        invariant at == Ptr(sub) && (sub.Leaf? <==> at == NULL) && parent == Tip(path)
        invariant Searching(links, root, tree, goLeft, path, sub)
        invariant parent != NULL ==> left == path.InLeft?
        decreases sub
      {
        SearchStep(links, root, tree, goLeft, path, sub);
        parent := at;
        left := goLeft(parent);
        at := if left then links[parent].left else links[parent].right;
        if left {
          path, sub := InLeft(path, sub.ref, sub.r), sub.l;
        } else {
          path, sub := InRight(sub.l, sub.ref, path), sub.r;
        }
      }
      SearchEnd(links, root, tree, goLeft, path);
    }

    // The second half of an insertion: rotate the new leaf up while it beats its parent.
    method Climb(node: Ref, ghost start: Path)
      requires Cursor(links, root, tree, start, Node(Leaf, node, Leaf)) && Climbing(links, start, Leaf, node, Leaf)
      modifies this
      ensures Valid() && Order() == old(Order()) && Refs(tree) == old(Refs(tree))
      ensures links.Keys == old(links.Keys) && SamePriorities(old(links), links, old(links.Keys))
    {
      hide Shape, PathShape, Distinct, HeapOrdered, PathOrdered, PathDistinct, Stands, Cursor, Plug, Refs, InOrder, Climbing;
      ghost var path, a, b := start, Leaf, Leaf;
      ClimbGuard(links, root, tree, path, a, node, b);
      while links[node].parent != NULL && links[node].priority < links[links[node].parent].priority
        invariant Cursor(links, root, tree, path, Node(a, node, b)) && Climbing(links, path, a, node, b)
        invariant node in links && (links[node].parent != NULL ==> links[node].parent in links)
        invariant Order() == old(Order()) && Refs(tree) == old(Refs(tree))
        invariant links.Keys == old(links.Keys) && SamePriorities(old(links), links, old(links.Keys))
        decreases path
      {
        ghost var m, r := links, root;
        ClimbGuard(m, r, tree, path, a, node, b);
        RotateUp(node);
        RotationPriorities(m, links, r, root, node);
        ClimbStep(m, links, r, root, tree, path, a, node, b);
        ghost var t := Rotated(path, a, node, b);
        path, a, b := path.up, t.l, t.r;
        tree := Plug(path, t);
        ClimbGuard(links, root, tree, path, a, node, b);
      }
      ClimbGuard(links, root, tree, path, a, node, b);
    }

    method Insert(node: Ref, priority: nat, goLeft: Ref -> bool) returns (ghost k: nat)
      requires Valid() && node != NULL && node !in Refs(tree) && Monotone(goLeft, Order())
      modifies this
      ensures Valid() && Refs(tree) == old(Refs(tree)) + {node}
      ensures Narrowed(goLeft, old(Order()), k, k) && Order() == old(Order())[..k] + [node] + old(Order())[k..]
      ensures links.Keys == old(links.Keys) + {node} && links[node].priority == priority
      ensures SamePriorities(old(links), links, old(links.Keys) - {node})
    {
      var parent, left;
      ghost var path;
      parent, left, path := Descend(goLeft);
      hide Shape, PathShape, Distinct, HeapOrdered, PathOrdered, PathDistinct, Plug, InOrder, Refs, Before, After;
      PlantOrder(path, node);
      k := |Before(path)|;
      Around(links, root, path, Leaf);
      var m := links[node := Links(NULL, NULL, parent, priority)];
      if parent == NULL {
        root := node;
      } else if left {
        m := SetLeft(m, parent, node);
      } else {
        m := SetRight(m, parent, node);
      }
      PlantLeaf(links, m, old(root), root, path, node, priority);
      links, tree := m, Plug(path, Node(Leaf, node, Leaf));
      Climb(node, path);
    }

    // The first half of a removal: rotate the smaller child up until the node is a leaf.
    method Sink(node: Ref) returns (ghost path: Path)
      requires Valid() && node in Refs(tree)
      modifies this
      ensures Cursor(links, root, tree, path, Node(Leaf, node, Leaf)) && PathOrdered(links, path)
      ensures Order() == old(Order()) && Refs(tree) == old(Refs(tree))
      ensures links.Keys == old(links.Keys) && SamePriorities(old(links), links, old(links.Keys))
    {
      ghost var a, b;
      hide Shape, PathShape, Distinct, HeapOrdered, PathOrdered, PathDistinct, Plug, InOrder, Refs, Before, After, PathRefs;
      path, a, b := FindCursor(links, root, tree, node);
      SinkLegal(links, root, path, a, node, b);
      while links[node].left != NULL || links[node].right != NULL
        invariant Cursor(links, root, tree, path, Node(a, node, b)) && Sinking(links, path, a, b)
        invariant node in links && links[node].left == Ptr(a) && links[node].right == Ptr(b)
        invariant Order() == old(Order()) && Refs(tree) == old(Refs(tree))
        invariant links.Keys == old(links.Keys) && SamePriorities(old(links), links, old(links.Keys))
        decreases Size(a) + Size(b)
      {
        ghost var m, r := links, root;
        SinkLegal(m, r, path, a, node, b);
        var l, h := links[node].left, links[node].right;
        var child := if l == NULL then h else if h == NULL then l else if links[l].priority < links[h].priority then l else h;
        ghost var left := a.Node? && child == a.ref;
        RotateUp(child);
        RotationPriorities(m, links, r, root, child);
        SinkStep(m, links, r, root, tree, path, a, node, b, left);
        if left {
          path, a := InRight(a.l, a.ref, path), a.r;
        } else {
          path, b := InLeft(path, b.ref, b.r), b.l;
        }
        tree := Plug(path, Node(a, node, b));
        SinkLegal(links, root, path, a, node, b);
      }
      SinkLegal(links, root, path, a, node, b);
    }

    method Remove(node: Ref) returns (ghost k: nat)
      requires Valid() && node in Refs(tree)
      modifies this
      ensures Valid() && Refs(tree) == old(Refs(tree)) - {node}
      ensures k < |old(Order())| && old(Order())[k] == node
      ensures Order() == old(Order())[..k] + old(Order())[k + 1..]
      ensures links.Keys == old(links.Keys) && SamePriorities(old(links), links, old(links.Keys))
    {
      hide Shape, PathShape, Distinct, HeapOrdered, PathOrdered, PathDistinct, Plug, InOrder, Refs, Before, After, PathRefs, Stands, Cursor;
      ghost var path := Sink(node);
      LeafCursor(links, root, tree, path, node);
      k := |Before(path)|;
      ghost var root0 := root;
      var m := links;
      var parent := m[node].parent;
      if parent == NULL {
        root := NULL;
      } else if m[parent].left == node {
        m := SetLeft(m, parent, NULL);
      } else {
        m := SetRight(m, parent, NULL);
      }
      m := SetParent(m, node, NULL);
      LeafCut(links, m, root0, root, tree, path, node);
      links, tree := m, Plug(path, Leaf);
    }

    // The last node, in order, that the key does not go left of.
    method LastBefore(goLeft: Ref -> bool) returns (best: Ref, ghost k: nat)
      requires Valid() && Monotone(goLeft, Order())
      ensures Narrowed(goLeft, Order(), k, k)
      ensures best == if k == 0 then NULL else Order()[k - 1]
    {
      hide Shape, PathShape, Distinct, HeapOrdered, PathOrdered, PathDistinct, Refs, InOrder, Before, After, Plug, Cursor, Stands, Searching, Monotone, Narrowed;
      var at := root;
      best := NULL;
      ghost var path, sub := Top, tree;
      SearchStart(links, root, tree, goLeft);
      while at != NULL
        invariant at == Ptr(sub) && (sub.Leaf? <==> at == NULL) && |Before(path)| <= |InOrder(tree)|
        invariant Searching(links, root, tree, goLeft, path, sub)
        invariant best == if |Before(path)| == 0 then NULL else InOrder(tree)[|Before(path)| - 1]
        decreases sub
      {
        SearchStep(links, root, tree, goLeft, path, sub);
        if !goLeft(at) {
          best := at;
          at := links[at].right;
          path, sub := InRight(sub.l, sub.ref, path), sub.r;
        } else {
          at := links[at].left;
          path, sub := InLeft(path, sub.ref, sub.r), sub.l;
        }
      }
      SearchEnd(links, root, tree, goLeft, path);
      k := |Before(path)|;
    }

    // The leftmost node of a subtree.
    method Leftmost(from: Ref, ghost start: Path, ghost below: Tree) returns (node: Ref)
      requires below.Node? && below.ref == from && Cursor(links, root, tree, start, below)
      ensures |Before(start)| < |Order()| && node == Order()[|Before(start)|]
    {
      assert InOrder(Leaf) == [];
      hide Shape, PathShape, Distinct, PathDistinct, Stands, Cursor, Plug, Refs, PathRefs, InOrder, Before, After;
      node := from;
      ghost var path, sub := start, below;
      GoDown(links, root, tree, path, sub);
      while links[node].left != NULL
        invariant sub.Node? && node == sub.ref && Cursor(links, root, tree, path, sub) && |Before(path)| == |Before(start)|
        invariant node in links && links[node].left == Ptr(sub.l) && (sub.l.Leaf? <==> Ptr(sub.l) == NULL)
        decreases sub
      {
        GoDown(links, root, tree, path, sub);
        node := links[node].left;
        path, sub := InLeft(path, sub.ref, sub.r), sub.l;
        GoDown(links, root, tree, path, sub);
      }
      GoDown(links, root, tree, path, sub);
    }

    // The first ancestor that a node stands to the left of.
    method ClimbOut(from: Ref, ghost start: Path, ghost below: Tree) returns (node: Ref)
      requires below.Node? && below.ref == from && Cursor(links, root, tree, start, below)
      ensures var k := |Before(start)| + |InOrder(below)|;
              k <= |Order()| && node == if k < |Order()| then Order()[k] else NULL
    {
      hide Shape, PathShape, Distinct, PathDistinct, Stands, Cursor, Plug, Refs, PathRefs, InOrder, Before, After;
      Ends();
      node := from;
      ghost var path, sub := start, below;
      GoUp(links, root, tree, path, sub);
      while links[node].parent != NULL && links[links[node].parent].right == node
        invariant sub.Node? && node == sub.ref && Cursor(links, root, tree, path, sub)
        invariant |Before(path)| + |InOrder(sub)| == |Before(start)| + |InOrder(below)|
        invariant node in links && links[node].parent == Tip(path) && (path.Top? <==> Tip(path) == NULL)
        invariant !path.Top? ==> path.ref in links && (links[path.ref].right == node <==> path.InRight?)
        decreases path
      {
        GoUp(links, root, tree, path, sub);
        node := links[node].parent;
        path, sub := path.up, Node(path.l, path.ref, sub);
        GoUp(links, root, tree, path, sub);
      }
      GoUp(links, root, tree, path, sub);
      if path.InLeft? {
        GoDown(links, root, tree, path.up, Node(sub, path.ref, path.r));
      }
      node := links[node].parent;
    }

    method First() returns (node: Ref)
      requires Valid()
      ensures node == if Order() == [] then NULL else Order()[0]
    {
      if root == NULL {
        return NULL;
      }
      node := Leftmost(root, Top, tree);
    }

    method Next(from: Ref) returns (node: Ref, ghost k: nat)
      requires Valid() && from in Refs(tree)
      ensures k < |Order()| && Order()[k] == from
      ensures node == if k + 1 < |Order()| then Order()[k + 1] else NULL
    {
      hide Shape, PathShape, Distinct, HeapOrdered, PathDistinct, Stands, Cursor, Plug, Refs, PathRefs, InOrder, Before, After, PathOrdered, Sinking;
      Ends();
      ghost var path, a, b := FindCursor(links, root, tree, from);
      GoDown(links, root, tree, path, Node(a, from, b));
      k := |Before(path)| + |InOrder(a)|;
      if links[from].right != NULL {
        node := Leftmost(links[from].right, InRight(a, from, path), b);
      } else {
        node := ClimbOut(from, path, Node(a, from, b));
      }
    }
  }
}
