/** The scene-graph part of `Object3D`: node defaults, local and world
    matrices, and the traversals. A scene is a tree value: each node holds its
    children in order, and a node's parent is the node the tree holds it in. */
module SceneGraph {
  import Vec3
  import Quat
  import Mat4
  import LayerMask
  import opened Wrappers

  datatype Object3D = Object3D(
    id: int,
    uuid: string,
    name: string,
    typeName: string,
    up: Vec3.Vector3,
    position: Vec3.Vector3,
    quaternion: Quat.Quaternion,
    scale: Vec3.Vector3,
    rotationAutoUpdate: bool,
    matrix: Mat4.Matrix4,
    matrixWorld: Mat4.Matrix4,
    matrixAutoUpdate: bool,
    matrixWorldNeedsUpdate: bool,
    layers: LayerMask.Layers,
    visible: bool,
    castShadow: bool,
    receiveShadow: bool,
    frustumCulled: bool,
    renderOrder: real,
    children: seq<Object3D>)

  /** The constructor. `counter` is the static id counter, `uuid` the value
      `generateUUID` hands out, and `defaultUp` / `defaultMatrixAutoUpdate` the
      class's static defaults. The new node takes the counter's value as its id
      and the counter moves on by one. */
  function New(counter: int, uuid: string, defaultUp: Vec3.Vector3, defaultMatrixAutoUpdate: bool): (r: (Object3D, int))
    ensures r.0.id == counter && r.1 == counter + 1
    ensures r.0.uuid == uuid && r.0.up == defaultUp && r.0.matrixAutoUpdate == defaultMatrixAutoUpdate
    ensures r.0.visible && !r.0.castShadow && !r.0.receiveShadow && r.0.frustumCulled
    ensures !r.0.matrixWorldNeedsUpdate && r.0.rotationAutoUpdate && r.0.renderOrder == 0.0
    ensures r.0.children == []
    ensures r.0.position == Vec3.Zero() && r.0.quaternion == Quat.Identity() && r.0.layers == LayerMask.NewLayers()
    ensures r.0.matrix == Mat4.Identity() && r.0.matrixWorld == Mat4.Identity()
    ensures Traverse(r.0) == [r.0]
  {
    var n := Object3D(counter, uuid, "", "Object3D", defaultUp,
                      Vec3.Zero(), Quat.Identity(), Vec3.Vector3(1.0, 1.0, 1.0), true,
                      Mat4.Identity(), Mat4.Identity(), defaultMatrixAutoUpdate, false,
                      LayerMask.NewLayers(), true, false, false, true, 0.0, []);
    assert TraverseAll([]) == [];
    (n, counter + 1)
  }

  /** A new node's stored matrix is the one its position, rotation and scale
      describe, so `updateMatrix` on it changes nothing. */
  lemma NewMatrixMatchesTransform(counter: int, uuid: string, up: Vec3.Vector3, auto: bool)
    ensures Local(New(counter, uuid, up, auto).0) == New(counter, uuid, up, auto).0.matrix
  {
    var n := New(counter, uuid, up, auto).0;
    assert n.position == Vec3.Zero() && n.quaternion == Quat.Identity() && n.scale == Vec3.Vector3(1.0, 1.0, 1.0);
    DefaultTransformIsIdentity();
  }

  /** Zero position, no rotation and unit scale compose to the identity. */
  lemma DefaultTransformIsIdentity()
    ensures Mat4.Compose(Vec3.Zero(), Quat.Identity(), Vec3.Vector3(1.0, 1.0, 1.0)) == Mat4.Identity()
  {
    Mat4.ComposeTranslation(Vec3.Zero());
    assert Mat4.MakeTranslation(0.0, 0.0, 0.0) == Mat4.Identity();
  }

  /** Nodes built one after the other get increasing, hence distinct, ids. */
  lemma NewIdsDistinct(counter: int, uuid1: string, uuid2: string, up: Vec3.Vector3, auto: bool)
    ensures var (a, c1) := New(counter, uuid1, up, auto);
            var (b, c2) := New(c1, uuid2, up, auto);
            a.id < b.id && c1 < c2
  {
  }

  // ---------------------------------------------------------------------------
  // Local and world matrices

  /** The local transform the node's position, rotation and scale describe. */
  function Local(n: Object3D): Mat4.Matrix4 {
    Mat4.Compose(n.position, n.quaternion, n.scale)
  }

  /** `updateMatrix`: recomputes the local matrix and flags the world matrix as
      stale; nothing else changes. */
  function UpdateMatrix(n: Object3D): (r: Object3D)
    ensures r.matrix == Local(n) && r.matrixWorldNeedsUpdate
    ensures r.(matrix := n.matrix, matrixWorldNeedsUpdate := n.matrixWorldNeedsUpdate) == n
    ensures Local(r) == Local(n)
  {
    n.(matrix := Mat4.Compose(n.position, n.quaternion, n.scale), matrixWorldNeedsUpdate := true)
  }

  /** Calling `updateMatrix` twice is the same as calling it once. */
  lemma UpdateMatrixIdempotent(n: Object3D)
    ensures UpdateMatrix(UpdateMatrix(n)) == UpdateMatrix(n)
  {
  }

  /** The world matrix of a node with local matrix `m` under a parent whose world
      matrix is `parentWorld` (none for a root). */
  function WorldFrom(parentWorld: Option<Mat4.Matrix4>, m: Mat4.Matrix4): Mat4.Matrix4 {
    match parentWorld
    case None => m
    case Some(pw) => Mat4.MultiplyMatrices(pw, m)
  }

  /** `updateMatrixWorld(force)` on a node whose parent has world matrix
      `parentWorld` (none for a root). An auto-updating node first runs
      `updateMatrix`; a node that is then stale or forced recomputes its world
      matrix, clears the flag and forces all its children; every child is
      visited either way, under the node's (possibly new) world matrix. */
  function UpdateMatrixWorld(n: Object3D, parentWorld: Option<Mat4.Matrix4>, force: bool): (r: Object3D)
    ensures |r.children| == |n.children|
    ensures r.position == n.position && r.quaternion == n.quaternion && r.scale == n.scale
    ensures Unmatrixed(r) == Unmatrixed(n)
    decreases n
  {
    var n1 := if n.matrixAutoUpdate then UpdateMatrix(n) else n;
    var recompute := n1.matrixWorldNeedsUpdate || force;
    var n2 := if recompute then n1.(matrixWorld := WorldFrom(parentWorld, n1.matrix), matrixWorldNeedsUpdate := false) else n1;
    var cs := seq(|n.children|, i requires 0 <= i < |n.children| =>
                UpdateMatrixWorld(n.children[i], Some(n2.matrixWorld), recompute));
    var r := n2.(children := cs);
    UnmatrixedChildren(n, r);
    r
  }

  /** A node with its matrices and stale flag blanked out, throughout the tree:
      what `updateMatrixWorld` must leave alone. */
  function Unmatrixed(n: Object3D): Object3D
    decreases n
  {
    n.(matrix := Mat4.Identity(), matrixWorld := Mat4.Identity(), matrixWorldNeedsUpdate := false,
       children := seq(|n.children|, i requires 0 <= i < |n.children| => Unmatrixed(n.children[i])))
  }

  lemma UnmatrixedChildren(n: Object3D, r: Object3D)
    requires |r.children| == |n.children|
    requires forall i :: 0 <= i < |n.children| ==> Unmatrixed(r.children[i]) == Unmatrixed(n.children[i])
    requires r.(matrix := n.matrix, matrixWorld := n.matrixWorld,
                matrixWorldNeedsUpdate := n.matrixWorldNeedsUpdate, children := n.children) == n
    ensures Unmatrixed(r) == Unmatrixed(n)
  {
    var a, b := Unmatrixed(r), Unmatrixed(n);
    assert a.children == b.children;
  }

  /** Whether `updateMatrixWorld` recomputes this node's world matrix. */
  predicate Recomputes(n: Object3D, force: bool) {
    n.matrixAutoUpdate || n.matrixWorldNeedsUpdate || force
  }

  /** A recomputing node ends with world matrix `parentWorld * matrix` (its own
      matrix for a root), the flag cleared, and the local matrix recomputed when
      it auto-updates. */
  lemma {:induction false} UpdatedNodeWorld(n: Object3D, parentWorld: Option<Mat4.Matrix4>, force: bool)
    requires Recomputes(n, force)
    ensures var r := UpdateMatrixWorld(n, parentWorld, force);
      r.matrixWorld == WorldFrom(parentWorld, r.matrix) && !r.matrixWorldNeedsUpdate &&
      r.matrix == (if n.matrixAutoUpdate then Local(n) else n.matrix)
  {
  }

  /** A root that recomputes ends with `matrixWorld == matrix`. */
  lemma {:induction false} UpdatedRootWorld(n: Object3D, force: bool)
    requires Recomputes(n, force)
    ensures var r := UpdateMatrixWorld(n, None, force); r.matrixWorld == r.matrix
  {
    UpdatedNodeWorld(n, None, force);
  }

  /** A node that is neither auto-updating, stale nor forced keeps its matrices,
      and its children are still updated, unforced, under its old world matrix. */
  lemma {:induction false} IdleNodeKeepsWorld(n: Object3D, parentWorld: Option<Mat4.Matrix4>)
    requires !Recomputes(n, false)
    ensures var r := UpdateMatrixWorld(n, parentWorld, false);
      r.matrix == n.matrix && r.matrixWorld == n.matrixWorld && !r.matrixWorldNeedsUpdate &&
      forall i :: 0 <= i < |n.children| ==>
        r.children[i] == UpdateMatrixWorld(n.children[i], Some(n.matrixWorld), false)
  {
  }

  /** Every node of the tree has world matrix `parentWorld * matrix` and a clear
      flag, each child measured against its parent's world matrix. */
  predicate Consistent(n: Object3D, parentWorld: Option<Mat4.Matrix4>)
    decreases n
  {
    n.matrixWorld == WorldFrom(parentWorld, n.matrix) && !n.matrixWorldNeedsUpdate &&
    forall i :: 0 <= i < |n.children| ==> Consistent(n.children[i], Some(n.matrixWorld))
  }

  /** Once a node recomputes, its whole subtree does: the result is consistent
      from that node down. */
  lemma {:induction false} RecomputedSubtreeConsistent(n: Object3D, parentWorld: Option<Mat4.Matrix4>, force: bool)
    requires Recomputes(n, force)
    ensures Consistent(UpdateMatrixWorld(n, parentWorld, force), parentWorld)
    decreases n
  {
    var r := UpdateMatrixWorld(n, parentWorld, force);
    UpdatedNodeWorld(n, parentWorld, force);
    forall i | 0 <= i < |n.children|
      ensures Consistent(r.children[i], Some(r.matrixWorld))
    {
      RecomputedSubtreeConsistent(n.children[i], Some(r.matrixWorld), true);
    }
  }

  /** Every node of the tree updates its local matrix automatically. */
  predicate AllAuto(n: Object3D)
    decreases n
  {
    n.matrixAutoUpdate && forall i :: 0 <= i < |n.children| ==> AllAuto(n.children[i])
  }

  /** The product `ms[0] * ms[1] * ... * ms[k]` of a non-empty chain of matrices. */
  function Product(ms: seq<Mat4.Matrix4>): Mat4.Matrix4
    requires |ms| >= 1
  {
    if |ms| == 1 then ms[0] else Mat4.MultiplyMatrices(Product(ms[..|ms| - 1]), ms[|ms| - 1])
  }

  /** Every node's world matrix is the product of the local transforms from the
      root down to it; `ancestors` holds those of the node's ancestors. */
  predicate WorldIsProduct(n: Object3D, ancestors: seq<Mat4.Matrix4>)
    decreases n
  {
    var chain := ancestors + [Local(n)];
    n.matrixWorld == Product(chain) &&
    forall i :: 0 <= i < |n.children| ==> WorldIsProduct(n.children[i], chain)
  }

  /** With automatic updates on everywhere, one `updateMatrixWorld` on the root
      leaves every node's world matrix equal to the product of the local
      transforms on its path from the root. */
  lemma {:induction false} AutoWorldIsProduct(n: Object3D)
    requires AllAuto(n)
    ensures WorldIsProduct(UpdateMatrixWorld(n, None, false), [])
  {
    AutoWorldIsProductFrom(n, [], false);
  }

  lemma {:induction false} AutoWorldIsProductFrom(n: Object3D, ancestors: seq<Mat4.Matrix4>, force: bool)
    requires AllAuto(n)
    ensures var parentWorld := if ancestors == [] then None else Some(Product(ancestors));
      WorldIsProduct(UpdateMatrixWorld(n, parentWorld, force), ancestors)
    decreases n
  {
    var parentWorld := if ancestors == [] then None else Some(Product(ancestors));
    var r := UpdateMatrixWorld(n, parentWorld, force);
    UpdatedNodeWorld(n, parentWorld, force);
    UpdatedChildren(n, parentWorld, force);
    var chain := ancestors + [Local(r)];
    ProductSnoc(ancestors, Local(r));
    forall i | 0 <= i < |n.children|
      ensures WorldIsProduct(r.children[i], chain)
    {
      AutoWorldIsProductFrom(n.children[i], chain, true);
    }
  }

  /** Appending a matrix to a chain multiplies the chain's product by it. */
  lemma ProductSnoc(ms: seq<Mat4.Matrix4>, m: Mat4.Matrix4)
    ensures Product(ms + [m]) == WorldFrom(if ms == [] then None else Some(Product(ms)), m)
  {
    assert (ms + [m])[..|ms|] == ms;
  }

  /** `updateMatrixWorld` keeps the node's position, rotation and scale, and
      updates each child under the node's new world matrix, forcing it when the
      node recomputed. */
  lemma UpdatedChildren(n: Object3D, parentWorld: Option<Mat4.Matrix4>, force: bool)
    ensures var r := UpdateMatrixWorld(n, parentWorld, force);
      Local(r) == Local(n) &&
      forall i :: 0 <= i < |n.children| ==>
        r.children[i] == UpdateMatrixWorld(n.children[i], Some(r.matrixWorld), Recomputes(n, force))
  {
  }

  // ---------------------------------------------------------------------------
  // Traversals

  /** The number of nodes in the tree. */
  function Count(n: Object3D): nat
    decreases n
  {
    1 + CountAll(n.children)
  }

  function CountAll(cs: seq<Object3D>): nat
    decreases cs
  {
    if cs == [] then 0 else Count(cs[0]) + CountAll(cs[1..])
  }

  /** `traverse`: the order in which the callback sees the nodes, the node
      itself first and then each child's subtree in turn. */
  function Traverse(n: Object3D): (r: seq<Object3D>)
    ensures |r| == Count(n) && r[0] == n
    decreases n
  {
    [n] + TraverseAll(n.children)
  }

  function TraverseAll(cs: seq<Object3D>): (r: seq<Object3D>)
    ensures |r| == CountAll(cs)
    decreases cs
  {
    if cs == [] then [] else Traverse(cs[0]) + TraverseAll(cs[1..])
  }

  lemma {:induction false} TraverseAllAppend(a: seq<Object3D>, b: seq<Object3D>)
    ensures TraverseAll(a + b) == TraverseAll(a) + TraverseAll(b)
    ensures CountAll(a + b) == CountAll(a) + CountAll(b)
    decreases a
  {
    if a == [] {
      assert a + b == b;
    } else {
      assert (a + b)[0] == a[0] && (a + b)[1..] == a[1..] + b;
      TraverseAllAppend(a[1..], b);
      calc {
        TraverseAll(a + b);
        Traverse(a[0]) + TraverseAll(a[1..] + b);
        Traverse(a[0]) + (TraverseAll(a[1..]) + TraverseAll(b));
        (Traverse(a[0]) + TraverseAll(a[1..])) + TraverseAll(b);
        TraverseAll(a) + TraverseAll(b);
      }
    }
  }

  lemma {:induction false} TraverseAllSplit(cs: seq<Object3D>, i: int)
    requires 0 <= i < |cs|
    ensures TraverseAll(cs) == TraverseAll(cs[..i]) + Traverse(cs[i]) + TraverseAll(cs[i + 1..])
    ensures CountAll(cs[..i + 1]) == CountAll(cs[..i]) + Count(cs[i])
  {
    assert cs == cs[..i] + ([cs[i]] + cs[i + 1..]);
    TraverseAllAppend(cs[..i], [cs[i]] + cs[i + 1..]);
    assert ([cs[i]] + cs[i + 1..])[1..] == cs[i + 1..];
    assert cs[..i + 1] == cs[..i] + [cs[i]];
    TraverseAllAppend(cs[..i], [cs[i]]);
    assert [cs[i]][1..] == [];
  }

  /** `traverse` is a pre-order walk that visits each node once: the node comes
      first, and child `i`'s subtree follows as one block, right after the blocks
      of children `0 .. i - 1`. */
  lemma {:induction false} TraversePreorder(n: Object3D, i: int)
    requires 0 <= i < |n.children|
    ensures var start := 1 + CountAll(n.children[..i]);
      start + Count(n.children[i]) <= |Traverse(n)| &&
      Traverse(n)[start .. start + Count(n.children[i])] == Traverse(n.children[i])
  {
    var cs := n.children;
    TraverseAllSplit(cs, i);
    var start := 1 + CountAll(cs[..i]);
    var t := Traverse(n);
    assert t == [n] + TraverseAll(cs[..i]) + Traverse(cs[i]) + TraverseAll(cs[i + 1..]);
    assert |[n] + TraverseAll(cs[..i])| == start;
  }

  /** `traverseVisible`: like `traverse`, but a hidden node is skipped together
      with everything below it. */
  function TraverseVisible(n: Object3D): (r: seq<Object3D>)
    ensures forall x :: x in r ==> x.visible
    decreases n
  {
    if !n.visible then [] else [n] + TraverseVisibleAll(n.children)
  }

  function TraverseVisibleAll(cs: seq<Object3D>): (r: seq<Object3D>)
    ensures forall x :: x in r ==> x.visible
    decreases cs
  {
    if cs == [] then [] else TraverseVisible(cs[0]) + TraverseVisibleAll(cs[1..])
  }

  /** `traverseVisible` sees only nodes `traverse` sees, and none more often. */
  lemma {:induction false} TraverseVisibleWithinTraverse(n: Object3D)
    ensures multiset(TraverseVisible(n)) <= multiset(Traverse(n))
    decreases n
  {
    if n.visible {
      TraverseVisibleAllWithin(n.children);
    }
  }

  lemma {:induction false} TraverseVisibleAllWithin(cs: seq<Object3D>)
    ensures multiset(TraverseVisibleAll(cs)) <= multiset(TraverseAll(cs))
    decreases cs
  {
    if cs != [] {
      TraverseVisibleWithinTraverse(cs[0]);
      TraverseVisibleAllWithin(cs[1..]);
    }
  }

  /** Every node of the tree is visible. */
  predicate AllVisible(n: Object3D)
    decreases n
  {
    n.visible && forall i :: 0 <= i < |n.children| ==> AllVisible(n.children[i])
  }

  /** On a tree without hidden nodes `traverseVisible` is `traverse`. */
  lemma {:induction false} AllVisibleTraversesAll(n: Object3D)
    requires AllVisible(n)
    ensures TraverseVisible(n) == Traverse(n)
    decreases n
  {
    AllVisibleChildren(n.children);
  }

  lemma {:induction false} AllVisibleChildren(cs: seq<Object3D>)
    requires forall i :: 0 <= i < |cs| ==> AllVisible(cs[i])
    ensures TraverseVisibleAll(cs) == TraverseAll(cs)
    decreases cs
  {
    if cs != [] {
      AllVisibleTraversesAll(cs[0]);
      AllVisibleChildren(cs[1..]);
    }
  }

  lemma {:induction false} TraverseVisibleAllAppend(a: seq<Object3D>, b: seq<Object3D>)
    ensures TraverseVisibleAll(a + b) == TraverseVisibleAll(a) + TraverseVisibleAll(b)
    decreases a
  {
    if a == [] {
      assert a + b == b;
    } else {
      assert (a + b)[0] == a[0] && (a + b)[1..] == a[1..] + b;
      TraverseVisibleAllAppend(a[1..], b);
      calc {
        TraverseVisibleAll(a + b);
        TraverseVisible(a[0]) + TraverseVisibleAll(a[1..] + b);
        TraverseVisible(a[0]) + (TraverseVisibleAll(a[1..]) + TraverseVisibleAll(b));
        (TraverseVisible(a[0]) + TraverseVisibleAll(a[1..])) + TraverseVisibleAll(b);
        TraverseVisibleAll(a) + TraverseVisibleAll(b);
      }
    }
  }

  /** The ids of a sequence of nodes, in order. */
  function Ids(s: seq<Object3D>): (r: seq<int>)
    ensures |r| == |s| && forall k :: 0 <= k < |s| ==> r[k] == s[k].id
  {
    seq(|s|, k requires 0 <= k < |s| => s[k].id)
  }

  /** A hidden child contributes nothing to `traverseVisible`: the walk visits
      the same nodes, by id, as on the tree with that child and its subtree
      removed. */
  lemma {:induction false} HiddenChildSkipped(n: Object3D, i: int)
    requires 0 <= i < |n.children| && !n.children[i].visible
    ensures Ids(TraverseVisible(n)) == Ids(TraverseVisible(n.(children := n.children[..i] + n.children[i + 1..])))
  {
    var m := n.(children := n.children[..i] + n.children[i + 1..]);
    if n.visible {
      HiddenSkippedInList(n.children, i);
      assert TraverseVisible(n) == [n] + TraverseVisibleAll(m.children);
      assert TraverseVisible(m) == [m] + TraverseVisibleAll(m.children);
      assert m.id == n.id;
    }
  }

  lemma {:induction false} HiddenSkippedInList(cs: seq<Object3D>, i: int)
    requires 0 <= i < |cs| && !cs[i].visible
    ensures TraverseVisibleAll(cs) == TraverseVisibleAll(cs[..i] + cs[i + 1..])
  {
    var rest := [cs[i]] + cs[i + 1..];
    assert cs == cs[..i] + rest;
    TraverseVisibleAllAppend(cs[..i], rest);
    assert rest[0] == cs[i] && rest[1..] == cs[i + 1..];
    assert TraverseVisibleAll(rest) == TraverseVisibleAll(cs[i + 1..]);
    TraverseVisibleAllAppend(cs[..i], cs[i + 1..]);
  }

  /** Whether `path` (child indices from the root) leads to a node. */
  predicate ValidPath(root: Object3D, path: seq<int>)
    decreases |path|
  {
    path == [] || (0 <= path[0] < |root.children| && ValidPath(root.children[path[0]], path[1..]))
  }

  /** The node `path` leads to. */
  function NodeAt(root: Object3D, path: seq<int>): Object3D
    requires ValidPath(root, path)
    decreases |path|
  {
    if path == [] then root else NodeAt(root.children[path[0]], path[1..])
  }

  /** `traverseAncestors` on the node at `path`: the callback sees its parent,
      then the parent's parent, up to the root; the node itself is not visited. */
  function TraverseAncestors(root: Object3D, path: seq<int>): (r: seq<Object3D>)
    requires ValidPath(root, path)
    ensures |r| == |path|
    decreases |path|
  {
    if path == [] then [] else TraverseAncestors(root.children[path[0]], path[1..]) + [root]
  }

  lemma {:induction false} PrefixPath(root: Object3D, path: seq<int>, k: int)
    requires ValidPath(root, path) && 0 <= k <= |path|
    ensures ValidPath(root, path[..k])
    ensures path != [] && k >= 1 ==>
      ValidPath(root.children[path[0]], path[1..][..k - 1]) &&
      NodeAt(root, path[..k]) == NodeAt(root.children[path[0]], path[1..][..k - 1])
    decreases |path|
  {
    if k > 0 {
      assert path[..k][1..] == path[1..][..k - 1];
      PrefixPath(root.children[path[0]], path[1..], k - 1);
    }
  }

  /** The `j`-th node `traverseAncestors` visits is the one `j + 1` steps up:
      the node at the path with its last `j + 1` steps removed. */
  lemma {:induction false} AncestorsAreParentChain(root: Object3D, path: seq<int>, j: int)
    requires ValidPath(root, path) && 0 <= j < |path|
    ensures ValidPath(root, path[..|path| - 1 - j])
    ensures TraverseAncestors(root, path)[j] == NodeAt(root, path[..|path| - 1 - j])
    decreases |path|
  {
    PrefixPath(root, path, |path| - 1 - j);
    if j < |path| - 1 {
      AncestorsAreParentChain(root.children[path[0]], path[1..], j);
      assert path[1..][..|path[1..]| - 1 - j] == path[1..][..|path| - 1 - j - 1];
    } else {
      assert path[..0] == [];
    }
  }

  /** What `getObjectByProperty` compares: the `id` or the `name`. */
  datatype Property = Id(id: int) | Name(name: string)

  predicate Matches(n: Object3D, p: Property) {
    match p
    case Id(v) => n.id == v
    case Name(v) => n.name == v
  }

  /** `getObjectByProperty`: the node itself if it matches, otherwise the first
      answer found in the children's subtrees in order, or none. */
  function GetObjectByProperty(n: Object3D, p: Property): (r: Option<Object3D>)
    ensures r.Some? ==> Matches(r.value, p) && r.value in Traverse(n)
    ensures r.None? ==> forall x :: x in Traverse(n) ==> !Matches(x, p)
    decreases n
  {
    if Matches(n, p) then Some(n) else FirstInChildren(n.children, p)
  }

  function FirstInChildren(cs: seq<Object3D>, p: Property): (r: Option<Object3D>)
    ensures r.Some? ==> Matches(r.value, p) && r.value in TraverseAll(cs)
    ensures r.None? ==> forall x :: x in TraverseAll(cs) ==> !Matches(x, p)
    decreases cs
  {
    if cs == [] then None
    else
      match GetObjectByProperty(cs[0], p)
      case Some(o) => Some(o)
      case None => FirstInChildren(cs[1..], p)
  }

  /** The first element of `s` that matches, or none. */
  function FirstMatch(s: seq<Object3D>, p: Property): Option<Object3D> {
    if s == [] then None else if Matches(s[0], p) then Some(s[0]) else FirstMatch(s[1..], p)
  }

  lemma {:induction false} FirstMatchAppend(a: seq<Object3D>, b: seq<Object3D>, p: Property)
    ensures FirstMatch(a + b, p) == if FirstMatch(a, p).Some? then FirstMatch(a, p) else FirstMatch(b, p)
  {
    if a == [] {
      assert a + b == b;
    } else {
      assert (a + b)[0] == a[0] && (a + b)[1..] == a[1..] + b;
      FirstMatchAppend(a[1..], b, p);
    }
  }

  /** `getObjectByProperty` answers with the first match in `traverse` order. */
  lemma {:induction false} GetObjectByPropertyIsFirstInTraverse(n: Object3D, p: Property)
    ensures GetObjectByProperty(n, p) == FirstMatch(Traverse(n), p)
    decreases n
  {
    assert Traverse(n)[1..] == TraverseAll(n.children);
    FirstInChildrenIsFirst(n.children, p);
  }

  lemma {:induction false} FirstInChildrenIsFirst(cs: seq<Object3D>, p: Property)
    ensures FirstInChildren(cs, p) == FirstMatch(TraverseAll(cs), p)
    decreases cs
  {
    if cs != [] {
      GetObjectByPropertyIsFirstInTraverse(cs[0], p);
      FirstInChildrenIsFirst(cs[1..], p);
      FirstMatchAppend(Traverse(cs[0]), TraverseAll(cs[1..]), p);
    }
  }

  /** `getObjectById` / `getObjectByName`: `getObjectByProperty` on that field. */
  function GetObjectById(n: Object3D, id: int): (r: Option<Object3D>)
    ensures r.Some? ==> r.value.id == id
  {
    GetObjectByProperty(n, Id(id))
  }

  function GetObjectByName(n: Object3D, name: string): (r: Option<Object3D>)
    ensures r.Some? ==> r.value.name == name
  {
    GetObjectByProperty(n, Name(name))
  }
}
