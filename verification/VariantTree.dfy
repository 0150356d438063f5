/** The tree of unions that stores a variant: how it is folded from a list, and how an index finds its way. */
module VariantTree {
  import opened Wrappers
  import opened Blocks

  /**
   * A node of the first pass holds one or two alternatives; a node of a later pass holds two nodes. The
   * storage of a variant adds one node above the tree, whose other member is never used.
   */
  datatype Node<T> = Leaf(first: T, second: Option<T>) | Union(a: Node<T>, b: Node<T>) | Storage(tree: Node<T>)

  /** During the first pass a list holds alternatives that are still to be paired, and nodes. */
  datatype Item<T> = Alternative(value: T) | Built(node: Node<T>)

  function ElemSize<T>(n: Node<T>): nat {
    match n
    case Leaf(_, second) => if second.Some? then 2 else 1
    case Union(a, b) => ElemSize(a) + ElemSize(b)
    case Storage(tree) => ElemSize(tree) + 0
  }

  /** The alternative that get finds at an index. */
  function Get<T>(n: Node<T>, index: nat): T
    requires index < ElemSize(n)
  {
    match n
    case Leaf(first, second) => if index == 0 then first else second.value
    case Union(a, b) => if index < ElemSize(a) then Get(a, index) else Get(b, index - ElemSize(a))
    case Storage(tree) => Get(tree, index)
  }

  // --- the fold ---------------------------------------------------------------------------------------

  /** Of a list in a pass, the first remaining items are still to be taken. */
  predicate InPass<T>(remaining: nat, items: seq<Item<T>>, firstPass: bool) {
    && 1 <= |items| && remaining <= |items| && (remaining == 0 ==> 2 <= |items|)
    && (forall i :: 0 <= i < |items| ==> (items[i].Alternative? <==> firstPass && i < remaining))
  }

  function Pair<T>(x: Item<T>, y: Item<T>): Node<T>
    requires x.Alternative? <==> y.Alternative?
  {
    if x.Alternative? then Leaf(x.value, Some(y.value)) else Union(x.node, y.node)
  }

  /** An odd item at the end of a pass. */
  function Single<T>(x: Item<T>): Node<T> {
    if x.Alternative? then Leaf(x.value, None) else x.node
  }

  function MakeTree<T>(remaining: nat, items: seq<Item<T>>, firstPass: bool): Node<T>
    requires InPass(remaining, items, firstPass)
    decreases if firstPass then 1 else 0, |items| - remaining / 2, remaining
  {
    if remaining >= 2 then
      var node := Pair(items[0], items[1]);
      if items[2..] == [] then node else MakeTree(remaining - 2, items[2..] + [Built(node)], firstPass)
    else if remaining == 1 then
      var node := Single(items[0]);
      if items[1..] == [] then node else MakeTree(0, items[1..] + [Built(node)], false)
    else MakeTree(|items|, items, false)
  }

  function Alternatives<T>(ts: seq<T>): (items: seq<Item<T>>)
    ensures |items| == |ts| && forall i :: 0 <= i < |ts| ==> items[i] == Alternative(ts[i])
  {
    seq(|ts|, i requires 0 <= i < |ts| => Alternative(ts[i]))
  }

  function MakeTreeUnion<T>(ts: seq<T>): Node<T>
    requires |ts| > 0
  {
    MakeTree(|ts|, Alternatives(ts), true)
  }

  // --- the leaves are the list, in order --------------------------------------------------------------

  function Leaves<T>(n: Node<T>): seq<T> {
    match n
    case Leaf(first, second) => if second.Some? then [first, second.value] else [first]
    case Union(a, b) => Leaves(a) + Leaves(b)
    case Storage(tree) => Leaves(tree)
  }

  function LeavesOf<T>(x: Item<T>): seq<T> {
    if x.Alternative? then [x.value] else Leaves(x.node)
  }

  function AllLeaves<T>(items: seq<Item<T>>): seq<T> {
    if items == [] then [] else LeavesOf(items[0]) + AllLeaves(items[1..])
  }

  lemma {:induction false} AllLeavesConcat<T>(x: seq<Item<T>>, y: seq<Item<T>>)
    ensures AllLeaves(x + y) == AllLeaves(x) + AllLeaves(y)
  {
    if x == [] {
      assert x + y == y;
    } else {
      AllLeavesConcat(x[1..], y);
      assert (x + y)[0] == x[0] && (x + y)[1..] == x[1..] + y;
      Associative(LeavesOf(x[0]), AllLeaves(x[1..]), AllLeaves(y));
    }
  }

  lemma AllLeavesOfOne<T>(x: Item<T>)
    ensures AllLeaves([x]) == LeavesOf(x)
  {
    assert [x][1..] == [];
  }

  /** In a pass, what has been built comes before what is still to be taken. */
  function InOrder<T>(remaining: nat, items: seq<Item<T>>): seq<T>
    requires remaining <= |items|
  {
    AllLeaves(items[remaining..]) + AllLeaves(items[..remaining])
  }

  /** Taking the first k items and appending a node of their leaves changes no order. */
  lemma TakenInOrder<T>(remaining: nat, items: seq<Item<T>>, k: nat, node: Node<T>)
    requires k <= remaining <= |items| && Leaves(node) == AllLeaves(items[..k])
    ensures InOrder(remaining - k, items[k..] + [Built(node)]) == InOrder(remaining, items)
  {
    hide AllLeaves, LeavesOf, Leaves;
    var rest := items[k..] + [Built(node)];
    var taken, left, done := items[..k], items[k..remaining], items[remaining..];
    assert rest[remaining - k..] == done + [Built(node)] && rest[..remaining - k] == left;
    assert items[..remaining] == taken + left;
    AllLeavesConcat(done, [Built(node)]);
    BuiltLeaves(node);
    AllLeavesConcat(taken, left);
    Associative(AllLeaves(done), AllLeaves(taken), AllLeaves(left));
  }

  lemma BuiltLeaves<T>(node: Node<T>)
    ensures AllLeaves([Built(node)]) == Leaves(node)
  {
    AllLeavesOfOne(Built(node));
  }

  lemma PairLeaves<T>(items: seq<Item<T>>)
    requires |items| >= 2 && (items[0].Alternative? <==> items[1].Alternative?)
    ensures Leaves(Pair(items[0], items[1])) == AllLeaves(items[..2])
  {
    assert items[..2] == [items[0]] + [items[1]];
    AllLeavesConcat([items[0]], [items[1]]);
    AllLeavesOfOne(items[0]);
    AllLeavesOfOne(items[1]);
  }

  lemma SingleLeaves<T>(items: seq<Item<T>>)
    requires |items| >= 1
    ensures Leaves(Single(items[0])) == AllLeaves(items[..1])
  {
    assert items[..1] == [items[0]];
    AllLeavesOfOne(items[0]);
  }

  lemma {:induction false} TreeKeepsOrder<T>(remaining: nat, items: seq<Item<T>>, firstPass: bool)
    requires InPass(remaining, items, firstPass)
    ensures Leaves(MakeTree(remaining, items, firstPass)) == InOrder(remaining, items)
    decreases if firstPass then 1 else 0, |items| - remaining / 2, remaining
  {
    hide InOrder, Pair, Single;
    if remaining >= 2 {
      PairLeaves(items);
      var node := Pair(items[0], items[1]);
      TakenInOrder(remaining, items, 2, node);
      if items[2..] == [] {
        BuiltAlone(node);
        assert items[2..] + [Built(node)] == [Built(node)];
      } else {
        TreeKeepsOrder(remaining - 2, items[2..] + [Built(node)], firstPass);
      }
    } else if remaining == 1 {
      SingleLeaves(items);
      var node := Single(items[0]);
      TakenInOrder(remaining, items, 1, node);
      if items[1..] == [] {
        BuiltAlone(node);
        assert items[1..] + [Built(node)] == [Built(node)];
      } else {
        TreeKeepsOrder(0, items[1..] + [Built(node)], false);
      }
    } else {
      NewPass(items);
      TreeKeepsOrder(|items|, items, false);
    }
  }

  lemma BuiltAlone<T>(node: Node<T>)
    ensures InOrder(0, [Built(node)]) == Leaves(node)
  {
    AllLeavesOfOne(Built(node));
    assert [Built(node)][0..] == [Built(node)] && [Built(node)][..0] == [];
  }

  lemma NewPass<T>(items: seq<Item<T>>)
    ensures InOrder(|items|, items) == InOrder(0, items) == AllLeaves(items)
  {
    assert items[|items|..] == [] && items[..|items|] == items && items[0..] == items && items[..0] == [];
  }

  lemma {:induction false} LeavesOfAlternatives<T>(ts: seq<T>)
    ensures AllLeaves(Alternatives(ts)) == ts
  {
    if ts != [] {
      LeavesOfAlternatives(ts[1..]);
      assert Alternatives(ts)[1..] == Alternatives(ts[1..]);
    }
  }

  /** Following the sizes of the subtrees leads to the leaf with the given number. */
  lemma {:induction false} GetFindsLeaf<T>(n: Node<T>, index: nat)
    requires index < ElemSize(n)
    ensures ElemSize(n) == |Leaves(n)| && Get(n, index) == Leaves(n)[index]
  {
    SizeIsLeaves(n);
    match n
    case Leaf(_, _) =>
    case Union(a, b) =>
      SizeIsLeaves(a);
      if index < ElemSize(a) {
        GetFindsLeaf(a, index);
      } else {
        GetFindsLeaf(b, index - ElemSize(a));
      }
    case Storage(tree) => GetFindsLeaf(tree, index);
  }

  lemma {:induction false} SizeIsLeaves<T>(n: Node<T>)
    ensures ElemSize(n) == |Leaves(n)|
  {
    match n
    case Leaf(_, _) =>
    case Union(a, b) =>
      SizeIsLeaves(a);
      SizeIsLeaves(b);
    case Storage(tree) => SizeIsLeaves(tree);
  }

  /** The tree of a list has as many alternatives as the list, and get reaches each at its index. */
  lemma GetReachesAlternative<T>(ts: seq<T>, index: nat)
    requires index < |ts|
    ensures ElemSize(Storage(MakeTreeUnion(ts))) == |ts| && Get(Storage(MakeTreeUnion(ts)), index) == ts[index]
    ensures Leaves(MakeTreeUnion(ts)) == ts
  {
    TreeKeepsOrder(|ts|, Alternatives(ts), true);
    NewPass(Alternatives(ts));
    LeavesOfAlternatives(ts);
    SizeIsLeaves(MakeTreeUnion(ts));
    GetFindsLeaf(Storage(MakeTreeUnion(ts)), index);
  }

  // --- the way to an alternative ----------------------------------------------------------------------

  /** The members that construction at an index initializes, from the top: true for the first of two. */
  function Route<T>(n: Node<T>, index: nat): seq<bool>
    requires index < ElemSize(n)
  {
    match n
    case Leaf(_, _) => [index == 0]
    case Union(a, b) => if index < ElemSize(a) then [true] + Route(a, index)
        else [false] + Route(b, index - ElemSize(a))
    case Storage(tree) => [true] + Route(tree, index)
  }

  /** The alternative that the members lead to, if it is one. */
  function MemberAt<T>(n: Node<T>, route: seq<bool>): Option<T> {
    if route == [] then None else
    match n
    case Leaf(first, second) => if |route| > 1 then None else if route[0] then Some(first) else second
    case Union(a, b) => MemberAt(if route[0] then a else b, route[1..])
    case Storage(tree) => if route[0] then MemberAt(tree, route[1..]) else None
  }

  /** What is constructed at an index is what get finds there. */
  lemma {:induction false} RouteReachesGet<T>(n: Node<T>, index: nat)
    requires index < ElemSize(n)
    ensures MemberAt(n, Route(n, index)) == Some(Get(n, index)) && |Route(n, index)| <= Depth(n)
  {
    var route := Route(n, index);
    match n
    case Leaf(_, _) =>
    case Union(a, b) =>
      if index < ElemSize(a) {
        RouteReachesGet(a, index);
        assert route[1..] == Route(a, index);
      } else {
        RouteReachesGet(b, index - ElemSize(a));
        assert route[1..] == Route(b, index - ElemSize(a));
      }
    case Storage(tree) =>
      RouteReachesGet(tree, index);
      assert route[1..] == Route(tree, index);
  }

  /** Different indices lead to different members, even for alternatives that are equal. */
  lemma {:induction false} RoutesDiffer<T>(n: Node<T>, i: nat, j: nat)
    requires i < ElemSize(n) && j < ElemSize(n) && i != j
    ensures Route(n, i) != Route(n, j)
  {
    match n
    case Leaf(_, _) =>
    case Union(a, b) =>
      var r, s := Route(n, i), Route(n, j);
      if i < ElemSize(a) && j < ElemSize(a) {
        RoutesDiffer(a, i, j);
        assert r[1..] == Route(a, i) && s[1..] == Route(a, j);
      } else if i >= ElemSize(a) && j >= ElemSize(a) {
        RoutesDiffer(b, i - ElemSize(a), j - ElemSize(a));
        assert r[1..] == Route(b, i - ElemSize(a)) && s[1..] == Route(b, j - ElemSize(a));
      } else {
        assert r[0] != s[0];
      }
    case Storage(tree) =>
      RoutesDiffer(tree, i, j);
      assert Route(n, i)[1..] == Route(tree, i) && Route(n, j)[1..] == Route(tree, j);
  }

  // --- the tree is not deep ---------------------------------------------------------------------------

  function Depth<T>(n: Node<T>): nat {
    match n
    case Leaf(_, _) => 1
    case Union(a, b) => 1 + Max(Depth(a), Depth(b))
    case Storage(tree) => 1 + Depth(tree)
  }

  function DepthOf<T>(x: Item<T>): nat {
    if x.Alternative? then 0 else Depth(x.node)
  }

  /** How often a list must be halved, rounding up, until one item is left. */
  function CeilLog2(n: nat): (k: nat) {
    if n <= 1 then 0 else 1 + CeilLog2(n - n / 2)
  }

  function TwoTo(k: nat): (p: nat)
    ensures p > 0
  {
    if k == 0 then 1 else 2 * TwoTo(k - 1)
  }

  /** That is the least exponent of two that reaches n. */
  lemma {:induction false} CeilLog2IsLeast(n: nat, k: nat)
    ensures n <= TwoTo(k) <==> CeilLog2(n) <= k
  {
    if n > 1 && k > 0 {
      CeilLog2IsLeast(n - n / 2, k - 1);
    }
  }

  /** In a pass over items no deeper than d, with built nodes no deeper than d + 1. */
  lemma {:induction false} DepthInPass<T>(remaining: nat, items: seq<Item<T>>, firstPass: bool, d: nat)
    requires InPass(remaining, items, firstPass)
    requires forall i :: 0 <= i < |items| ==> DepthOf(items[i]) <= if i < remaining then d else d + 1
    ensures Depth(MakeTree(remaining, items, firstPass)) <= d + 1 + CeilLog2(|items| - remaining / 2)
    decreases if firstPass then 1 else 0, |items| - remaining / 2, remaining
  {
    if remaining >= 2 {
      var node := Pair(items[0], items[1]);
      assert Depth(node) <= d + 1;
      if items[2..] != [] {
        DepthInPass(remaining - 2, items[2..] + [Built(node)], firstPass, d);
      }
    } else if remaining == 1 {
      var node := Single(items[0]);
      assert Depth(node) <= d + 1;
      if items[1..] != [] {
        DepthInPass(0, items[1..] + [Built(node)], false, d);
      }
    } else {
      DepthInPass(|items|, items, false, d + 1);
    }
  }

  /** A tree of n alternatives has at most as many levels as n has bits, and at least one. */
  lemma DepthIsLogarithmic<T>(ts: seq<T>)
    requires |ts| > 0
    ensures Depth(MakeTreeUnion(ts)) <= Max(1, CeilLog2(|ts|))
    ensures Depth(Storage(MakeTreeUnion(ts))) <= Max(1, CeilLog2(|ts|)) + 1
  {
    hide MakeTree;
    DepthInPass(|ts|, Alternatives(ts), true, 0);
    assert |ts| > 1 ==> CeilLog2(|ts|) == 1 + CeilLog2(|ts| - |ts| / 2);
  }
}
