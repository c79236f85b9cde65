/** The indented list of the components of an objective pattern: a preorder walk that writes
    each component's depth into the component. */
module ComponentTree {

  datatype Tree<T> = Tree(node: T, children: seq<Tree<T>>)

  /** The nodes in preorder, each with its depth. */
  function Flatten<T>(forest: seq<Tree<T>>, deep: nat): seq<(T, nat)>
    decreases forest
  {
    if forest == [] then
      []
    else
      [(forest[0].node, deep)] + (Flatten(forest[0].children, deep + 1) + Flatten(forest[1..], deep))
  }

  // ------------------------------------------------------------ the walk, in place

  /** What the writes of (component, depth) pairs leave, in order, of the depths. */
  function Written(depths: map<int, nat>, xs: seq<(int, nat)>): map<int, nat> {
    if xs == [] then depths else Written(depths, xs[..|xs| - 1])[xs[|xs| - 1].0 := xs[|xs| - 1].1]
  }

  function NodesOf<T>(xs: seq<(T, nat)>): (nodes: seq<T>)
    ensures |nodes| == |xs| && forall i :: 0 <= i < |xs| ==> nodes[i] == xs[i].0
  {
    seq(|xs|, i requires 0 <= i < |xs| => xs[i].0)
  }

  /** The list that is being built, and the attribute `deep` of the components, by their ids. */
  datatype Walked = Walked(list: seq<int>, deep: map<int, nat>)

  function Walk(w: Walked, forest: seq<Tree<int>>, depth: nat): Walked
    decreases forest
  {
    if forest == [] then w else WalkTree(Walk(w, forest[..|forest| - 1], depth), forest[|forest| - 1], depth)
  }

  function WalkTree(w: Walked, t: Tree<int>, depth: nat): Walked
    decreases t
  {
    Walk(Walked(w.list + [t.node], w.deep[t.node := depth]), t.children, depth + 1)
  }

  class Brick {
    var flattenedTree: seq<int>
    var deep: map<int, nat>

    constructor ()
      ensures flattenedTree == [] && deep == map[]
    {
      flattenedTree, deep := [], map[];
    }

    ghost function Now(): Walked
      reads this
    {
      Walked(flattenedTree, deep)
    }

    /** explore_tree() */
    method ExploreTree(components: seq<Tree<int>>, depth: nat)
      modifies this
      ensures Now() == Walk(old(Now()), components, depth)
      decreases components
    {
      for n := 0 to |components|
        invariant Now() == Walk(old(Now()), components[..n], depth)
      {
        assert components[..n + 1][..n] == components[..n];
        var comp := components[n];
        deep := deep[comp.node := depth];
        flattenedTree := flattenedTree + [comp.node];
        ExploreTree(comp.children, depth + 1);
      }
      assert components[..|components|] == components;
    }

    /** _get_flattened_tree(): the template reads every component of the list with its depth. */
    method GetFlattenedTree(components: seq<Tree<int>>) returns (shown: seq<int>)
      requires NoRepeat(Flatten(components, 0))
      modifies this
      ensures |shown| == |Flatten(components, 0)|
      ensures forall i :: 0 <= i < |shown| ==>
          shown[i] in deep && (shown[i], deep[shown[i]]) == Flatten(components, 0)[i]
    {
      flattenedTree := [];
      ghost var before := Now();
      ExploreTree(components, 0);
      shown := flattenedTree;
      WalkMeansFlatten(before, components, 0);
      WrittenReads(before.deep, Flatten(components, 0));
    }
  }

  /** No component comes twice. */
  ghost predicate NoRepeat<T>(xs: seq<(T, nat)>) {
    forall i, j :: 0 <= i < j < |xs| ==> xs[i].0 != xs[j].0
  }

  lemma {:induction false} WrittenConcat(depths: map<int, nat>, xs: seq<(int, nat)>, ys: seq<(int, nat)>)
    ensures Written(depths, xs + ys) == Written(Written(depths, xs), ys)
  {
    if ys == [] {
      assert xs + ys == xs;
    } else {
      assert (xs + ys)[..|xs + ys| - 1] == xs + ys[..|ys| - 1];
      WrittenConcat(depths, xs, ys[..|ys| - 1]);
    }
  }

  /** When no component comes twice, no depth is overwritten. */
  lemma {:induction false} WrittenReads(depths: map<int, nat>, xs: seq<(int, nat)>)
    requires NoRepeat(xs)
    ensures forall i :: 0 <= i < |xs| ==> xs[i].0 in Written(depths, xs) && Written(depths, xs)[xs[i].0] == xs[i].1
  {
    if xs != [] {
      WrittenReads(depths, xs[..|xs| - 1]);
    }
  }

  lemma {:induction false} FlattenConcat<T>(a: seq<Tree<T>>, b: seq<Tree<T>>, deep: nat)
    ensures Flatten(a + b, deep) == Flatten(a, deep) + Flatten(b, deep)
  {
    if a == [] {
      assert a + b == b;
    } else {
      assert (a + b)[1..] == a[1..] + b;
      FlattenConcat(a[1..], b, deep);
    }
  }

  lemma FlattenOneMore<T>(forest: seq<Tree<T>>, n: nat, deep: nat)
    requires n < |forest|
    ensures Flatten(forest[..n + 1], deep)
         == Flatten(forest[..n], deep) + ([(forest[n].node, deep)] + Flatten(forest[n].children, deep + 1))
  {
    assert [forest[n]][1..] == [];
    assert Flatten([forest[n]], deep) == [(forest[n].node, deep)] + Flatten(forest[n].children, deep + 1);
    assert forest[..n + 1] == forest[..n] + [forest[n]];
    FlattenConcat(forest[..n], [forest[n]], deep);
  }

  /** From `w` to `w'`, the components of the list `xs` were appended, and their depths written
      in that order. */
  ghost predicate Appended(w: Walked, w': Walked, xs: seq<(int, nat)>) {
    w'.list == w.list + NodesOf(xs) && w'.deep == Written(w.deep, xs)
  }

  lemma AppendedAround(w: Walked, w1: Walked, w2: Walked, before: seq<(int, nat)>, x: (int, nat),
      below: seq<(int, nat)>)
    requires Appended(w, w1, before)
    requires Appended(Walked(w1.list + [x.0], w1.deep[x.0 := x.1]), w2, below)
    ensures Appended(w, w2, before + ([x] + below))
  {
    NodesAround(before, x, below);
    WrittenAround(w.deep, before, x, below);
  }

  /** The walk appends the components in preorder and writes the depths in that order. */
  lemma {:induction false} WalkMeansFlatten(w: Walked, forest: seq<Tree<int>>, depth: nat)
    ensures Appended(w, Walk(w, forest, depth), Flatten(forest, depth))
    decreases forest
  {
    if forest != [] {
      var n := |forest| - 1;
      var t, x: (int, nat) := forest[n], (forest[n].node, depth);
      var w1 := Walk(w, forest[..n], depth);
      var w2 := Walked(w1.list + [t.node], w1.deep[t.node := depth]);
      WalkMeansFlatten(w, forest[..n], depth);
      WalkMeansFlatten(w2, t.children, depth + 1);
      FlattenOneMore(forest, n, depth);
      assert forest[..n + 1] == forest;
      AppendedAround(w, w1, Walk(w2, t.children, depth + 1), Flatten(forest[..n], depth), x,
                     Flatten(t.children, depth + 1));
    }
  }

  lemma NodesAround(before: seq<(int, nat)>, x: (int, nat), below: seq<(int, nat)>)
    ensures NodesOf(before + ([x] + below)) == NodesOf(before) + [x.0] + NodesOf(below)
  {
  }

  lemma WrittenAround(depths: map<int, nat>, before: seq<(int, nat)>, x: (int, nat), below: seq<(int, nat)>)
    ensures Written(depths, before + ([x] + below)) == Written(Written(depths, before)[x.0 := x.1], below)
  {
    var xs := [x];
    assert xs[..0] == [];
    WrittenConcat(depths, before, xs + below);
    WrittenConcat(Written(depths, before), xs, below);
  }

  // ------------------------------------------------------------ reading the list back

  /** Takes the trees at depth `deep` from the front of the list, and returns what is left. */
  function Rebuild<T>(xs: seq<(T, nat)>, deep: nat): (r: (seq<Tree<T>>, seq<(T, nat)>))
    ensures |r.1| <= |xs|
    decreases |xs|
  {
    if xs == [] || xs[0].1 != deep then
      ([], xs)
    else
      var (children, afterChildren) := Rebuild(xs[1..], deep + 1);
      var (siblings, rest) := Rebuild(afterChildren, deep);
      ([Tree(xs[0].0, children)] + siblings, rest)
  }

  /** Depths start at `deep` or above it and rise by at most one from each to the next. */
  predicate Stepwise<T>(xs: seq<(T, nat)>, deep: nat) {
    && (xs != [] ==> xs[0].1 <= deep)
    && forall i :: 0 < i < |xs| ==> xs[i].1 <= xs[i - 1].1 + 1
  }

  lemma Regroup<T>(x: T, a: seq<T>, b: seq<T>, c: seq<T>)
    ensures [x] + (a + b) + c == [x] + (a + (b + c))
    ensures ([x] + (a + b) + c)[1..] == a + (b + c)
  {
  }

  /** Rebuilding inverts flattening. */
  lemma {:induction false} RebuildFlattened<T>(forest: seq<Tree<T>>, deep: nat, rest: seq<(T, nat)>)
    requires rest != [] ==> rest[0].1 < deep
    ensures Rebuild(Flatten(forest, deep) + rest, deep) == (forest, rest)
    decreases forest
  {
    if forest == [] {
      assert Flatten(forest, deep) + rest == rest;
    } else {
      var below, siblings := Flatten(forest[0].children, deep + 1), Flatten(forest[1..], deep);
      Regroup((forest[0].node, deep), below, siblings, rest);
      RebuildFlattened(forest[0].children, deep + 1, siblings + rest);
      RebuildFlattened(forest[1..], deep, rest);
      assert forest == [Tree(forest[0].node, forest[0].children)] + forest[1..];
    }
  }

  lemma FlattenTree<T>(node: T, children: seq<Tree<T>>, siblings: seq<Tree<T>>, deep: nat)
    ensures Flatten([Tree(node, children)] + siblings, deep)
         == [(node, deep)] + (Flatten(children, deep + 1) + Flatten(siblings, deep))
  {
    assert ([Tree(node, children)] + siblings)[1..] == siblings;
  }

  /** Flattening inverts rebuilding, for every list of depths whatever. */
  lemma {:induction false} FlattenRebuilt<T>(xs: seq<(T, nat)>, deep: nat)
    ensures Flatten(Rebuild(xs, deep).0, deep) + Rebuild(xs, deep).1 == xs
    decreases |xs|
  {
    if xs != [] && xs[0].1 == deep {
      var (children, afterChildren) := Rebuild(xs[1..], deep + 1);
      var (siblings, rest) := Rebuild(afterChildren, deep);
      FlattenRebuilt(xs[1..], deep + 1);
      FlattenRebuilt(afterChildren, deep);
      FlattenTree(xs[0].0, children, siblings, deep);
      Regroup(xs[0], Flatten(children, deep + 1), Flatten(siblings, deep), rest);
    }
  }

  lemma {:induction false} FlattenIsStepwise<T>(forest: seq<Tree<T>>, deep: nat)
    ensures Stepwise(Flatten(forest, deep), deep)
    ensures forall i :: 0 <= i < |Flatten(forest, deep)| ==> Flatten(forest, deep)[i].1 >= deep
    ensures forest != [] ==> Flatten(forest, deep) != [] && Flatten(forest, deep)[0].1 == deep
    decreases forest
  {
    if forest != [] {
      FlattenIsStepwise(forest[0].children, deep + 1);
      FlattenIsStepwise(forest[1..], deep);
    }
  }

  lemma {:induction false} RebuildTakesAll<T>(xs: seq<(T, nat)>, deep: nat)
    requires Stepwise(xs, deep)
    ensures var rest := Rebuild(xs, deep).1;
            Stepwise(rest, deep) && (rest != [] ==> rest[0].1 < deep)
    decreases |xs|
  {
    if xs != [] && xs[0].1 == deep {
      RebuildTakesAll(xs[1..], deep + 1);
      RebuildTakesAll(Rebuild(xs[1..], deep + 1).1, deep);
    }
  }

  /** The lists that come from a forest are exactly those whose depths start at zero and rise
      by at most one, and each of them comes from one forest only. */
  lemma ListsAndForestsCorrespond<T>(xs: seq<(T, nat)>)
    ensures (exists forest :: Flatten(forest, 0) == xs) <==> Stepwise(xs, 0)
    ensures forall f, g :: Flatten(f, 0) == xs && Flatten(g, 0) == xs ==> f == g
  {
    if Stepwise(xs, 0) {
      RebuildTakesAll(xs, 0);
      FlattenRebuilt(xs, 0);
      assert Flatten(Rebuild(xs, 0).0, 0) == xs;
    }
    forall f | Flatten(f, 0) == xs
      ensures Stepwise(xs, 0) && Rebuild(xs, 0).0 == f
    {
      FlattenIsStepwise(f, 0);
      RebuildFlattened(f, 0, []);
      assert Flatten(f, 0) + [] == xs;
    }
  }

  /** A component with two children, and one beside it. */
  lemma FlattenedExample(a: int, b: int, c: int, d: int)
    ensures Flatten([Tree(a, [Tree(b, []), Tree(c, [])]), Tree(d, [])], 0) == [(a, 0), (b, 1), (c, 1), (d, 0)]
  {
    var children := [Tree(b, []), Tree(c, [])];
    assert children[1..] == [Tree(c, [])];
    assert Flatten([Tree(c, [])], 1) == [(c, 1)];
    assert Flatten(children, 1) == [(b, 1), (c, 1)];
    var forest := [Tree(a, children), Tree(d, [])];
    assert forest[1..] == [Tree(d, [])];
    assert Flatten([Tree(d, [])], 0) == [(d, 0)];
  }
}
