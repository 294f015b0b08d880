/** The materialized memory files of one Space, as a map from relative paths to contents. */
module Files {
  import opened Wrappers

  // A path after the host's component parsing; only Normal components are safe inside a workspace.
  datatype Component = Normal(name: string) | CurDir | ParentDir | RootDir
  type Path = seq<Component>

  type Tree<C> = map<Path, C>

  predicate SafePath(path: Path) {
    path != [] && forall c | c in path :: c.Normal?
  }

  function Look<C>(tree: Tree<C>, path: Path): Option<C> {
    if path in tree then Some(tree[path]) else None
  }

  function Put<C>(tree: Tree<C>, path: Path, content: Option<C>): Tree<C> {
    match content
    case Some(value) => tree[path := value]
    case None => tree - {path}
  }

  // The two trees differ at most on the given paths.
  ghost predicate SameExcept<C(!new)>(left: Tree<C>, right: Tree<C>, paths: set<Path>) {
    forall p :: p !in paths ==> Look(left, p) == Look(right, p)
  }

  lemma LookPut<C>(tree: Tree<C>, path: Path, content: Option<C>, other: Path)
    ensures Look(Put(tree, path, content), other) == if other == path then content else Look(tree, other)
  {
  }

  // Trees are extensional: equal lookups everywhere mean equal trees.
  lemma LookDeterminesTree<C(!new)>(left: Tree<C>, right: Tree<C>)
    requires forall p :: Look(left, p) == Look(right, p)
    ensures left == right
  {
    forall p ensures p in left <==> p in right {
      assert Look(left, p) == Look(right, p);
    }
    assert left.Keys == right.Keys;
    forall p | p in left ensures left[p] == right[p] {
      assert Look(left, p) == Look(right, p);
    }
  }
}
