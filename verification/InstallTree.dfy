/** The install tree: how the install list grows it, and what every grown tree is like. */
module InstallTree {
  import opened Words
  import opened Paths

  datatype Body =
    | Dir
    | File(src: seq<byte>)
    | Link(target: seq<byte>)
    | Hardlink(other: Path)
    | SetSpec(name: seq<byte>)

  type OwnBody = b: Body | !b.Hardlink? witness Dir

  datatype Installed = Installed(body: Body, mode: u32, uid: u32, gid: u32, implicit: bool)

  type Tree = map<Path, Installed>

  const IMPLICIT_DIR: Installed := Installed(Dir, 0x1ed, 0, 0, true)

  function OrInsert(tree: Tree, p: Path): Tree {
    if p in tree then tree else tree[p := IMPLICIT_DIR]
  }

  /** The directories above `path`, made where missing. */
  function WithParents(tree: Tree, path: Path): Tree
    decreases |path|
  {
    match Parent(path)
    case None => tree
    case Some(up) => WithParents(OrInsert(tree, up), up)
  }

  function WithAncestors(tree: Tree, path: Path): Tree {
    if path == [] then WithParents(tree, path) else OrInsert(WithParents(tree, path), [])
  }

  datatype Verdict = Take | Keep | Refuse

  /** What becomes of a second entry for a path. */
  function Judge(was: Installed, item: Installed): Verdict {
    if was.implicit && item.body.Dir? then Take
    else if was.body.Dir? && item.body.Dir? && item.implicit then Keep
    else Refuse
  }

  /** The tree after `install_insert`, or `None` where it panics. */
  function Inserted(tree: Tree, path: Path, item: Installed): Option<Tree> {
    var t := WithAncestors(tree, path);
    if path !in t then Some(t[path := item])
    else match Judge(t[path], item)
      case Take => Some(t[path := item])
      case Keep => Some(t)
      case Refuse => None
  }

  /** What the list's entries ask for: a new item (implicit only for generated directories), or a
      second name for an installed one. */
  datatype Line =
    | Plain(path: Path, body: OwnBody, mode: u32, uid: u32, gid: u32)
    | GeneratedDir(path: Path, uid: u32, gid: u32)
    | SecondName(path: Path, other: Path)

  function Item(tree: Tree, e: Line): Installed
    requires e.SecondName? ==> e.other in tree
  {
    match e
    case Plain(_, body, mode, uid, gid) => Installed(body, mode, uid, gid, false)
    case GeneratedDir(_, uid, gid) => Installed(Dir, 0x1ed, uid, gid, true)
    case SecondName(_, other) => Installed(Hardlink(other), tree[other].mode, tree[other].uid, tree[other].gid, false)
  }

  function Step(tree: Tree, e: Line): Option<Tree> {
    if e.SecondName? && e.other !in tree then None else Inserted(tree, e.path, Item(tree, e))
  }

  /** The tree after the first `n` entries. */
  function Run(tree: Tree, list: seq<Line>, n: nat): Option<Tree>
    requires n <= |list|
  {
    if n == 0 then Some(tree)
    else match Run(tree, list, n - 1)
      case None => None
      case Some(t) => Step(t, list[n - 1])
  }

  lemma {:induction false} RunStops(tree: Tree, list: seq<Line>, k: nat, n: nat)
    requires k <= n <= |list| && Run(tree, list, k).None?
    ensures Run(tree, list, n).None?
  {
    if k < n {
      RunStops(tree, list, k, n - 1);
    }
  }

  lemma {:induction false} RunNext(tree: Tree, list: seq<Line>, n: nat, t: Tree)
    requires n < |list| && Run(tree, list, n) == Some(t)
    ensures Run(tree, list, n + 1) == Step(t, list[n])
    ensures Step(t, list[n]).None? ==> Run(tree, list, |list|).None?
  {
    if Step(t, list[n]).None? {
      RunStops(tree, list, n + 1, |list|);
    }
  }

  /** The tree the install list is read into. */
  class List {
    var tree: Tree

    constructor ()
      ensures tree == map[]
    {
      tree := map[];
    }

    /** `install_insert`; false where it panics. */
    method InstallInsert(path: Path, item: Installed) returns (ok: bool)
      modifies this
      ensures ok == Inserted(old(tree), path, item).Some?
      ensures ok ==> tree == Inserted(old(tree), path, item).value
    {
      var parent := path;
      while Parent(parent).Some?
        invariant WithParents(tree, parent) == WithParents(old(tree), path)
        decreases |parent|
      {
        parent := Parent(parent).value;
        tree := OrInsert(tree, parent);
      }
      if path != [] {
        tree := OrInsert(tree, []);
      }
      if path in tree {
        var verdict := Judge(tree[path], item);
        if verdict == Keep {
          return true;
        }
        if verdict == Refuse {
          return false;
        }
      }
      tree := tree[path := item];
      return true;
    }

    /** One entry of the list. */
    method Add(e: Line) returns (ok: bool)
      modifies this
      ensures ok == Step(old(tree), e).Some?
      ensures ok ==> tree == Step(old(tree), e).value
    {
      if e.SecondName? && e.other !in tree {
        return false;
      }
      ok := InstallInsert(e.path, Item(tree, e));
    }

    /** `read_install_list`, over the list's entries in order. */
    method Read(list: seq<Line>) returns (ok: bool)
      modifies this
      ensures ok == Run(old(tree), list, |list|).Some?
      ensures ok ==> tree == Run(old(tree), list, |list|).value
    {
      for n := 0 to |list|
        invariant Run(old(tree), list, n) == Some(tree)
      {
        RunNext(old(tree), list, n, tree);
        var added := Add(list[n]);
        if !added {
          return false;
        }
      }
      return true;
    }
  }

  // ---- What a step keeps ----

  /** Nothing is lost, and what was explicit is unchanged. */
  ghost predicate Grows(t: Tree, t': Tree) {
    forall p :: p in t ==> p in t' && (!t[p].implicit ==> t'[p] == t[p])
  }

  /** What the parents loop adds: the paths above, as implicit directories. */
  lemma {:induction false} ParentsAdded(tree: Tree, path: Path)
    ensures forall p :: p in tree ==> p in WithParents(tree, path) && WithParents(tree, path)[p] == tree[p]
    ensures forall p :: p in WithParents(tree, path) <==> p in tree || p in Above(path)
    ensures forall p :: p in WithParents(tree, path) && p !in tree ==> WithParents(tree, path)[p] == IMPLICIT_DIR
    decreases |path|
  {
    if Parent(path).Some? {
      ParentsAdded(OrInsert(tree, Parent(path).value), Parent(path).value);
    }
  }

  /** An accepted insert adds exactly the path and those above it. */
  lemma {:induction false} InsertedKeys(tree: Tree, path: Path, item: Installed)
    requires Inserted(tree, path, item).Some?
    ensures var t := Inserted(tree, path, item).value;
            forall p :: p in t <==> p in tree || p == path || p in Above(path) || p == []
  {
    ParentsAdded(tree, path);
  }

  /** Whatever an insert finds stays, and stays as it was if explicit; what it makes unasked is an
      implicit directory. */
  lemma {:induction false} InsertedEntries(tree: Tree, path: Path, item: Installed)
    requires Inserted(tree, path, item).Some?
    ensures var t := Inserted(tree, path, item).value;
            && Grows(tree, t)
            && (forall p :: p in t && p != path ==> t[p] == if p in tree then tree[p] else IMPLICIT_DIR)
            && path in t && (path in tree ==> item.body.Dir? && t[path].body.Dir?)
            && (path !in tree ==> t[path] == item)
            && (!item.body.Dir? ==> t[path] == item)
            && (t[path].implicit ==> t[path].body.Dir? || t[path] == item)
  {
    ParentsAdded(tree, path);
  }

  /** Exactly when an insert is refused, and what stands at the path when it isn't: the entry asked for,
      or the directory already there if the one asked for is implicit. */
  lemma {:induction false} InsertDecides(tree: Tree, path: Path, item: Installed)
    ensures Inserted(tree, path, item).None? <==>
              && path in tree
              && !(tree[path].implicit && item.body.Dir?)
              && !(tree[path].body.Dir? && item.body.Dir? && item.implicit)
    ensures Inserted(tree, path, item).Some? ==>
              && path in Inserted(tree, path, item).value
              && Inserted(tree, path, item).value[path] ==
                 if path in tree && !tree[path].implicit then tree[path] else item
  {
    ParentsAdded(tree, path);
  }

  /** What every tree read from a list satisfies. */
  ghost predicate Good(t: Tree) {
    && Closed(t.Keys)
    && (forall p :: p in t && t[p].implicit ==> t[p].body.Dir?)
    && (forall p :: p in t && t[p].body.Hardlink? ==> LinkKept(t, p))
  }

  /** A second name has its target's mode and owner, unless the target is a directory. */
  ghost predicate LinkKept(t: Tree, p: Path)
    requires p in t && t[p].body.Hardlink?
  {
    var other := t[p].body.other;
    && other in t
    && (!t[other].body.Dir? ==> t[other].mode == t[p].mode && t[other].uid == t[p].uid && t[other].gid == t[p].gid)
  }

  lemma {:induction false} InsertKeepsClosed(tree: Tree, path: Path, item: Installed)
    requires Closed(tree.Keys) && Inserted(tree, path, item).Some?
    ensures Closed(Inserted(tree, path, item).value.Keys)
  {
    InsertedKeys(tree, path, item);
    var t := Inserted(tree, path, item).value;
    forall p | p in t.Keys
      ensures Above(p) <= t.Keys && [] in t.Keys
    {
      if p !in tree {
        forall q | q in Above(p)
          ensures q in t.Keys
        {
          if p in Above(path) {
            AboveIsPrefixes(path, p);
            AboveIsPrefixes(p, q);
            AboveIsPrefixes(path, q);
          }
        }
      }
    }
  }

  lemma {:induction false} LinkStaysKept(tree: Tree, t: Tree, p: Path, path: Path)
    requires p in tree && tree[p].body.Hardlink? && LinkKept(tree, p)
    requires forall q :: q in tree && q != path ==> q in t && t[q] == tree[q]
    requires path in tree ==> path in t && t[path].body.Dir?
    requires p in t && t[p] == tree[p]
    ensures LinkKept(t, p)
  {
  }

  lemma {:induction false} StepKeepsLinks(tree: Tree, e: Line, p: Path)
    requires Good(tree) && Step(tree, e).Some?
    requires p in Step(tree, e).value && Step(tree, e).value[p].body.Hardlink?
    ensures LinkKept(Step(tree, e).value, p)
  {
    var item, t := Item(tree, e), Step(tree, e).value;
    InsertedEntries(tree, e.path, item);
    if p != e.path {
      LinkStaysKept(tree, t, p, e.path);
    }
  }

  lemma {:induction false} StepKeepsGood(tree: Tree, e: Line)
    requires Good(tree) && Step(tree, e).Some?
    ensures Good(Step(tree, e).value)
  {
    InsertedEntries(tree, e.path, Item(tree, e));
    InsertKeepsClosed(tree, e.path, Item(tree, e));
    forall p | p in Step(tree, e).value && Step(tree, e).value[p].body.Hardlink?
      ensures LinkKept(Step(tree, e).value, p)
    {
      StepKeepsLinks(tree, e, p);
    }
  }

  /** Every tree an accepted list makes is good. */
  lemma {:induction false} EveryTreeGood(list: seq<Line>, n: nat)
    requires n <= |list| && Run(map[], list, n).Some?
    ensures Good(Run(map[], list, n).value)
  {
    if n > 0 {
      EveryTreeGood(list, n - 1);
      StepKeepsGood(Run(map[], list, n - 1).value, list[n - 1]);
    }
  }

  /** No later entry changes or drops an explicit one. */
  lemma {:induction false} ExplicitForever(tree: Tree, list: seq<Line>, k: nat, n: nat)
    requires k <= n <= |list| && Run(tree, list, n).Some?
    ensures Run(tree, list, k).Some? && Grows(Run(tree, list, k).value, Run(tree, list, n).value)
  {
    if k < n {
      ExplicitForever(tree, list, k, n - 1);
      var t := Run(tree, list, n - 1).value;
      InsertedEntries(t, list[n - 1].path, Item(t, list[n - 1]));
    }
  }
}
