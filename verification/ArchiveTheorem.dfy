/** Archiving a set and extracting it gives the set back. */
module ArchiveTheorem {
  import opened Words
  import opened Paths
  import opened SetPatterns
  import opened InstallTree
  import opened SetSelection
  import opened Ustar
  import opened TarHeader
  import opened SetArchive
  import opened Extraction

  // ---- What is asked of the set ----

  /** A second name for a file: the file is installed, with the same mode and owner, and the staged
      name is a hard link to it. */
  ghost predicate SecondNameOf(tree: Tree, disk: Disk, p: Path, other: Path) {
    && p in tree && other in tree && tree[other].body.File?
    && tree[p].mode == tree[other].mode && tree[p].uid == tree[other].uid && tree[p].gid == tree[other].gid
    && disk.staged(p) == disk.staged(other)
  }

  ghost predicate PathReady(paths: seq<Path>, tree: Tree, disk: Disk, p: Path) {
    && p in tree
    && (if p == [] then tree[p].body.Dir? else Proper(p))
    && (forall up :: up in Above(p) ==> up in paths && up in tree && tree[up].body.Dir?)
    && (tree[p].body.Link? ==> 0 !in tree[p].body.target)
    && (tree[p].body.Hardlink? ==> SecondNameOf(tree, disk, p, tree[p].body.other))
  }

  ghost predicate SetReady(paths: seq<Path>, tree: Tree, disk: Disk) {
    Sorted(paths) && forall p :: p in paths ==> PathReady(paths, tree, disk, p)
  }

  /** The system knows root and wheel as 0, or not at all. */
  ghost predicate Usual(accounts: Accounts) {
    && (accounts.user(ROOT) == None || accounts.user(ROOT) == Some(0))
    && (accounts.group(WHEEL) == None || accounts.group(WHEEL) == Some(0))
  }

  // ---- What extraction should leave ----

  function DataFor(disk: Disk, p: Path, item: Installed): seq<byte> {
    var bytes := if item.body.SetSpec? then disk.specs(item.body.name) else disk.staged(p);
    if bytes.Some? then bytes.value else []
  }

  function NodeFor(disk: Disk, p: Path, item: Installed): Node {
    match item.body
    case Dir => DirNode(item.mode % 4096, item.uid, item.gid)
    case Link(target) => LinkNode(target, item.uid, item.gid)
    case _ => FileNode(DataFor(disk, p, item), item.mode % 4096, item.uid, item.gid)
  }

  function InodeAt(fs: Files, p: Path): Option<nat> {
    if Components(p) in fs.names then Some(fs.names[Components(p)]) else None
  }

  function NodeAt(fs: Files, p: Path): Option<Node> {
    match InodeAt(fs, p)
    case None => None
    case Some(i) => if i < |fs.nodes| then Some(fs.nodes[i]) else None
  }

  predicate SameInode(tree: Tree, p: Path, q: Path) {
    p in tree && q in tree && HasInode(tree[p]) && HasInode(tree[q]) && InodeOf(p, tree[p]) == InodeOf(q, tree[q])
  }

  /** Every name is back with its type, contents, mode and owner. */
  ghost predicate NodesBack(paths: seq<Path>, tree: Tree, disk: Disk, fs: Files) {
    forall p :: p in paths && p != [] ==> p in tree && NodeAt(fs, p) == Some(NodeFor(disk, p, tree[p]))
  }

  /** There is no other name. */
  ghost predicate NothingElse(paths: seq<Path>, fs: Files) {
    forall c :: c in fs.names ==> fs.names[c] < |fs.nodes| && exists p :: p in paths && p != [] && c == Components(p)
  }

  /** Two names are one file exactly when they were. */
  ghost predicate LinksBack(paths: seq<Path>, tree: Tree, fs: Files) {
    forall p, q :: p in paths && q in paths && p != [] && q != [] ==>
      (InodeAt(fs, p) == InodeAt(fs, q) <==> p == q || SameInode(tree, p, q))
  }

  ghost predicate FirstNames(paths: seq<Path>, tree: Tree, first: map<Path, Path>) {
    && (forall i :: i in first ==>
          first[i] in paths && first[i] in tree && HasInode(tree[first[i]]) && InodeOf(first[i], tree[first[i]]) == i)
    && (forall p :: p in paths && p in tree && HasInode(tree[p]) ==> InodeOf(p, tree[p]) in first)
  }

  ghost predicate Restored(paths: seq<Path>, tree: Tree, disk: Disk, fs: Files) {
    NodesBack(paths, tree, disk, fs) && NothingElse(paths, fs) && LinksBack(paths, tree, fs)
  }

  // ---- One member ----

  /** A member that is no hard link comes back as its node. */
  lemma {:induction false} NodeMade(fs: Files, c: seq<Component>, p: Path, item: Installed, disk: Disk, epoch: i64,
                                    first: map<Path, Path>, accounts: Accounts)
    requires Usual(accounts) && (if p == [] then item.body.Dir? else Proper(p))
             && (item.body.Link? ==> 0 !in item.body.target)
    requires HasInode(item) ==> InodeOf(p, item) !in first
    requires PieceFor(p, item, disk, epoch, first).Some? && Fits(PieceFor(p, item, disk, epoch, first).value.m)
    ensures var x := Back(PieceFor(p, item, disk, epoch, first).value);
            && Make(fs, x, c, accounts) == Some(WithNode(fs, c, NodeFor(disk, p, item)))
            && Clean(x.e.path) == Some(Components(p))
  {
    var piece := PieceFor(p, item, disk, epoch, first).value;
    assert NodeOf(piece.m, piece.data) == NodeFor(disk, p, item);
    MemberBack(p, piece.m);
    NameCleans(p, piece.m);
    MemberMade(fs, c, piece.m, piece.data, accounts);
  }

  function NodeOf(m: Member, data: seq<byte>): Node
    requires m.kind != Type.Link
  {
    match m.kind
    case Directory => DirNode(m.mode % 4096, m.uid, m.gid)
    case Symlink => LinkNode(m.link, m.uid, m.gid)
    case Regular => FileNode(data, m.mode % 4096, m.uid, m.gid)
  }

  lemma {:induction false} OwnersBack(m: Member, accounts: Accounts)
    requires Fits(m) && Usual(accounts)
    ensures var e := EntryBack(m);
            && Owner(e.uname, e.uid, accounts.user) == m.uid && Owner(e.gname, e.gid, accounts.group) == m.gid
            && Permissions(e, m.uid, m.gid) == m.mode % 4096
  {
  }

  lemma {:induction false} MemberMade(fs: Files, c: seq<Component>, m: Member, data: seq<byte>, accounts: Accounts)
    requires Fits(m) && Usual(accounts) && m.kind != Type.Link && 0 !in m.link
    ensures Make(fs, Extracted(EntryBack(m), data), c, accounts) == Some(WithNode(fs, c, NodeOf(m, data)))
  {
    OwnersBack(m, accounts);
    WholeString(m.link);
  }

  /** A member's name for path `p`. */
  predicate Names(p: Path, m: Member) {
    if m.kind == Directory then m.path == if p == [] then HERE else HERE + p + [SLASH]
    else p != [] && m.path == HERE + p
  }

  lemma {:induction false} NameBytes(p: Path, m: Member)
    requires Names(p, m) && (p == [] || Proper(p))
    ensures 0 !in m.path && m.path != [] && m.path[0] != SLASH
    ensures m.kind != Directory ==> m.path[|m.path| - 1] != SLASH
  {
    if p != [] {
      ProperEnd(p);
      assert m.path[|p| + 1] == p[|p| - 1];
    }
  }

  lemma {:induction false} NameCleans(p: Path, m: Member)
    requires Names(p, m) && (p == [] || Proper(p))
    ensures Clean(m.path) == Some(Components(p))
  {
    if p == [] {
      CleanRoot();
    } else {
      CleanProper(p);
    }
  }

  /** The member's name comes back, and is taken as the path. */
  lemma {:induction false} MemberBack(p: Path, m: Member)
    requires Fits(m) && Names(p, m) && (p == [] || Proper(p))
    ensures EntryBack(m).path == m.path && Settle(EntryBack(m)) == EntryBack(m)
  {
    NameBytes(p, m);
    PathSurvives(m.path);
  }

  /** A hard link comes back as one. */
  lemma {:induction false} LinkMade(fs: Files, c: seq<Component>, p: Path, item: Installed, disk: Disk, epoch: i64,
                                    first: map<Path, Path>, accounts: Accounts)
    requires Proper(p) && HasInode(item) && InodeOf(p, item) in first && Proper(first[InodeOf(p, item)])
    requires PieceFor(p, item, disk, epoch, first).Some? && Fits(PieceFor(p, item, disk, epoch, first).value.m)
    ensures var x := Back(PieceFor(p, item, disk, epoch, first).value);
            && Make(fs, x, c, accounts) == WithLink(fs, c, HERE + first[InodeOf(p, item)])
            && Clean(x.e.path) == Some(Components(p))
  {
    var m := PieceFor(p, item, disk, epoch, first).value.m;
    MemberBack(p, m);
    NameCleans(p, m);
    ProperEnd(first[InodeOf(p, item)]);
    WholeString(m.link);
  }

  // ---- One path ----

  /** The directories above a path are there before it. */
  lemma {:induction false} ParentsThere(paths: seq<Path>, n: nat, tree: Tree, disk: Disk, fs: Files, j: nat)
    requires SetReady(paths, tree, disk) && j <= n <= |paths| && j < |paths| && paths[j] != []
    requires NodesBack(paths[..n], tree, disk, fs)
    ensures ParentsAreDirs(fs, Components(paths[j]))
  {
    var c := Components(paths[j]);
    forall k | 0 < k < |c|
      ensures c[..k] in fs.names && fs.names[c[..k]] < |fs.nodes| && fs.nodes[fs.names[c[..k]]].DirNode?
    {
      ParentThere(paths, n, tree, disk, fs, j, k);
    }
  }

  lemma {:induction false} ParentThere(paths: seq<Path>, n: nat, tree: Tree, disk: Disk, fs: Files, j: nat, k: nat)
    requires SetReady(paths, tree, disk) && j <= n <= |paths| && j < |paths| && paths[j] != []
    requires NodesBack(paths[..n], tree, disk, fs) && 0 < k < |SplitSlash(paths[j])|
    ensures var c := SplitSlash(paths[j])[..k];
            c in fs.names && fs.names[c] < |fs.nodes| && fs.nodes[fs.names[c]].DirNode?
  {
    assert PathReady(paths, tree, disk, paths[j]);
    var up := PrefixIsAbove(paths[j], k);
    var i :| 0 <= i < |paths| && paths[i] == up;
    AboveComesFirst(paths, i, j);
    assert paths[..n][i] == up;
    NotRoot(SplitSlash(paths[j]), k, up);
    assert NodeAt(fs, up) == Some(NodeFor(disk, up, tree[up]));
  }

  lemma {:induction false} NotRoot(cs: seq<Component>, k: nat, up: Path)
    requires AllProper(cs) && 0 < k <= |cs| && SplitSlash(up) == cs[..k]
    ensures up != []
  {
    assert ProperComponent(cs[0]) && SplitSlash(up)[0] == cs[0];
  }

  /** A new node's name, and nothing else, is new. */
  lemma {:induction false} AfterNode(fs: Files, p: Path, node: Node, q: Path)
    requires InodeAt(fs, p) == None && (InodeAt(fs, q).Some? ==> InodeAt(fs, q).value < |fs.nodes|)
    ensures var fs' := WithNode(fs, Components(p), node);
            && NodeAt(fs', q) == (if q == p then Some(node) else NodeAt(fs, q))
            && InodeAt(fs', q) == (if q == p then Some(|fs.nodes|) else InodeAt(fs, q))
  {
    if Components(p) == Components(q) {
      ComponentsInjective(p, q);
    }
  }

  lemma {:induction false} NameKnown(ps: seq<Path>, tree: Tree, disk: Disk, fs: Files, q: Path)
    requires NodesBack(ps, tree, disk, fs) && q in ps && q != []
    ensures InodeAt(fs, q).Some? && InodeAt(fs, q).value < |fs.nodes|
  {
    assert NodeAt(fs, q).Some?;
  }

  /** `fs'` is `fs` with a new node under the one new name `p`; the names of `ps` are as they were. */
  ghost predicate NewNode(ps: seq<Path>, fs: Files, fs': Files, p: Path, node: Node) {
    && NodeAt(fs', p) == Some(node) && InodeAt(fs', p) == Some(|fs.nodes|)
    && forall q :: q in ps && q != [] ==>
         && NodeAt(fs', q) == NodeAt(fs, q) && InodeAt(fs', q) == InodeAt(fs, q)
         && InodeAt(fs, q).Some? && InodeAt(fs, q).value < |fs.nodes|
  }

  lemma {:induction false} NodeNodesBack(ps: seq<Path>, tree: Tree, disk: Disk, fs: Files, fs': Files, p: Path)
    requires NodesBack(ps, tree, disk, fs) && p in tree && NewNode(ps, fs, fs', p, NodeFor(disk, p, tree[p]))
    ensures NodesBack(ps + [p], tree, disk, fs')
  {
    forall q | q in ps + [p] && q != []
      ensures q in tree && NodeAt(fs', q) == Some(NodeFor(disk, q, tree[q]))
    {
      if q != p {
        assert NodeAt(fs, q) == Some(NodeFor(disk, q, tree[q]));
      }
    }
  }

  lemma {:induction false} NodeLinksBack(ps: seq<Path>, tree: Tree, fs: Files, fs': Files, p: Path, node: Node)
    requires LinksBack(ps, tree, fs) && NewNode(ps, fs, fs', p, node) && p !in ps
    requires forall q :: q in ps ==> !SameInode(tree, p, q) && !SameInode(tree, q, p)
    ensures LinksBack(ps + [p], tree, fs')
  {
    forall q, r | q in ps + [p] && r in ps + [p] && q != [] && r != []
      ensures InodeAt(fs', q) == InodeAt(fs', r) <==> q == r || SameInode(tree, q, r)
    {
      if q in ps && r in ps {
        assert InodeAt(fs, q) == InodeAt(fs, r) <==> q == r || SameInode(tree, q, r);
      }
    }
  }

  lemma {:induction false} NodeNothingElse(ps: seq<Path>, fs: Files, p: Path, node: Node)
    requires NothingElse(ps, fs) && p != []
    ensures NothingElse(ps + [p], WithNode(fs, Components(p), node))
  {
    var fs' := WithNode(fs, Components(p), node);
    forall c | c in fs'.names
      ensures fs'.names[c] < |fs'.nodes| && exists q :: q in ps + [p] && q != [] && c == Components(q)
    {
      if c in fs.names && c != Components(p) {
        var q :| q in ps && q != [] && c == Components(q);
        assert q in ps + [p];
      } else {
        assert p in ps + [p];
      }
    }
  }

  lemma {:induction false} NodeAdded(ps: seq<Path>, tree: Tree, disk: Disk, fs: Files, p: Path)
    requires Restored(ps, tree, disk, fs) && p in tree && p != [] && InodeAt(fs, p) == None
    requires p !in ps && forall q :: q in ps ==> !SameInode(tree, p, q)
    ensures Restored(ps + [p], tree, disk, WithNode(fs, Components(p), NodeFor(disk, p, tree[p])))
  {
    var node := NodeFor(disk, p, tree[p]);
    var fs' := WithNode(fs, Components(p), node);
    AfterNode(fs, p, node, p);
    forall q | q in ps && q != []
      ensures NodeAt(fs', q) == NodeAt(fs, q) && InodeAt(fs', q) == InodeAt(fs, q)
      ensures InodeAt(fs, q).Some? && InodeAt(fs, q).value < |fs.nodes|
    {
      NameKnown(ps, tree, disk, fs, q);
      AfterNode(fs, p, node, q);
    }
    NodeNodesBack(ps, tree, disk, fs, fs', p);
    NodeLinksBack(ps, tree, fs, fs', p, node);
    NodeNothingElse(ps, fs, p, node);
  }

  lemma {:induction false} AfterLink(fs: Files, p: Path, i: nat, q: Path)
    ensures var fs' := fs.(names := fs.names[Components(p) := i]);
            InodeAt(fs', q) == if q == p then Some(i) else InodeAt(fs, q)
  {
    if Components(p) == Components(q) {
      ComponentsInjective(p, q);
    }
  }

  /** `fs'` is `fs` with the one new name `p`, for inode `i`. */
  ghost predicate NewName(fs: Files, fs': Files, p: Path, i: nat) {
    && fs'.nodes == fs.nodes && fs'.names == fs.names[Components(p) := i]
    && forall q :: InodeAt(fs', q) == if q == p then Some(i) else InodeAt(fs, q)
  }

  lemma {:induction false} LinkNodesBack(ps: seq<Path>, tree: Tree, disk: Disk, fs: Files, fs': Files, p: Path, f: Path)
    requires NodesBack(ps, tree, disk, fs) && f in ps && f != [] && p in tree
    requires InodeAt(fs, f).Some? && NewName(fs, fs', p, InodeAt(fs, f).value)
    requires NodeFor(disk, p, tree[p]) == NodeFor(disk, f, tree[f])
    ensures NodesBack(ps + [p], tree, disk, fs')
  {
    assert NodeAt(fs, f) == Some(NodeFor(disk, f, tree[f]));
    forall q | q in ps + [p] && q != []
      ensures q in tree && NodeAt(fs', q) == Some(NodeFor(disk, q, tree[q]))
    {
      if q != p {
        assert NodeAt(fs, q) == Some(NodeFor(disk, q, tree[q]));
      }
    }
  }

  lemma {:induction false} LinkLinksBack(ps: seq<Path>, tree: Tree, fs: Files, fs': Files, p: Path, f: Path)
    requires LinksBack(ps, tree, fs) && f in ps && f != [] && p !in ps && SameInode(tree, p, f)
    requires InodeAt(fs, f).Some? && NewName(fs, fs', p, InodeAt(fs, f).value)
    ensures LinksBack(ps + [p], tree, fs')
  {
    forall q, r | q in ps + [p] && r in ps + [p] && q != [] && r != []
      ensures InodeAt(fs', q) == InodeAt(fs', r) <==> q == r || SameInode(tree, q, r)
    {
      var q', r' := if q == p then f else q, if r == p then f else r;
      assert InodeAt(fs, q') == InodeAt(fs, r') <==> q' == r' || SameInode(tree, q', r');
    }
  }

  lemma {:induction false} LinkNothingElse(ps: seq<Path>, fs: Files, fs': Files, p: Path, i: nat)
    requires NothingElse(ps, fs) && NewName(fs, fs', p, i) && i < |fs.nodes| && p != []
    ensures NothingElse(ps + [p], fs')
  {
    forall c | c in fs'.names
      ensures fs'.names[c] < |fs'.nodes| && exists q :: q in ps + [p] && q != [] && c == Components(q)
    {
      if c in fs.names && c != Components(p) {
        var q :| q in ps && q != [] && c == Components(q);
        assert q in ps + [p];
      } else {
        assert p in ps + [p];
      }
    }
  }

  lemma {:induction false} LinkAdded(ps: seq<Path>, tree: Tree, disk: Disk, fs: Files, fs': Files, p: Path, f: Path)
    requires Restored(ps, tree, disk, fs) && p in tree && p != [] && p !in ps && f in ps && f != []
    requires SameInode(tree, p, f) && NodeFor(disk, p, tree[p]) == NodeFor(disk, f, tree[f])
    requires InodeAt(fs, f).Some? && fs' == fs.(names := fs.names[Components(p) := InodeAt(fs, f).value])
    ensures Restored(ps + [p], tree, disk, fs')
  {
    NameKnown(ps, tree, disk, fs, f);
    var i := InodeAt(fs, f).value;
    assert NewName(fs, fs', p, i) by {
      forall q
        ensures InodeAt(fs', q) == if q == p then Some(i) else InodeAt(fs, q)
      {
        AfterLink(fs, p, i, q);
      }
    }
    LinkNodesBack(ps, tree, disk, fs, fs', p, f);
    LinkNothingElse(ps, fs, fs', p, i);
    LinkLinksBack(ps, tree, fs, fs', p, f);
  }

  /** Names of one file have one node. */
  lemma {:induction false} SameNode(paths: seq<Path>, tree: Tree, disk: Disk, p: Path, f: Path)
    requires SameInode(tree, p, f) && PathReady(paths, tree, disk, p) && PathReady(paths, tree, disk, f)
    ensures NodeFor(disk, p, tree[p]) == NodeFor(disk, f, tree[f])
  {
  }

  lemma {:induction false} NotYetThere(paths: seq<Path>, n: nat, fs: Files)
    requires Sorted(paths) && n < |paths| && NothingElse(paths[..n], fs)
    ensures paths[n] !in paths[..n] && InodeAt(fs, paths[n]) == None
  {
    if paths[n] in paths[..n] {
      var i :| 0 <= i < n && paths[..n][i] == paths[n];
      LessIrreflexive(paths[n]);
    }
    if Components(paths[n]) in fs.names {
      var q :| q in paths[..n] && Components(paths[n]) == Components(q);
      ComponentsInjective(paths[n], q);
    }
  }

  lemma {:induction false} FirstStep(paths: seq<Path>, n: nat, tree: Tree, first: map<Path, Path>)
    requires n < |paths| && paths[n] in tree && FirstNames(paths[..n], tree, first)
    ensures FirstNames(paths[..n + 1], tree, NextFirst(paths[n], tree[paths[n]], first))
  {
    assert paths[..n + 1] == paths[..n] + [paths[n]];
  }

  /** The root's own member leaves the extraction directory as it is. */
  lemma {:induction false} RootStep(ps: seq<Path>, tree: Tree, disk: Disk, fs: Files)
    requires Restored(ps, tree, disk, fs)
    ensures Restored(ps + [[]], tree, disk, fs)
  {
    assert forall p :: p in ps + [[]] && p != [] ==> p in ps;
    assert forall p :: p in ps ==> p in ps + [[]];
  }

  lemma {:induction false} NodeStep(paths: seq<Path>, n: nat, tree: Tree, disk: Disk, epoch: i64, accounts: Accounts,
                                    first: map<Path, Path>, fs: Files)
    requires SetReady(paths, tree, disk) && Usual(accounts) && n < |paths| && paths[n] != []
    requires Restored(paths[..n], tree, disk, fs) && FirstNames(paths[..n], tree, first)
    requires paths[n] in tree
    requires var piece := PieceFor(paths[n], tree[paths[n]], disk, epoch, first); piece.Some? && Fits(piece.value.m)
    requires HasInode(tree[paths[n]]) ==> InodeOf(paths[n], tree[paths[n]]) !in first
    ensures var fs' := ExtractOne(fs, Back(PieceFor(paths[n], tree[paths[n]], disk, epoch, first).value), accounts);
            fs'.Some? && Restored(paths[..n] + [paths[n]], tree, disk, fs'.value)
  {
    var p := paths[n];
    assert PathReady(paths, tree, disk, p);
    NotYetThere(paths, n, fs);
    ParentsThere(paths, n, tree, disk, fs, n);
    NodeMade(fs, Components(p), p, tree[p], disk, epoch, first, accounts);
    NodeAdded(paths[..n], tree, disk, fs, p);
  }

  /** A first name's own place, found again by a later link. */
  lemma {:induction false} TargetFound(paths: seq<Path>, n: nat, tree: Tree, disk: Disk, fs: Files, c: seq<Component>,
                                       f: Path)
    requires SetReady(paths, tree, disk) && n <= |paths| && NodesBack(paths[..n], tree, disk, fs)
    requires f in paths[..n] && f != [] && f in tree && HasInode(tree[f])
    ensures InodeAt(fs, f).Some?
    ensures WithLink(fs, c, HERE + f) == Some(fs.(names := fs.names[c := InodeAt(fs, f).value]))
  {
    var j :| 0 <= j < n && paths[..n][j] == f;
    assert PathReady(paths, tree, disk, f);
    CleanProper(f);
    ParentsThere(paths, n, tree, disk, fs, j);
    NameKnown(paths[..n], tree, disk, fs, f);
    assert NodeAt(fs, f) == Some(NodeFor(disk, f, tree[f]));
  }

  lemma {:induction false} LinkStep(paths: seq<Path>, n: nat, tree: Tree, disk: Disk, epoch: i64, accounts: Accounts,
                                    first: map<Path, Path>, fs: Files)
    requires SetReady(paths, tree, disk) && n < |paths| && paths[n] != [] && paths[n] in tree
             && HasInode(tree[paths[n]])
    requires Restored(paths[..n], tree, disk, fs) && FirstNames(paths[..n], tree, first)
    requires paths[n] in tree
    requires var piece := PieceFor(paths[n], tree[paths[n]], disk, epoch, first); piece.Some? && Fits(piece.value.m)
    requires InodeOf(paths[n], tree[paths[n]]) in first
    ensures var fs' := ExtractOne(fs, Back(PieceFor(paths[n], tree[paths[n]], disk, epoch, first).value), accounts);
            fs'.Some? && Restored(paths[..n] + [paths[n]], tree, disk, fs'.value)
  {
    var p := paths[n];
    var f := first[InodeOf(p, tree[p])];
    assert PathReady(paths, tree, disk, p) && PathReady(paths, tree, disk, f);
    NotYetThere(paths, n, fs);
    ParentsThere(paths, n, tree, disk, fs, n);
    LinkMade(fs, Components(p), p, tree[p], disk, epoch, first, accounts);
    TargetFound(paths, n, tree, disk, fs, Components(p), f);
    SameNode(paths, tree, disk, p, f);
    LinkAdded(paths[..n], tree, disk, fs, fs.(names := fs.names[Components(p) := InodeAt(fs, f).value]), p, f);
  }

  lemma {:induction false} PathStep(paths: seq<Path>, n: nat, tree: Tree, disk: Disk, epoch: i64, accounts: Accounts,
                                    first: map<Path, Path>, fs: Files)
    requires SetReady(paths, tree, disk) && Usual(accounts) && n < |paths|
    requires Restored(paths[..n], tree, disk, fs) && FirstNames(paths[..n], tree, first)
    requires paths[n] in tree
    requires var piece := PieceFor(paths[n], tree[paths[n]], disk, epoch, first); piece.Some? && Fits(piece.value.m)
    ensures var fs' := ExtractOne(fs, Back(PieceFor(paths[n], tree[paths[n]], disk, epoch, first).value), accounts);
            fs'.Some? && Restored(paths[..n + 1], tree, disk, fs'.value)
  {
    var p := paths[n];
    assert paths[..n + 1] == paths[..n] + [p];
    assert PathReady(paths, tree, disk, p);
    if p == [] {
      NodeMade(fs, [], p, tree[p], disk, epoch, first, accounts);
      RootStep(paths[..n], tree, disk, fs);
    } else if HasInode(tree[p]) && InodeOf(p, tree[p]) in first {
      LinkStep(paths, n, tree, disk, epoch, accounts, first, fs);
    } else {
      NodeStep(paths, n, tree, disk, epoch, accounts, first, fs);
    }
  }

  // ---- The archive ----

  /** One more path archived, and its member extracted. */
  lemma {:induction false} NextRestored(paths: seq<Path>, n: nat, tree: Tree, disk: Disk, epoch: i64,
                                        accounts: Accounts, p: Progress, q: Progress, fs: Files)
    requires SetReady(paths, tree, disk) && Usual(accounts) && n < |paths|
    requires Restored(paths[..n], tree, disk, fs) && FirstNames(paths[..n], tree, p.first)
    requires PieceStep(tree, disk, epoch, paths[n], p) == Some(q) && |p.pieces| == n
    ensures FirstNames(paths[..n + 1], tree, q.first) && |q.pieces| == n + 1 && Fits(q.pieces[n].m)
    ensures var fs' := ExtractOne(fs, Back(q.pieces[n]), accounts);
            fs'.Some? && Restored(paths[..n + 1], tree, disk, fs'.value)
  {
    FirstStep(paths, n, tree, p.first);
    PathStep(paths, n, tree, disk, epoch, accounts, p.first, fs);
  }

  /** After `n` members: what `p` has archived, `fs` has restored. */
  ghost predicate Upto(paths: seq<Path>, n: nat, tree: Tree, disk: Disk, p: Progress, fs: Option<Files>)
    requires n <= |paths|
  {
    FirstNames(paths[..n], tree, p.first) && fs.Some? && Restored(paths[..n], tree, disk, fs.value)
  }

  lemma {:induction false} RestoresPrefix(paths: seq<Path>, n: nat, tree: Tree, disk: Disk, epoch: i64,
                                          accounts: Accounts, p: Progress, all: seq<Extracted>)
    requires SetReady(paths, tree, disk) && Usual(accounts) && n <= |paths|
             && Pieces(paths, n, tree, disk, epoch) == Some(p)
    requires n <= |all| && forall k :: 0 <= k < n ==> all[k] == Back(p.pieces[k])
    ensures Upto(paths, n, tree, disk, p, Extract(all, n, accounts))
  {
    if n == 0 {
      NothingRestored(paths, tree, disk, p);
    } else {
      var m := n - 1;
      var before := LastPiece(paths, m, tree, disk, epoch, p);
      RestoresPrefix(paths, m, tree, disk, epoch, accounts, before, all);
      UptoNext(paths, m, tree, disk, epoch, accounts, before, p, all);
    }
  }

  lemma {:induction false} LastPiece(paths: seq<Path>, n: nat, tree: Tree, disk: Disk, epoch: i64, p: Progress)
    returns (before: Progress)
    requires n < |paths| && Pieces(paths, n + 1, tree, disk, epoch) == Some(p)
    ensures Pieces(paths, n, tree, disk, epoch) == Some(before) && |before.pieces| == n && |p.pieces| == n + 1
    ensures PieceStep(tree, disk, epoch, paths[n], before) == Some(p) && Fits(p.pieces[n].m)
    ensures forall k :: 0 <= k < n ==> before.pieces[k] == p.pieces[k]
  {
    before := Pieces(paths, n, tree, disk, epoch).value;
    EarlierPieces(tree, disk, epoch, paths[n], before, p);
    assert forall k :: 0 <= k < n ==> p.pieces[..n][k] == p.pieces[k];
  }

  lemma {:induction false} UptoNext(paths: seq<Path>, n: nat, tree: Tree, disk: Disk, epoch: i64, accounts: Accounts,
                                    p: Progress, q: Progress, all: seq<Extracted>)
    requires SetReady(paths, tree, disk) && Usual(accounts) && n < |paths| && n < |all| && |p.pieces| == n
    requires PieceStep(tree, disk, epoch, paths[n], p) == Some(q) && |q.pieces| == n + 1
    requires Fits(q.pieces[n].m) && all[n] == Back(q.pieces[n])
    requires Upto(paths, n, tree, disk, p, Extract(all, n, accounts))
    ensures Upto(paths, n + 1, tree, disk, q, Extract(all, n + 1, accounts))
  {
    NextRestored(paths, n, tree, disk, epoch, accounts, p, q, Extract(all, n, accounts).value);
    ExtractNext(all, n, accounts);
  }

  lemma {:induction false} ExtractNext(all: seq<Extracted>, n: nat, accounts: Accounts)
    requires n < |all| && Extract(all, n, accounts).Some?
    ensures Extract(all, n + 1, accounts) == ExtractOne(Extract(all, n, accounts).value, all[n], accounts)
  {
  }

  lemma {:induction false} NothingRestored(paths: seq<Path>, tree: Tree, disk: Disk, p: Progress)
    requires p == Progress([], map[])
    ensures Upto(paths, 0, tree, disk, p, Some(Files(map[], [])))
  {
    assert paths[..0] == [];
  }

  lemma {:induction false} EarlierPieces(tree: Tree, disk: Disk, epoch: i64, path: Path, p: Progress, q: Progress)
    requires PieceStep(tree, disk, epoch, path, p) == Some(q)
    ensures |q.pieces| == |p.pieces| + 1 && q.pieces[..|p.pieces|] == p.pieces
  {
  }

  lemma {:induction false} AllRestored(paths: seq<Path>, tree: Tree, disk: Disk, epoch: i64, accounts: Accounts,
                                       p: Progress, all: seq<Extracted>)
    requires SetReady(paths, tree, disk) && Usual(accounts) && Pieces(paths, |paths|, tree, disk, epoch) == Some(p)
    requires |all| == |paths| && forall k :: 0 <= k < |paths| ==> all[k] == Back(p.pieces[k])
    ensures Extract(all, |all|, accounts).Some? && Restored(paths, tree, disk, Extract(all, |all|, accounts).value)
  {
    assert paths[..|paths|] == paths;
    RestoresPrefix(paths, |paths|, tree, disk, epoch, accounts, p, all);
  }

  /** The archive of a set, read and extracted in an empty directory, restores exactly the set: every
      path with its type, contents, mode, owner and link target, names sharing a file as they did. */
  lemma {:induction false} ArchiveRestoresSet(paths: seq<Path>, tree: Tree, disk: Disk, epoch: i64, accounts: Accounts)
    requires SetReady(paths, tree, disk) && Usual(accounts) && Pieces(paths, |paths|, tree, disk, epoch).Some?
    ensures var archive := Stream(AllBlocks(Pieces(paths, |paths|, tree, disk, epoch).value.pieces), Zeros(1024));
            && TarReader()(archive).Some?
            && var members := TarReader()(archive).value;
               && Extract(members, |members|, accounts).Some?
               && Restored(paths, tree, disk, Extract(members, |members|, accounts).value)
  {
    var pieces := Pieces(paths, |paths|, tree, disk, epoch).value.pieces;
    PiecesSized(paths, |paths|, tree, disk, epoch);
    ReadBack(pieces);
    AllRestored(paths, tree, disk, epoch, accounts, Pieces(paths, |paths|, tree, disk, epoch).value, BackAll(pieces));
  }

  // ---- Sets from the install list ----

  /** What the model asks of an install tree and its staged files beyond what reading a list ensures. */
  ghost predicate TreeReady(tree: Tree, disk: Disk, p: Path)
    requires p in tree
  {
    && (if p == [] then tree[p].body.Dir? else Proper(p))
    && (forall up :: up in Above(p) && up in tree ==> tree[up].body.Dir?)
    && (tree[p].body.Link? ==> 0 !in tree[p].body.target)
    && (tree[p].body.Hardlink? ==>
          var other := tree[p].body.other;
          other in tree && tree[other].body.File? && disk.staged(p) == disk.staged(other))
  }

  /** A set's paths, carried out of any tree an accepted list makes, can be archived and restored. */
  lemma {:induction false} ListedSetReady(list: seq<Line>, tree: Tree, disk: Disk, own: seq<Path>, paths: seq<Path>)
    requires Run(map[], list, |list|) == Some(tree) && forall p :: p in tree ==> TreeReady(tree, disk, p)
    requires (forall q :: q in own ==> q in tree) && Sorted(paths) && forall p :: p in paths <==> Carried(own, p)
    ensures SetReady(paths, tree, disk)
  {
    EveryTreeGood(list, |list|);
    forall p | p in paths
      ensures PathReady(paths, tree, disk, p)
    {
      CarriedIsClosed(own, tree.Keys, p, p);
      assert TreeReady(tree, disk, p);
      forall up | up in Above(p)
        ensures up in paths && up in tree && tree[up].body.Dir?
      {
        CarriedIsClosed(own, tree.Keys, p, up);
        CarriedIsClosed(own, tree.Keys, up, up);
      }
      if tree[p].body.Hardlink? {
        assert LinkKept(tree, p);
      }
    }
  }
}
