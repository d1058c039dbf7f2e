/** Extracting a set's archive: what tar(1) makes, as root, in an empty directory. */
module Extraction {
  import opened Words
  import opened Paths
  import opened SetPatterns
  import opened TarHeader
  import opened SetArchive

  const DOT: Component := [0x2e]
  const DOT_DOT: Component := [0x2e, 0x2e]

  // ---- Files ----

  datatype Node =
    | DirNode(mode: nat, uid: u32, gid: u32)
    | FileNode(data: seq<byte>, mode: nat, uid: u32, gid: u32)
    | LinkNode(target: seq<byte>, uid: u32, gid: u32)

  /** What is under the extraction directory: names to inodes, and the inodes. */
  datatype Files = Files(names: map<seq<Component>, nat>, nodes: seq<Node>)

  /** `getpwnam` and `getgrnam`. */
  datatype Accounts = Accounts(user: seq<byte> -> Option<u32>, group: seq<byte> -> Option<u32>)

  function Owner(name: seq<byte>, id: u64, lookup: seq<byte> -> Option<u32>): u32 {
    if name != [] && lookup(name).Some? then lookup(name).value
    else if id < TWO_32 then id
    else TWO_32 - 2
  }

  function Without(mode: nat, bit: nat): nat
    requires bit > 0
  {
    if mode / bit % 2 == 1 then mode - bit else mode
  }

  /** The mode kept: set-ID bits only when the owner they name is the one set. */
  function Permissions(e: Entry, uid: u32, gid: u32): nat {
    var m := e.mode % 4096;
    var m := if uid != e.uid then Without(m, 0x800) else m;
    if gid != e.gid then Without(m, 0x400) else m
  }

  // ---- Names ----

  /** The components that count: not empty, not ".". */
  function Kept(cs: seq<Component>): seq<Component> {
    if cs == [] then []
    else if cs[0] == [] || cs[0] == DOT then Kept(cs[1..])
    else [cs[0]] + Kept(cs[1..])
  }

  /** `clean`, and the NUL check made of every component later; `None` for a refused name. */
  function Clean(name: seq<byte>): Option<seq<Component>> {
    var cs := Kept(SplitSlash(name));
    if DOT_DOT in cs || exists c :: c in cs && 0 in c then None else Some(cs)
  }

  // ---- Extraction ----

  predicate ParentsAreDirs(fs: Files, c: seq<Component>) {
    forall k :: 0 < k < |c| ==>
      c[..k] in fs.names && fs.names[c[..k]] < |fs.nodes| && fs.nodes[fs.names[c[..k]]].DirNode?
  }

  function WithNode(fs: Files, c: seq<Component>, node: Node): Files {
    Files(fs.names[c := |fs.nodes|], fs.nodes + [node])
  }

  /** A second name for the file at `target`. */
  function WithLink(fs: Files, c: seq<Component>, target: seq<byte>): Option<Files> {
    match Clean(target)
    case None => None
    case Some(t) =>
      if t == [] || !ParentsAreDirs(fs, t) || t !in fs.names then None
      else if fs.names[t] >= |fs.nodes| || fs.nodes[fs.names[t]].DirNode? then None
      else Some(fs.(names := fs.names[c := fs.names[t]]))
  }

  /** One member, at name `c`, where nothing is in the way. */
  function Make(fs: Files, x: Extracted, c: seq<Component>, accounts: Accounts): Option<Files> {
    var uid, gid := Owner(x.e.uname, x.e.uid, accounts.user), Owner(x.e.gname, x.e.gid, accounts.group);
    match x.e.kind
    case Dir => Some(WithNode(fs, c, DirNode(Permissions(x.e, uid, gid), uid, gid)))
    case File => Some(WithNode(fs, c, FileNode(x.data, Permissions(x.e, uid, gid), uid, gid)))
    case SymbolicLink => if 0 in x.e.link then None else Some(WithNode(fs, c, LinkNode(x.e.link, uid, gid)))
    case HardLink => WithLink(fs, c, x.e.link)
    case _ => None
  }

  /** One member; `None` for an error, a device or FIFO, or where a name is taken or a directory missing. */
  function ExtractOne(fs: Files, x: Extracted, accounts: Accounts): Option<Files> {
    match Clean(x.e.path)
    case None => None
    case Some(c) =>
      if c == [] then Some(fs)
      else if !ParentsAreDirs(fs, c) || c in fs.names then None
      else Make(fs, x, c, accounts)
  }

  function Extract(xs: seq<Extracted>, n: nat, accounts: Accounts): Option<Files>
    requires n <= |xs|
  {
    if n == 0 then Some(Files(map[], []))
    else match Extract(xs, n - 1, accounts)
      case None => None
      case Some(fs) => ExtractOne(fs, xs[n - 1], accounts)
  }

  // ---- Names come back ----

  ghost predicate ProperComponent(c: Component) {
    c != [] && c != DOT && c != DOT_DOT && 0 !in c
  }

  ghost predicate AllProper(cs: seq<Component>) {
    forall k :: 0 <= k < |cs| ==> ProperComponent(cs[k])
  }

  /** A path tar(1) takes as it stands. */
  ghost predicate Proper(p: Path) {
    p != [] && AllProper(SplitSlash(p))
  }

  lemma {:induction false} PushAppend(b: byte, r: seq<Component>, more: seq<Component>)
    requires r != []
    ensures Push(b, r + more) == Push(b, r) + more
  {
    assert (r + more)[1..] == r[1..] + more;
  }

  lemma {:induction false} SplitAppend(a: Path, b: Path)
    ensures SplitSlash(a + [SLASH] + b) == SplitSlash(a) + SplitSlash(b)
  {
    var p := a + [SLASH] + b;
    if a == [] {
      assert p[1..] == b;
    } else {
      SplitAppend(a[1..], b);
      assert p[1..] == a[1..] + [SLASH] + b;
      PushAppend(a[0], SplitSlash(a[1..]), SplitSlash(b));
    }
  }

  lemma {:induction false} KeptAppend(a: seq<Component>, b: seq<Component>)
    ensures Kept(a + b) == Kept(a) + Kept(b)
  {
    if a == [] {
      assert a + b == b;
    } else {
      KeptAppend(a[1..], b);
      assert (a + b)[1..] == a[1..] + b;
      assert [a[0]] + (Kept(a[1..]) + Kept(b)) == ([a[0]] + Kept(a[1..])) + Kept(b);
    }
  }

  lemma {:induction false} KeptAll(cs: seq<Component>)
    requires AllProper(cs)
    ensures Kept(cs) == cs
  {
    if cs != [] {
      KeptAll(cs[1..]);
    }
  }

  lemma {:induction false} KeptHere(p: Path)
    requires AllProper(SplitSlash(p))
    ensures Kept(SplitSlash(HERE + p)) == SplitSlash(p) && Kept(SplitSlash(HERE + p + [SLASH])) == SplitSlash(p)
  {
    KeptAll(SplitSlash(p));
    SingleDot();
    SplitAppend([0x2e], p);
    assert HERE + p == [0x2e] + [SLASH] + p;
    KeptAppend(SplitSlash([0x2e]), SplitSlash(p));
    SplitAppend(HERE + p, []);
    assert HERE + p + [SLASH] + [] == HERE + p + [SLASH];
    KeptAppend(SplitSlash(HERE + p), SplitSlash([]));
  }

  lemma {:induction false} ProperIsClean(cs: seq<Component>)
    requires AllProper(cs)
    ensures DOT_DOT !in cs && forall c :: c in cs ==> 0 !in c
  {
  }

  lemma {:induction false} CleanProper(p: Path)
    requires Proper(p)
    ensures Clean(HERE + p) == Some(Components(p)) && Clean(HERE + p + [SLASH]) == Some(Components(p))
  {
    KeptHere(p);
    ProperIsClean(SplitSlash(p));
  }

  lemma {:induction false} SingleDot()
    ensures Kept(SplitSlash([0x2e])) == [] && Kept(SplitSlash([])) == []
  {
    assert SplitSlash([]) == [[]];
    var dot: Path := [0x2e];
    assert dot[1..] == [];
    var one: seq<Component> := [[]];
    assert one[1..] == [] && [0x2e] + one[0] == [0x2e];
    assert SplitSlash(dot) == Push(0x2e, one) == [[0x2e]];
    assert Kept([DOT][1..]) == [];
  }

  lemma {:induction false} CleanRoot()
    ensures Clean(HERE) == Some([])
  {
    SplitAppend([0x2e], []);
    assert [0x2e] + [SLASH] + [] == HERE;
    KeptAppend(SplitSlash([0x2e]), SplitSlash([]));
    SingleDot();
  }

  lemma {:induction false} ProperEnd(p: Path)
    requires Proper(p)
    ensures p[|p| - 1] != SLASH && 0 !in p
  {
    if p[|p| - 1] == SLASH {
      SlashAtEnd(p);
    }
    if 0 in p {
      ZeroInside(p);
    }
  }

  lemma {:induction false} SlashAtEnd(p: Path)
    requires p != [] && p[|p| - 1] == SLASH
    ensures !AllProper(SplitSlash(p))
  {
    var n := |p| - 1;
    SplitAppend(p[..n], []);
    assert p[..n] + [SLASH] + [] == p;
    assert !ProperComponent(SplitSlash(p)[|SplitSlash(p)| - 1]);
  }

  lemma {:induction false} ZeroInside(p: Path)
    requires 0 in p
    ensures !AllProper(SplitSlash(p))
  {
    ZeroInComponent(p);
    var k :| 0 <= k < |SplitSlash(p)| && 0 in SplitSlash(p)[k];
    assert !ProperComponent(SplitSlash(p)[k]);
  }

  lemma {:induction false} ZeroInComponent(p: Path)
    requires 0 in p
    ensures exists k :: 0 <= k < |SplitSlash(p)| && 0 in SplitSlash(p)[k]
  {
    if p[0] == 0 {
      assert 0 in SplitSlash(p)[0];
    } else {
      ZeroInComponent(p[1..]);
      var rest := SplitSlash(p[1..]);
      var k :| 0 <= k < |rest| && 0 in rest[k];
      if p[0] == SLASH {
        assert SplitSlash(p)[k + 1] == rest[k];
      } else {
        assert 0 in SplitSlash(p)[k];
      }
    }
  }

  // ---- Components of the paths above ----

  /** Joining a path's first `k` components gives a path above it, with those components. */
  lemma {:induction false} PrefixIsAbove(p: Path, k: nat) returns (up: Path)
    requires 0 < k < |SplitSlash(p)|
    ensures up in Above(p) && SplitSlash(up) == SplitSlash(p)[..k]
  {
    up := CutAt(p, k);
    AboveIsPrefixes(p, up);
  }

  lemma {:induction false} CutAt(p: Path, k: nat) returns (up: Path)
    requires 0 < k < |SplitSlash(p)|
    ensures |up| < |p| && up <= p && p[|up|] == SLASH && SplitSlash(up) == SplitSlash(p)[..k]
  {
    var rest := SplitSlash(p[1..]);
    if p[0] == SLASH {
      if k == 1 {
        up := [];
      } else {
        var r := CutAt(p[1..], k - 1);
        up := [p[0]] + r;
        assert up[1..] == r;
      }
    } else {
      var r := CutAt(p[1..], k);
      up := [p[0]] + r;
      assert up[1..] == r;
    }
  }
}
