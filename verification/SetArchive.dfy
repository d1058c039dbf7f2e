/** A set's ustar archive: the writer, and reading the stream back. */
module SetArchive {
  import opened Words
  import opened Paths
  import opened InstallTree
  import opened Ustar
  import opened TarHeader

  /** A file's contents; a `Vec` holds fewer than 2^63 bytes. */
  type Contents = s: seq<byte> | |s| < TWO_63

  /** The staged files and the set specifications; `None` where reading fails. */
  datatype Disk = Disk(staged: Path -> Option<Contents>, specs: seq<byte> -> Option<Contents>)

  /** One member: its header, and the data after it. */
  datatype Piece = Piece(m: Member, data: Contents)

  const HERE: Path := [0x2e, 0x2f]  // "./"

  function PadLength(n: nat): nat {
    (512 - n % 512) % 512
  }

  // ---- The writer ----

  function MakeMember(path: Path, item: Installed, kind: Type, size: u64, link: seq<byte>, epoch: i64): Member {
    Member(path, item.mode, item.uid, item.gid, kind, size, link, epoch)
  }

  function DataPiece(path: Path, item: Installed, bytes: Option<Contents>, epoch: i64): Option<Piece> {
    match bytes
    case None => None
    case Some(b) => Some(Piece(MakeMember(HERE + path, item, Regular, |b|, [], epoch), b))
  }

  /** The install-list name of the file `path` names. */
  function InodeOf(path: Path, item: Installed): Path {
    if item.body.Hardlink? then item.body.other else path
  }

  predicate HasInode(item: Installed) {
    item.body.File? || item.body.Hardlink?
  }

  /** What `path` becomes in the archive, given the first names so far. */
  function PieceFor(path: Path, item: Installed, disk: Disk, epoch: i64, first: map<Path, Path>): Option<Piece> {
    match item.body
    case Dir =>
      var name := if path == [] then HERE else HERE + path + [SLASH];
      Some(Piece(MakeMember(name, item, Directory, 0, [], epoch), []))
    case Link(target) => Some(Piece(MakeMember(HERE + path, item, Symlink, 0, target, epoch), []))
    case SetSpec(s) => DataPiece(path, item, disk.specs(s), epoch)
    case _ =>
      var inode := InodeOf(path, item);
      if inode in first then Some(Piece(MakeMember(HERE + path, item, Type.Link, 0, HERE + first[inode], epoch), []))
      else DataPiece(path, item, disk.staged(path), epoch)
  }

  function NextFirst(path: Path, item: Installed, first: map<Path, Path>): map<Path, Path> {
    if HasInode(item) && InodeOf(path, item) !in first then first[InodeOf(path, item) := path] else first
  }

  datatype Progress = Progress(pieces: seq<Piece>, first: map<Path, Path>)

  function PieceStep(tree: Tree, disk: Disk, epoch: i64, path: Path, p: Progress): Option<Progress> {
    if path !in tree then None
    else match PieceFor(path, tree[path], disk, epoch, p.first)
      case None => None
      case Some(piece) =>
        if Fits(piece.m) then Some(Progress(p.pieces + [piece], NextFirst(path, tree[path], p.first))) else None
  }

  /** The members for the first `n` paths. */
  function Pieces(paths: seq<Path>, n: nat, tree: Tree, disk: Disk, epoch: i64): (r: Option<Progress>)
    requires n <= |paths|
    ensures r.Some? ==> |r.value.pieces| == n && forall k :: 0 <= k < n ==> Fits(r.value.pieces[k].m)
  {
    if n == 0 then Some(Progress([], map[]))
    else match Pieces(paths, n - 1, tree, disk, epoch)
      case None => None
      case Some(p) => PieceStep(tree, disk, epoch, paths[n - 1], p)
  }

  predicate AllFit(pieces: seq<Piece>) {
    forall k :: 0 <= k < |pieces| ==> Fits(pieces[k].m)
  }

  /** A header block and the data after it. */
  datatype Blocks = Blocks(header: seq<byte>, data: seq<byte>)

  function BlocksOf(p: Piece): Blocks
    requires Fits(p.m)
  {
    Blocks(Header(p.m), p.data)
  }

  function AllBlocks(pieces: seq<Piece>): (bs: seq<Blocks>)
    requires AllFit(pieces)
    ensures |bs| == |pieces|
  {
    seq(|pieces|, k requires 0 <= k < |pieces| => BlocksOf(pieces[k]))
  }

  function BlockBytes(b: Blocks): seq<byte> {
    b.header + b.data + Zeros(PadLength(|b.data|))
  }

  /** The blocks one after the other, and `rest` after them. */
  function Stream(bs: seq<Blocks>, rest: seq<byte>): seq<byte> {
    if bs == [] then rest else BlockBytes(bs[0]) + Stream(bs[1..], rest)
  }

  lemma {:induction false} PiecesStop(paths: seq<Path>, k: nat, n: nat, tree: Tree, disk: Disk, epoch: i64)
    requires k <= n <= |paths| && Pieces(paths, k, tree, disk, epoch).None?
    ensures Pieces(paths, n, tree, disk, epoch).None?
  {
    if k < n {
      PiecesStop(paths, k, n - 1, tree, disk, epoch);
    }
  }

  lemma {:induction false} StreamAppend(bs: seq<Blocks>, mid: seq<byte>, rest: seq<byte>)
    ensures Stream(bs, mid + rest) == Stream(bs, mid) + rest
  {
    if bs != [] {
      StreamAppend(bs[1..], mid, rest);
      ConcatAssociative(BlockBytes(bs[0]), Stream(bs[1..], mid), rest);
    }
  }

  lemma {:induction false} ConcatAssociative(a: seq<byte>, b: seq<byte>, c: seq<byte>)
    ensures (a + b) + c == a + (b + c)
  {
  }

  lemma {:induction false} StreamSnoc(bs: seq<Blocks>, b: Blocks)
    ensures Stream(bs + [b], []) == Stream(bs, []) + BlockBytes(b)
  {
    if bs == [] {
      assert (bs + [b])[1..] == [];
    } else {
      StreamSnoc(bs[1..], b);
      assert (bs + [b])[1..] == bs[1..] + [b];
      ConcatAssociative(BlockBytes(bs[0]), Stream(bs[1..], []), BlockBytes(b));
    }
  }

  lemma {:induction false} BlocksSnoc(pieces: seq<Piece>, p: Piece)
    requires AllFit(pieces) && Fits(p.m)
    ensures AllFit(pieces + [p]) && AllBlocks(pieces + [p]) == AllBlocks(pieces) + [BlocksOf(p)]
  {
  }

  /** One member's blocks, or `None` where the writer panics. */
  method WriteMember(piece: Piece) returns (r: Option<seq<byte>>)
    ensures r == if Fits(piece.m) then Some(BlockBytes(BlocksOf(piece))) else None
  {
    var h := UstarHeader(piece.m);
    if h.None? {
      return None;
    }
    return Some(h.value + piece.data + Zeros(PadLength(|piece.data|)));
  }

  /** The blocks for one path. */
  method WritePath(tree: Tree, disk: Disk, epoch: i64, path: Path, first: map<Path, Path>, ghost p: Progress)
    returns (r: Option<seq<byte>>, ghost q: Progress)
    requires AllFit(p.pieces) && first == p.first
    ensures r.Some? <==> PieceStep(tree, disk, epoch, path, p).Some?
    ensures r.Some? ==>
              PieceStep(tree, disk, epoch, path, p) == Some(q) && q.first == NextFirst(path, tree[path], first)
    ensures r.Some? ==> AllFit(q.pieces) && Stream(AllBlocks(q.pieces), []) == Stream(AllBlocks(p.pieces), []) + r.value
  {
    q := p;
    if path !in tree {
      return None, p;
    }
    var piece := PieceFor(path, tree[path], disk, epoch, first);
    if piece.None? {
      return None, p;
    }
    r := WriteMember(piece.value);
    if r.Some? {
      q := Progress(p.pieces + [piece.value], NextFirst(path, tree[path], first));
      BlocksSnoc(p.pieces, piece.value);
      StreamSnoc(AllBlocks(p.pieces), BlocksOf(piece.value));
    }
  }

  /** `write_set_archive`, up to compression; `None` where it panics. */
  method WriteSetArchive(paths: seq<Path>, tree: Tree, disk: Disk, epoch: i64) returns (r: Option<seq<byte>>)
    ensures match Pieces(paths, |paths|, tree, disk, epoch)
            case None => r == None
            case Some(p) => r == Some(Stream(AllBlocks(p.pieces), Zeros(1024)))
  {
    var out: seq<byte> := [];
    var first: map<Path, Path> := map[];
    ghost var p := Progress([], map[]);
    for n := 0 to |paths|
      invariant Pieces(paths, n, tree, disk, epoch) == Some(p) && first == p.first
      invariant AllFit(p.pieces) && out == Stream(AllBlocks(p.pieces), [])
    {
      var blocks, q := WritePath(tree, disk, epoch, paths[n], first, p);
      if blocks.None? {
        PiecesStop(paths, n + 1, |paths|, tree, disk, epoch);
        return None;
      }
      out := out + blocks.value;
      first := NextFirst(paths[n], tree[paths[n]], first);
      p := q;
    }
    StreamAppend(AllBlocks(p.pieces), [], Zeros(1024));
    assert [] + Zeros(1024) == Zeros(1024);
    return Some(out + Zeros(1024));
  }

  // ---- The reader ----

  /** What comes out of an archive: the entry and its data. */
  datatype Extracted = Extracted(e: Entry, data: seq<byte>)

  function DataLength(e: Entry): nat {
    if e.kind == TarHeader.File || e.kind == HardLink || e.kind.Other? then e.size else 0
  }

  /** An empty regular file whose name ends in a slash is a directory. */
  function Settle(e: Entry): Entry {
    var slashed := e.path != [] && e.path[|e.path| - 1] == SLASH;
    if e.kind == TarHeader.File && slashed && e.size == 0 then e.(kind := TarHeader.Dir) else e
  }

  type Parser = seq<byte> -> Option<Parsed>

  function HeaderParser(): Parser {
    (h: seq<byte>) => if |h| == 512 then Parse(h) else None
  }

  /** Every member of a stream, in order, without extended headers; `None` if it is damaged or cut short. */
  function ReadMembers(parse: Parser, s: seq<byte>): Option<seq<Extracted>>
    decreases |s|
  {
    if s == [] then Some([])
    else if |s| < 512 then None
    else match parse(s[..512])
      case None => None
      case Some(Zero) => Some([])
      case Some(Meta(_, _)) => None
      case Some(Found(parsed)) =>
        var e := Settle(parsed);
        var n := DataLength(e);
        var end := 512 + n + PadLength(n);
        if |s| < end then None
        else match ReadMembers(parse, s[end..])
          case None => None
          case Some(rest) => Some([Extracted(e, s[512..512 + n])] + rest)
  }

  /** A member whose size says what follows it. */
  predicate Sized(p: Piece) {
    p.m.size == |p.data| && (p.m.kind != Regular ==> p.data == [])
  }

  function Back(p: Piece): Extracted
    requires Fits(p.m)
  {
    Extracted(Settle(EntryBack(p.m)), p.data)
  }

  function BackAll(pieces: seq<Piece>): (es: seq<Extracted>)
    requires AllFit(pieces)
    ensures |es| == |pieces|
  {
    seq(|pieces|, k requires 0 <= k < |pieces| => Back(pieces[k]))
  }

  /** `b` reads as `x`. */
  ghost predicate Reads(parse: Parser, b: Blocks, x: Extracted) {
    && |b.header| == 512 && parse(b.header).Some? && parse(b.header).value.Found?
    && x.e == Settle(parse(b.header).value.e) && x.data == b.data && DataLength(x.e) == |b.data|
  }

  lemma {:induction false} ReadOne(parse: Parser, b: Blocks, x: Extracted, rest: seq<byte>)
    requires Reads(parse, b, x)
    ensures ReadMembers(parse, BlockBytes(b) + rest) ==
              match ReadMembers(parse, rest)
              case None => None
              case Some(es) => Some([x] + es)
  {
    var s := BlockBytes(b) + rest;
    var n := |b.data|;
    assert s[..512] == b.header;
    assert s[512..512 + n] == b.data;
    assert s[512 + n + PadLength(n)..] == rest;
  }

  type Reader = seq<byte> -> Option<seq<Extracted>>

  function TarReader(): Reader {
    (s: seq<byte>) => ReadMembers(HeaderParser(), s)
  }

  function Cons(x: Extracted, rest: Option<seq<Extracted>>): Option<seq<Extracted>> {
    match rest
    case None => None
    case Some(xs) => Some([x] + xs)
  }

  /** What is left of the stream from block `k` on. */
  function From(bs: seq<Blocks>, k: nat, rest: seq<byte>): seq<byte>
    requires k <= |bs|
  {
    Stream(bs[k..], rest)
  }

  /** Blocks read back one after the other, whatever follows them. */
  lemma {:induction false} ReadFrom(read: Reader, bs: seq<Blocks>, xs: seq<Extracted>, rest: seq<byte>,
                                    more: seq<Extracted>, k: nat)
    requires k <= |bs| == |xs| && read(rest) == Some(more)
    requires forall j :: 0 <= j < |bs| ==> read(From(bs, j, rest)) == Cons(xs[j], read(From(bs, j + 1, rest)))
    ensures read(From(bs, k, rest)) == Some(xs[k..] + more)
    decreases |bs| - k
  {
    if k == |bs| {
      assert From(bs, k, rest) == rest;
      assert xs[k..] + more == more;
    } else {
      ReadFrom(read, bs, xs, rest, more, k + 1);
      assert [xs[k]] + (xs[k + 1..] + more) == xs[k..] + more;
    }
  }

  lemma {:induction false} ReadStep(bs: seq<Blocks>, xs: seq<Extracted>, rest: seq<byte>, k: nat)
    requires k < |bs| == |xs| && Reads(HeaderParser(), bs[k], xs[k])
    ensures TarReader()(From(bs, k, rest)) == Cons(xs[k], TarReader()(From(bs, k + 1, rest)))
  {
    assert bs[k..][1..] == bs[k + 1..];
    ReadOne(HeaderParser(), bs[k], xs[k], From(bs, k + 1, rest));
  }

  lemma {:induction false} ZeroParses(h: seq<byte>)
    requires |h| == 512 && forall i :: 0 <= i < 512 ==> h[i] == 0
    ensures HeaderParser()(h) == Some(Zero)
  {
    assert ReadFields(h).zero;
  }

  lemma {:induction false} ZeroEnds(parse: Parser, s: seq<byte>)
    requires |s| >= 512 && parse(s[..512]) == Some(Zero)
    ensures ReadMembers(parse, s) == Some([])
  {
  }

  lemma {:induction false} EndRead()
    ensures TarReader()(Zeros(1024)) == Some([])
  {
    ZeroParses(Zeros(1024)[..512]);
    ZeroEnds(HeaderParser(), Zeros(1024));
  }

  lemma {:induction false} PieceReads(p: Piece)
    requires Fits(p.m) && Sized(p)
    ensures Reads(HeaderParser(), BlocksOf(p), Back(p))
  {
    ParseInvertsHeader(p.m);
    assert HeaderParser()(Header(p.m)) == Parse(Header(p.m));
  }

  lemma {:induction false} ReadAllBlocks(bs: seq<Blocks>, xs: seq<Extracted>)
    requires |bs| == |xs| && forall k :: 0 <= k < |bs| ==> Reads(HeaderParser(), bs[k], xs[k])
    ensures TarReader()(Stream(bs, Zeros(1024))) == Some(xs)
  {
    var read, rest := TarReader(), Zeros(1024);
    forall k | 0 <= k < |bs|
      ensures read(From(bs, k, rest)) == Cons(xs[k], read(From(bs, k + 1, rest)))
    {
      ReadStep(bs, xs, rest, k);
    }
    EndRead();
    ReadFrom(read, bs, xs, rest, [], 0);
    assert bs[0..] == bs && xs[0..] + [] == xs;
  }

  /** Reading an archive gives back its members, in order, and nothing else. */
  lemma {:induction false} ReadBack(pieces: seq<Piece>)
    requires AllFit(pieces) && forall k :: 0 <= k < |pieces| ==> Sized(pieces[k])
    ensures TarReader()(Stream(AllBlocks(pieces), Zeros(1024))) == Some(BackAll(pieces))
  {
    forall k | 0 <= k < |pieces|
      ensures Reads(HeaderParser(), AllBlocks(pieces)[k], BackAll(pieces)[k])
    {
      PieceReads(pieces[k]);
    }
    ReadAllBlocks(AllBlocks(pieces), BackAll(pieces));
  }

  lemma {:induction false} StepSized(tree: Tree, disk: Disk, epoch: i64, path: Path, p: Progress)
    requires PieceStep(tree, disk, epoch, path, p).Some? && forall k :: 0 <= k < |p.pieces| ==> Sized(p.pieces[k])
    ensures var ps := PieceStep(tree, disk, epoch, path, p).value.pieces; forall k :: 0 <= k < |ps| ==> Sized(ps[k])
  {
  }

  lemma {:induction false} PiecesSized(paths: seq<Path>, n: nat, tree: Tree, disk: Disk, epoch: i64)
    requires n <= |paths| && Pieces(paths, n, tree, disk, epoch).Some?
    ensures var ps := Pieces(paths, n, tree, disk, epoch).value.pieces; forall k :: 0 <= k < |ps| ==> Sized(ps[k])
  {
    if n > 0 {
      PiecesSized(paths, n - 1, tree, disk, epoch);
      StepSized(tree, disk, epoch, paths[n - 1], Pieces(paths, n - 1, tree, disk, epoch).value);
    }
  }

  // ---- Links ----

  /** The members for the first names hold the data. */
  ghost predicate FirstsHoldData(pieces: seq<Piece>, first: map<Path, Path>) {
    forall i :: i in first ==>
      exists j :: 0 <= j < |pieces| && pieces[j].m.kind == Regular && pieces[j].m.path == HERE + first[i]
  }

  /** Member `k` links to the name of a data member before it. */
  ghost predicate LinksBefore(pieces: seq<Piece>, k: nat)
    requires k < |pieces|
  {
    exists j :: 0 <= j < k && pieces[j].m.kind == Regular && pieces[k].m.link == pieces[j].m.path
  }

  lemma {:induction false} StepLinks(ps: seq<Piece>, first: map<Path, Path>, path: Path, item: Installed, disk: Disk,
                                     epoch: i64)
    requires FirstsHoldData(ps, first) && PieceFor(path, item, disk, epoch, first).Some?
    ensures var piece := PieceFor(path, item, disk, epoch, first).value;
            && (piece.m.kind == Type.Link ==> LinksBefore(ps + [piece], |ps|))
            && FirstsHoldData(ps + [piece], NextFirst(path, item, first))
  {
    var piece := PieceFor(path, item, disk, epoch, first).value;
    var ps' := ps + [piece];
    if piece.m.kind == Type.Link {
      var j :| 0 <= j < |ps| && ps[j].m.kind == Regular && ps[j].m.path == HERE + first[InodeOf(path, item)];
      assert ps'[j] == ps[j];
    }
    forall i | i in NextFirst(path, item, first)
      ensures exists j :: 0 <= j < |ps'| && ps'[j].m.kind == Regular
                          && ps'[j].m.path == HERE + NextFirst(path, item, first)[i]
    {
      if i in first {
        var j :| 0 <= j < |ps| && ps[j].m.kind == Regular && ps[j].m.path == HERE + first[i];
        assert ps'[j] == ps[j];
      } else {
        assert ps'[|ps|] == piece;
      }
    }
  }

  /** Over any tree and list of paths, every link member names a data member before it. */
  lemma {:induction false} LinksFollowData(paths: seq<Path>, n: nat, tree: Tree, disk: Disk, epoch: i64, k: nat)
    requires n <= |paths| && Pieces(paths, n, tree, disk, epoch).Some?
    ensures var p := Pieces(paths, n, tree, disk, epoch).value;
            FirstsHoldData(p.pieces, p.first) && (k < n && p.pieces[k].m.kind == Type.Link ==> LinksBefore(p.pieces, k))
  {
    if n > 0 {
      LinksFollowData(paths, n - 1, tree, disk, epoch, k);
      var p := Pieces(paths, n - 1, tree, disk, epoch).value;
      var piece := PieceFor(paths[n - 1], tree[paths[n - 1]], disk, epoch, p.first).value;
      StepLinks(p.pieces, p.first, paths[n - 1], tree[paths[n - 1]], disk, epoch);
      if k < n - 1 && p.pieces[k].m.kind == Type.Link {
        var j :| 0 <= j < k && p.pieces[j].m.kind == Regular && p.pieces[k].m.link == p.pieces[j].m.path;
        assert (p.pieces + [piece])[j] == p.pieces[j];
      }
    }
  }
}
