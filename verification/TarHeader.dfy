/** tar(1)'s reader of header blocks, and what it makes of the dist sets' own headers. */
module TarHeader {
  import opened Words
  import opened Paths
  import opened Ustar

  datatype Kind = File | HardLink | SymbolicLink | Char | Block | Dir | Fifo | Other(flag: byte)

  function FromFlag(c: byte): Kind {
    if c == 0x30 || c == 0 || c == 0x37 then File
    else if c == 0x31 then HardLink
    else if c == 0x32 then SymbolicLink
    else if c == 0x33 then Char
    else if c == 0x34 then Block
    else if c == 0x35 then Dir
    else if c == 0x36 then Fifo
    else Other(c)
  }

  datatype Entry = Entry(path: seq<byte>, link: seq<byte>, kind: Kind, mode: u32, uid: u64, gid: u64,
                         uname: seq<byte>, gname: seq<byte>, size: u64, mtime: i64, devmajor: u32, devminor: u32)

  datatype Parsed = Zero | Meta(flag: byte, size: u64) | Found(e: Entry)

  // ---- Numbers and strings ----

  function BeValue(s: seq<byte>): nat {
    if s == [] then 0 else 256 * BeValue(s[..|s| - 1]) + s[|s| - 1]
  }

  /** GNU's binary form, for what octal digits can't hold: a leading 0x80 or 0xff, then the number most
      significant byte first. */
  function Base256(f: seq<byte>): Option<i64>
    requires |f| >= 8 && f[0] >= 0x80
  {
    var negative := f[0] == 0xff;
    var fill: byte := if negative then 0xff else 0;
    var first: byte := if negative then 0xff else f[0] - 0x80;
    var b := [first] + f[1..];
    var start := |f| - 8;
    if exists i :: 0 <= i < start && b[i] != fill && !(i == 0 && b[i] % 128 == 0) then None
    else
      var u := BeValue(b[start..]) % TWO_64;
      var v: i64 := if u < TWO_63 then u else u - TWO_64;
      if !negative && v < 0 then None else Some(v)
  }

  function SkipBlanks(f: seq<byte>, i: nat): (r: nat)
    requires i <= |f|
    ensures i <= r <= |f|
    decreases |f| - i
  {
    if i < |f| && (f[i] == SPACE || f[i] == 0) then SkipBlanks(f, i + 1) else i
  }

  function ScanOctal(f: seq<byte>, i: nat, v: nat): Option<i64>
    requires i <= |f| && v < TWO_63
    decreases |f| - i
  {
    if i < |f| && DIGIT <= f[i] < DIGIT + 8 then
      var next := v * 8 + (f[i] - DIGIT);
      if next >= TWO_63 then None else ScanOctal(f, i + 1, next)
    else if i < |f| && f[i] != SPACE && f[i] != 0 then None
    else Some(v)
  }

  /** `get_num`. */
  function GetNum(f: seq<byte>): Option<i64>
    requires |f| >= 8
  {
    if f[0] >= 0x80 then Base256(f)
    else
      var i := SkipBlanks(f, 0);
      if i == |f| then Some(0) else ScanOctal(f, i, 0)
  }

  function ZeroAt(f: seq<byte>): (n: nat)
    ensures n <= |f| && (n < |f| ==> f[n] == 0) && forall i :: 0 <= i < n ==> f[i] != 0
  {
    if f == [] then 0
    else if f[0] == 0 then 0
    else 1 + ZeroAt(f[1..])
  }

  /** `get_str`: up to the first NUL. */
  function GetStr(f: seq<byte>): (s: seq<byte>)
    ensures s <= f && 0 !in s && (|s| < |f| ==> f[|s|] == 0)
  {
    f[..ZeroAt(f)]
  }

  /** The two sums a checksum may be: of the bytes, and of the bytes as signed. */
  function UnsignedSum(h: seq<byte>, n: nat): nat
    requires n <= |h|
  {
    if n == 0 then 0
    else UnsignedSum(h, n - 1) + if 148 <= n - 1 < 156 then SPACE else h[n - 1]
  }

  function SignedSum(h: seq<byte>, n: nat): int
    requires n <= |h|
  {
    if n == 0 then 0
    else
      var b := if 148 <= n - 1 < 156 then SPACE else h[n - 1];
      SignedSum(h, n - 1) + if b < 128 then b else b - 256
  }

  // ---- The block ----

  /** A block's fields, each read on its own. */
  datatype Fields = Fields(zero: bool, name: seq<byte>, prefix: seq<byte>, link: seq<byte>, uname: seq<byte>,
                           gname: seq<byte>,
                           flag: byte, posix: bool, gnu: bool, want: Option<i64>, unsignedSum: int, signedSum: int,
                           mode: Option<i64>, uid: Option<i64>, gid: Option<i64>, size: Option<i64>, mtime: Option<i64>,
                           major: Option<i64>, minor: Option<i64>)

  function ReadFields(h: seq<byte>): Fields
    requires |h| == BLOCK
  {
    Fields(forall i :: 0 <= i < BLOCK ==> h[i] == 0,
           GetStr(h[0..100]), GetStr(h[345..500]), GetStr(h[157..257]), GetStr(h[265..297]), GetStr(h[297..329]),
           h[156], h[257..263] == USTAR, h[257..265] == [0x75, 0x73, 0x74, 0x61, 0x72, 0x20, 0x20, 0],
           GetNum(h[148..156]), UnsignedSum(h, BLOCK), SignedSum(h, BLOCK),
           GetNum(h[100..108]), GetNum(h[108..116]), GetNum(h[116..124]), GetNum(h[124..136]), GetNum(h[136..148]),
           GetNum(h[329..337]), GetNum(h[337..345]))
  }

  function AtLeast0(v: i64): u64 {
    if v < 0 then 0 else v
  }

  function Clamp32(v: i64): u32 {
    if v < 0 then 0 else if v >= TWO_32 then TWO_32 - 1 else v
  }

  /** A member, once its checksum, type and size are known. */
  function ParseEntry(f: Fields, size: u64): Option<Entry> {
    var path := if f.posix && f.prefix != [] then f.prefix + [SLASH] + f.name else f.name;
    var kind := if f.flag == 0 && path != [] && path[|path| - 1] == SLASH then Dir else FromFlag(f.flag);
    var ustarish := f.posix || f.gnu;
    var devices := ustarish && (kind == Char || kind == Block);
    if f.mode.None? || f.uid.None? || f.gid.None? || f.mtime.None? then None
    else if devices && (f.major.None? || f.minor.None?) then None
    else
      Some(Entry(path, f.link, kind, f.mode.value % 0x100_0000, AtLeast0(f.uid.value), AtLeast0(f.gid.value),
                       if ustarish then f.uname else [], if ustarish then f.gname else [], size, f.mtime.value,
                       if devices then Clamp32(f.major.value) else 0, if devices then Clamp32(f.minor.value) else 0))
  }

  function ParseFields(f: Fields): Option<Parsed> {
    if f.zero then Some(Zero)
    else if f.want.None? || (f.want.value != f.unsignedSum && f.want.value != f.signedSum) then None
    else if f.size.None? || f.size.value < 0 then None
    else if f.flag in [0x78, 0x67, 0x4c, 0x4b] then Some(Meta(f.flag, f.size.value))
    else match ParseEntry(f, f.size.value)
      case None => None
      case Some(e) => Some(Found(e))
  }

  /** `parse`; `None` for a damaged header. */
  function Parse(h: seq<byte>): Option<Parsed>
    requires |h| == BLOCK
  {
    ParseFields(ReadFields(h))
  }

  // ---- Fields come back ----

  function OctalValue(s: seq<byte>): nat
    requires IsOctal(s)
  {
    if s == [] then 0 else 8 * OctalValue(s[..|s| - 1]) + (s[|s| - 1] - DIGIT)
  }

  lemma {:induction false} OctalRoundTrip(v: nat, width: nat)
    ensures IsOctal(Octal(v, width)) && OctalValue(Octal(v, width)) == v
  {
    OctalDigits(v, width);
    if v != 0 || width != 0 {
      var w := if width > 0 then width - 1 else 0;
      OctalRoundTrip(v / 8, w);
      var digits := Octal(v, width);
      assert digits[..|digits| - 1] == Octal(v / 8, w);
    }
  }

  lemma {:induction false} PrefixSmaller(s: seq<byte>, k: nat)
    requires IsOctal(s) && k <= |s|
    ensures OctalValue(s[..k]) <= OctalValue(s)
    decreases |s| - k
  {
    assert s[..|s|] == s;
    if k < |s| {
      PrefixSmaller(s, k + 1);
      assert s[..k + 1][..k] == s[..k];
    }
  }

  /** Scanning digits up to a NUL finds their value. */
  lemma {:induction false} ScanFinds(f: seq<byte>, n: nat, k: nat)
    requires k <= n < |f| && IsOctal(f[..n]) && OctalValue(f[..n]) < TWO_63 && f[n] == 0
    requires IsOctal(f[..k]) && OctalValue(f[..k]) < TWO_63
    ensures ScanOctal(f, k, OctalValue(f[..k])) == Some(OctalValue(f[..n]))
    decreases n - k
  {
    if k < n {
      assert f[..n][..k + 1] == f[..k + 1];
      PrefixSmaller(f[..n], k + 1);
      assert f[..k + 1][..k] == f[..k];
      assert f[k] == f[..n][k];
      ScanFinds(f, n, k + 1);
    }
  }

  lemma {:induction false} DigitsRead(v: nat, width: nat, rest: seq<byte>)
    requires 0 < width && v < Pow8(width) && v < TWO_63 && |rest| > 0 && rest[0] == 0 && width + |rest| >= 8
    ensures |Octal(v, width) + rest| >= 8 && GetNum(Octal(v, width) + rest) == Some(v)
  {
    OctalLength(v, width);
    OctalRoundTrip(v, width);
    var f := Octal(v, width) + rest;
    assert f[..width] == Octal(v, width);
    assert f[0] == Octal(v, width)[0];
    assert SkipBlanks(f, 0) == 0;
    assert f[..0] == [];
    ScanFinds(f, width, 0);
  }

  lemma {:induction false} NumberRead(v: nat, len: nat)
    requires len >= 8 && v < Pow8(len - 1) && v < TWO_63
    ensures GetNum(Number(v, len)) == Some(v)
  {
    OctalLength(v, len - 1);
    DigitsRead(v, len - 1, Zeros(1));
  }

  /** The bytes before the first NUL are the only ones to have none and be followed by one. */
  lemma {:induction false} StringIs(f: seq<byte>, s: seq<byte>)
    requires s <= f && 0 !in s && (|s| < |f| ==> f[|s|] == 0)
    ensures GetStr(f) == s
  {
    assert forall i :: 0 <= i < |s| ==> f[i] == s[i] && s[i] in s;
  }

  lemma {:induction false} StringRead(bytes: seq<byte>, len: nat)
    requires |bytes| <= len
    ensures GetStr(Padded(bytes, len)) == GetStr(bytes)
  {
    StringIs(Padded(bytes, len), GetStr(bytes));
  }

  lemma {:induction false} WholeString(s: seq<byte>)
    ensures GetStr(s) == s <==> 0 !in s
  {
    if 0 !in s {
      StringIs(s, s);
    }
  }

  // ---- The block comes back ----

  lemma {:induction false} HeaderParts(m: Member)
    requires Fits(m)
    ensures var h := Header(m);
            h[..148] == Front(m) && h[148..156] == ChecksumField(m) && h[156..265] == Middle(m) && h[265..] == Rear(m)
  {
  }

  lemma {:induction false} FrontSlices(m: Member)
    requires Fits(m)
    ensures m.mode % 4096 < Pow8(7)
    ensures var f := Front(m);
            && f[0..100] == Padded(SplitName(m.path).value.1, 100)
            && f[100..108] == Number(m.mode % 4096, 8)
            && f[108..116] == Number(m.uid, 8)
            && f[116..124] == Number(m.gid, 8)
            && f[124..136] == Number(m.size, 12)
            && f[136..148] == Number(Time(m.mtime), 12)
  {
    ModeFits();
    SixParts(Padded(SplitName(m.path).value.1, 100), Number(m.mode % 4096, 8), Number(m.uid, 8), Number(m.gid, 8),
             Number(m.size, 12), Number(Time(m.mtime), 12));
  }

  lemma {:induction false} SixParts(a: seq<byte>, b: seq<byte>, c: seq<byte>, d: seq<byte>, e: seq<byte>, f: seq<byte>)
    requires |a| == 100 && |b| == |c| == |d| == 8 && |e| == |f| == 12
    ensures var s := a + b + c + d + e + f;
            && s[0..100] == a && s[100..108] == b && s[108..116] == c && s[116..124] == d
            && s[124..136] == e && s[136..148] == f
  {
  }

  lemma {:induction false} MiddleSlices(m: Member)
    requires |m.link| <= 100
    ensures var f := Middle(m);
            f[0] == Flag(m.kind) && f[1..101] == Padded(m.link, 100) && f[101..107] == USTAR
  {
  }

  lemma {:induction false} RearSlices(m: Member)
    requires SplitName(m.path).Some?
    ensures var f := Rear(m);
            && f[0..32] == Padded(if m.uid == 0 then ROOT else [], 32)
            && f[32..64] == Padded(if m.gid == 0 then WHEEL else [], 32)
            && f[80..235] == Padded(SplitName(m.path).value.0, 155)
  {
  }

  /** The numbers of a written header. */
  lemma {:induction false} NumbersRead(m: Member)
    requires Fits(m)
    ensures var h := Header(m);
            && GetNum(h[100..108]) == Some(m.mode % 4096)
            && GetNum(h[108..116]) == Some(m.uid)
            && GetNum(h[116..124]) == Some(m.gid)
            && GetNum(h[124..136]) == Some(m.size)
            && GetNum(h[136..148]) == Some(Time(m.mtime))
  {
    var h := Header(m);
    HeaderParts(m);
    FrontSlices(m);
    ModeFits();
    assert h[100..108] == h[..148][100..108];
    assert h[108..116] == h[..148][108..116];
    assert h[116..124] == h[..148][116..124];
    assert h[124..136] == h[..148][124..136];
    assert h[136..148] == h[..148][136..148];
    NumberRead(m.mode % 4096, 8);
    NumberRead(m.uid, 8);
    NumberRead(m.gid, 8);
    NumberRead(m.size, 12);
    NumberRead(Time(m.mtime), 12);
  }

  /** The name, type and link of a written header. */
  lemma {:induction false} NamesRead(m: Member)
    requires Fits(m)
    ensures var h := Header(m);
            && h[156] == Flag(m.kind) && h[257..263] == USTAR
            && GetStr(h[0..100]) == GetStr(SplitName(m.path).value.1)
            && GetStr(h[157..257]) == GetStr(m.link)
  {
    var h := Header(m);
    HeaderParts(m);
    FrontSlices(m);
    MiddleSlices(m);
    assert h[0..100] == h[..148][0..100];
    assert h[156] == h[156..265][0];
    assert h[157..257] == h[156..265][1..101];
    assert h[257..263] == h[156..265][101..107];
    StringRead(SplitName(m.path).value.1, 100);
    StringRead(m.link, 100);
  }

  lemma {:induction false} RearFields(h: seq<byte>, rear: seq<byte>, uname: seq<byte>, gname: seq<byte>,
                                      prefix: seq<byte>)
    requires |h| == BLOCK && h[265..] == rear && |uname| <= 32 && |gname| <= 32 && |prefix| <= 155
    requires rear[0..32] == Padded(uname, 32) && rear[32..64] == Padded(gname, 32)
             && rear[80..235] == Padded(prefix, 155)
    ensures GetStr(h[265..297]) == GetStr(uname) && GetStr(h[297..329]) == GetStr(gname)
    ensures GetStr(h[345..500]) == GetStr(prefix)
  {
    assert h[265..297] == rear[0..32] && h[297..329] == rear[32..64] && h[345..500] == rear[80..235];
    StringRead(uname, 32);
    StringRead(gname, 32);
    StringRead(prefix, 155);
  }

  /** The owners' names and the prefix of a written header. */
  lemma {:induction false} OwnersRead(m: Member)
    requires Fits(m)
    ensures var h := Header(m);
            && GetStr(h[345..500]) == GetStr(SplitName(m.path).value.0)
            && GetStr(h[265..297]) == (if m.uid == 0 then ROOT else [])
            && GetStr(h[297..329]) == (if m.gid == 0 then WHEEL else [])
  {
    HeaderParts(m);
    RearSlices(m);
    RearFields(Header(m), Rear(m), if m.uid == 0 then ROOT else [], if m.gid == 0 then WHEEL else [],
               SplitName(m.path).value.0);
    WholeString(ROOT);
    WholeString(WHEEL);
    WholeString([]);
  }

  lemma {:induction false} BlankedSum(h: seq<byte>, blank: seq<byte>, n: nat)
    requires n <= |h| == |blank|
    requires forall i :: 0 <= i < n ==> blank[i] == if 148 <= i < 156 then SPACE else h[i]
    ensures UnsignedSum(h, n) == Sum(blank, n)
  {
    if n > 0 {
      BlankedSum(h, blank, n - 1);
    }
  }

  lemma {:induction false} SumRead(front: seq<byte>, field: seq<byte>, middle: seq<byte>, rear: seq<byte>)
    requires |front| == 148 && |field| == 8 && |middle| == 109 && |rear| == 247
    ensures UnsignedSum(front + field + middle + rear, BLOCK) == Sum(front + BLANKS + middle + rear, BLOCK)
  {
    BlankedSum(front + field + middle + rear, front + BLANKS + middle + rear, BLOCK);
  }

  lemma {:induction false} ChecksumRead(m: Member)
    requires Fits(m)
    ensures GetNum(Header(m)[148..156]) == Some(UnsignedSum(Header(m), BLOCK))
  {
    HeaderParts(m);
    ModeFits();
    SumRead(Front(m), ChecksumField(m), Middle(m), Rear(m));
    DigitsRead(Checksum(m), 6, [0, SPACE]);
  }

  function ReadKind(t: Type): Kind {
    match t
    case Regular => File
    case Link => HardLink
    case Symlink => SymbolicLink
    case Directory => Dir
  }

  /** The path that comes back: NULs end a field, and an empty prefix loses its slash. */
  function PathBack(path: seq<byte>): seq<byte>
    requires SplitName(path).Some?
  {
    var (prefix, name) := SplitName(path).value;
    if GetStr(prefix) != [] then GetStr(prefix) + [SLASH] + GetStr(name) else GetStr(name)
  }

  function EntryBack(m: Member): Entry
    requires Fits(m)
  {
    Entry(PathBack(m.path), GetStr(m.link), ReadKind(m.kind), m.mode % 4096, m.uid, m.gid,
                if m.uid == 0 then ROOT else [], if m.gid == 0 then WHEEL else [], m.size, Time(m.mtime), 0, 0)
  }

  lemma {:induction false} FlagRead(t: Type)
    ensures FromFlag(Flag(t)) == ReadKind(t) && Flag(t) != 0 && Flag(t) !in [0x78, 0x67, 0x4c, 0x4b]
  {
  }

  lemma {:induction false} EntryBuilt(f: Fields, m: Member)
    requires Fits(m) && FromFlag(f.flag) == ReadKind(m.kind) && f.flag != 0 && f.posix
    requires f.mode == Some(m.mode % 4096) && f.uid == Some(m.uid) && f.gid == Some(m.gid)
             && f.mtime == Some(Time(m.mtime))
    requires f.name == GetStr(SplitName(m.path).value.1) && f.prefix == GetStr(SplitName(m.path).value.0)
    requires f.link == GetStr(m.link)
    requires f.uname == (if m.uid == 0 then ROOT else []) && f.gname == (if m.gid == 0 then WHEEL else [])
    ensures ParseEntry(f, m.size) == Some(EntryBack(m))
  {
  }

  lemma {:induction false} EntryParses(f: Fields, m: Member)
    requires Fits(m) && !f.zero && f.want == Some(f.unsignedSum) && f.flag == Flag(m.kind) && f.posix
    requires f.mode == Some(m.mode % 4096) && f.uid == Some(m.uid) && f.gid == Some(m.gid)
    requires f.size == Some(m.size) && f.mtime == Some(Time(m.mtime))
    requires f.name == GetStr(SplitName(m.path).value.1) && f.prefix == GetStr(SplitName(m.path).value.0)
    requires f.link == GetStr(m.link)
    requires f.uname == (if m.uid == 0 then ROOT else []) && f.gname == (if m.gid == 0 then WHEEL else [])
    ensures ParseFields(f) == Some(Found(EntryBack(m)))
  {
    FlagRead(m.kind);
    EntryBuilt(f, m);
  }

  /** The reader takes back every field the writer put down. */
  lemma {:induction false} ParseInvertsHeader(m: Member)
    requires Fits(m)
    ensures Parse(Header(m)) == Some(Found(EntryBack(m)))
  {
    NumbersRead(m);
    NamesRead(m);
    OwnersRead(m);
    ChecksumRead(m);
    NotZero(Header(m));
    EntryParses(ReadFields(Header(m)), m);
  }

  lemma {:induction false} NotZero(h: seq<byte>)
    requires |h| == BLOCK && h[257..263] == USTAR
    ensures !ReadFields(h).zero
  {
    assert h[257] == h[257..263][0];
  }

  /** A path survives exactly when it has no NUL and isn't 101 bytes that start with a slash. */
  lemma {:induction false} PathSurvives(path: seq<byte>)
    requires SplitName(path).Some?
    ensures PathBack(path) == path <==> 0 !in path && !(|path| == 101 && path[0] == SLASH)
  {
    var (prefix, name) := SplitName(path).value;
    WholeString(prefix);
    WholeString(name);
    if |path| > 100 {
      var i := FindSplit(path, 0).value;
      assert path == prefix + [SLASH] + name;
      assert i == 0 <==> |path| == 101 && path[0] == SLASH by {
        assert |path| == 101 && path[0] == SLASH ==> SplitsAt(path, 0);
      }
      LongPathSurvives(prefix, name);
    }
  }

  lemma {:induction false} LongPathSurvives(prefix: seq<byte>, name: seq<byte>)
    ensures var path := prefix + [SLASH] + name;
            && (GetStr(prefix) + [SLASH] + GetStr(name) == path <==> 0 !in path)
            && GetStr(name) != path
  {
    var path := prefix + [SLASH] + name;
    WholeString(prefix);
    WholeString(name);
    assert 0 in path <==> 0 in prefix || 0 in name;
    if GetStr(prefix) + [SLASH] + GetStr(name) == path {
      assert |GetStr(prefix)| + |GetStr(name)| == |prefix| + |name|;
    }
  }

  /** The writer's header reads back as exactly what it was given, if and only if its names allow it. */
  lemma {:induction false} HeaderRoundTrip(m: Member)
    requires Fits(m)
    ensures var e := Parse(Header(m));
            && e.Some? && e.value.Found?
            && (e.value.e.path == m.path && e.value.e.link == m.link <==>
                  0 !in m.path && 0 !in m.link && !(|m.path| == 101 && m.path[0] == SLASH))
  {
    ParseInvertsHeader(m);
    PathSurvives(m.path);
    WholeString(m.link);
  }

  /** A path of 101 bytes that starts with a slash comes back without it. */
  lemma {:induction false} LeadingSlashLost(m: Member)
    requires Fits(m) && |m.path| == 101 && m.path[0] == SLASH && 0 !in m.path
    ensures EntryBack(m).path == m.path[1..]
  {
    assert SplitsAt(m.path, 0);
    assert FindSplit(m.path, 0) == Some(0);
    WholeString(m.path[..0]);
    assert 0 !in m.path[1..];
    WholeString(m.path[1..]);
  }
}
