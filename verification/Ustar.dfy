/** ustar(5) header blocks: the dist sets' writer, and the reader of tar(1). */
module Ustar {
  import opened Words
  import opened Paths

  const BLOCK: nat := 512
  const SPACE: byte := 0x20
  const DIGIT: byte := 0x30
  const USTAR: seq<byte> := [0x75, 0x73, 0x74, 0x61, 0x72, 0]
  const ROOT: seq<byte> := [0x72, 0x6f, 0x6f, 0x74]
  const WHEEL: seq<byte> := [0x77, 0x68, 0x65, 0x65, 0x6c]

  /** The entry types the writer makes. */
  datatype Type = Regular | Link | Symlink | Directory

  function Flag(t: Type): byte {
    match t
    case Regular => 0x30
    case Link => 0x31
    case Symlink => 0x32
    case Directory => 0x35
  }

  /** `ustar_header`'s arguments. */
  datatype Member = Member(path: seq<byte>, mode: u32, uid: u32, gid: u32, kind: Type, size: u64, link: seq<byte>,
                           mtime: i64)

  // ---- Fields ----

  /** A text field: the bytes, then NULs. */
  function Padded(bytes: seq<byte>, len: nat): (s: seq<byte>)
    requires |bytes| <= len
    ensures |s| == len
  {
    bytes + Zeros(len - |bytes|)
  }

  /** `v` in octal, with zeros in front up to `width` digits. */
  function Octal(v: nat, width: nat): seq<byte> {
    if v == 0 && width == 0 then []
    else
      var digit: byte := DIGIT + v % 8;
      Octal(v / 8, if width > 0 then width - 1 else 0) + [digit]
  }

  function Pow8(n: nat): nat {
    if n == 0 then 1 else 8 * Pow8(n - 1)
  }

  /** A number fits its field exactly when it is below 8 to the field's width. */
  lemma {:induction false} OctalLength(v: nat, width: nat)
    ensures |Octal(v, width)| >= width
    ensures |Octal(v, width)| == width <==> v < Pow8(width)
  {
    if v != 0 || width != 0 {
      OctalLength(v / 8, if width > 0 then width - 1 else 0);
    }
  }

  predicate IsOctal(s: seq<byte>) {
    forall i :: 0 <= i < |s| ==> DIGIT <= s[i] < DIGIT + 8
  }

  lemma {:induction false} OctalDigits(v: nat, width: nat)
    ensures IsOctal(Octal(v, width))
  {
    if v != 0 || width != 0 {
      OctalDigits(v / 8, if width > 0 then width - 1 else 0);
    }
  }

  // ---- The name ----

  /** A `/` that leaves at most 155 bytes before it and 1 to 100 after. */
  predicate SplitsAt(path: seq<byte>, i: nat) {
    i < |path| && path[i] == SLASH && i <= 155 && |path| - i - 1 <= 100 && i + 1 < |path|
  }

  /** The first such `/` from `i` on. */
  function FindSplit(path: seq<byte>, i: nat): (r: Option<nat>)
    ensures r.Some? ==> i <= r.value && SplitsAt(path, r.value) && forall j :: i <= j < r.value ==> !SplitsAt(path, j)
    ensures r.None? ==> forall j :: i <= j ==> !SplitsAt(path, j)
    decreases |path| - i
  {
    if i >= |path| then None
    else if SplitsAt(path, i) then Some(i)
    else FindSplit(path, i + 1)
  }

  /** The prefix and name fields for `path`. */
  function SplitName(path: seq<byte>): Option<(seq<byte>, seq<byte>)> {
    if |path| <= 100 then Some(([], path))
    else match FindSplit(path, 0)
      case None => None
      case Some(i) => Some((path[..i], path[i + 1..]))
  }

  // ---- The block ----

  function Time(mtime: i64): nat {
    if mtime < 0 then 0 else mtime
  }

  /** What the writer asserts of its arguments. */
  predicate Fits(m: Member) {
    && SplitName(m.path).Some? && |m.link| <= 100
    && m.uid < Pow8(7) && m.gid < Pow8(7) && m.size < Pow8(11) && Time(m.mtime) < Pow8(11)
  }

  function Number(v: nat, len: nat): (s: seq<byte>)
    requires len > 0 && v < Pow8(len - 1)
    ensures |s| == len
  {
    OctalLength(v, len - 1);
    Padded(Octal(v, len - 1), len)
  }

  /** Bytes 0 to 148: up to the checksum. */
  function Front(m: Member): (s: seq<byte>)
    requires Fits(m)
    ensures |s| == 148
  {
    ModeFits();
    Padded(SplitName(m.path).value.1, 100)
      + Number(m.mode % 4096, 8)
      + Number(m.uid, 8)
      + Number(m.gid, 8)
      + Number(m.size, 12)
      + Number(Time(m.mtime), 12)
  }

  /** Bytes 156 to 265: after the checksum, up to the owners' names. */
  function Middle(m: Member): (s: seq<byte>)
    requires |m.link| <= 100
    ensures |s| == 109
  {
    [Flag(m.kind)] + Padded(m.link, 100) + USTAR + [0x30, 0x30]
  }

  /** Bytes 265 to 512. */
  function Rear(m: Member): (s: seq<byte>)
    requires SplitName(m.path).Some?
    ensures |s| == 247
  {
    Padded(if m.uid == 0 then ROOT else [], 32)
      + Padded(if m.gid == 0 then WHEEL else [], 32)
      + Zeros(16)
      + Padded(SplitName(m.path).value.0, 155)
      + Zeros(12)
  }

  lemma ModeFits()
    ensures Pow8(7) == 2097152 && Pow8(11) == 8589934592 && Pow8(6) == 262144
  {
    assert Pow8(3) == 512;
    assert Pow8(6) == 262144;
    assert Pow8(9) == 134217728;
  }

  const BLANKS: seq<byte> := [SPACE, SPACE, SPACE, SPACE, SPACE, SPACE, SPACE, SPACE]

  /** The sum of the first `n` bytes. */
  function Sum(s: seq<byte>, n: nat): nat
    requires n <= |s|
  {
    if n == 0 then 0 else Sum(s, n - 1) + s[n - 1]
  }

  lemma {:induction false} SumBound(s: seq<byte>, n: nat)
    requires n <= |s|
    ensures Sum(s, n) <= 255 * n
  {
    if n > 0 {
      SumBound(s, n - 1);
    }
  }

  /** The checksum counts its own field as spaces. */
  function Checksum(m: Member): (sum: nat)
    requires Fits(m)
    ensures sum < Pow8(6)
  {
    var blank := Front(m) + BLANKS + Middle(m) + Rear(m);
    SumBound(blank, 512);
    ModeFits();
    Sum(blank, 512)
  }

  function ChecksumField(m: Member): (s: seq<byte>)
    requires Fits(m)
    ensures |s| == 8
  {
    OctalLength(Checksum(m), 6);
    Octal(Checksum(m), 6) + [0, SPACE]
  }

  /** The header block. */
  function Header(m: Member): (h: seq<byte>)
    requires Fits(m)
    ensures |h| == BLOCK
  {
    Front(m) + ChecksumField(m) + Middle(m) + Rear(m)
  }

  // ---- The writer ----

  /** `put`: it panics on bytes longer than the field. */
  method Put(h: array<byte>, at: nat, len: nat, bytes: seq<byte>) returns (ok: bool)
    requires at + len <= h.Length
    modifies h
    ensures ok <==> |bytes| <= len
    ensures ok ==> h[..] == old(h[..at]) + bytes + old(h[at + |bytes|..])
  {
    if |bytes| > len {
      return false;
    }
    for i := 0 to |bytes|
      invariant h[..at] == old(h[..at]) && h[at..at + i] == bytes[..i] && h[at + i..] == old(h[at + i..])
    {
      h[at + i] := bytes[i];
    }
    return true;
  }

  /** Appends a field to the fields in `h[from..at]`, over bytes still zero. */
  method PutField(h: array<byte>, ghost from: nat, at: nat, len: nat, bytes: seq<byte>) returns (ok: bool)
    requires from <= at && at + len <= h.Length && h[at..] == Zeros(h.Length - at)
    modifies h
    ensures ok <==> |bytes| <= len
    ensures ok ==> h[..from] == old(h[..from]) && h[from..at + len] == old(h[from..at]) + Padded(bytes, len)
    ensures ok ==> h[at + len..] == Zeros(h.Length - at - len)
  {
    ghost var before := h[..];
    ok := Put(h, at, len, bytes);
    if ok {
      assert h[from..at] == before[from..at];
      assert h[at..at + |bytes|] == bytes;
      assert h[at + |bytes|..] == before[at..][|bytes|..] == Zeros(h.Length - at - |bytes|);
      assert h[at + |bytes|..at + len] == Zeros(len - |bytes|);
    }
  }

  /** `octal`. */
  method PutNumber(h: array<byte>, ghost from: nat, at: nat, len: nat, v: nat) returns (ok: bool)
    requires len > 0 && from <= at && at + len <= h.Length && h[at..] == Zeros(h.Length - at)
    modifies h
    ensures ok <==> v < Pow8(len - 1)
    ensures ok ==> h[..from] == old(h[..from]) && h[from..at + len] == old(h[from..at]) + Number(v, len)
    ensures ok ==> h[at + len..] == Zeros(h.Length - at - len)
  {
    OctalLength(v, len - 1);
    ok := PutField(h, from, at, len - 1, Octal(v, len - 1));
    if ok {
      assert h[from..at + len] == h[from..at + len - 1] + [0];
      assert Number(v, len) == Padded(Octal(v, len - 1), len - 1) + [0];
    }
  }

  /** The fields before the checksum. */
  method PutFront(h: array<byte>, m: Member) returns (ok: bool)
    requires h.Length == BLOCK && h[..] == Zeros(BLOCK) && SplitName(m.path).Some?
    modifies h
    ensures ok <==> m.uid < Pow8(7) && m.gid < Pow8(7) && m.size < Pow8(11) && Time(m.mtime) < Pow8(11)
    ensures ok && Fits(m) ==> h[..148] == Front(m)
    ensures ok ==> h[148..] == Zeros(364)
  {
    ModeFits();
    assert h[0..] == h[..];
    ok := PutField(h, 0, 0, 100, SplitName(m.path).value.1);
    ok := PutNumber(h, 0, 100, 8, m.mode % 4096);
    ok := PutNumber(h, 0, 108, 8, m.uid);
    if !ok { return; }
    ok := PutNumber(h, 0, 116, 8, m.gid);
    if !ok { return; }
    ok := PutSizeAndTime(h, m.size, Time(m.mtime));
  }

  method PutSizeAndTime(h: array<byte>, size: nat, time: nat) returns (ok: bool)
    requires h.Length == BLOCK && h[124..] == Zeros(388)
    modifies h
    ensures ok <==> size < Pow8(11) && time < Pow8(11)
    ensures ok ==> h[0..148] == old(h[0..124]) + Number(size, 12) + Number(time, 12) && h[148..] == Zeros(364)
  {
    ok := PutNumber(h, 0, 124, 12, size);
    if !ok { return; }
    ok := PutNumber(h, 0, 136, 12, time);
  }

  /** The fields after the checksum, up to the owners' names. */
  method PutLink(h: array<byte>, m: Member) returns (ok: bool)
    requires h.Length == BLOCK && h[156..] == Zeros(356)
    modifies h
    ensures ok <==> |m.link| <= 100
    ensures ok ==> h[..148] == old(h[..148]) && h[156..265] == Middle(m) && h[265..] == Zeros(247)
  {
    ghost var front := h[..156];
    h[156] := Flag(m.kind);
    assert h[156..157] == [Flag(m.kind)];
    assert h[157..] == old(h[156..])[1..];
    ok := PutField(h, 156, 157, 100, m.link);
    if !ok { return; }
    ok := PutField(h, 156, 257, 6, USTAR);
    ok := PutField(h, 156, 263, 2, [0x30, 0x30]);
    assert h[..156] == front;
    assert h[..148] == front[..148];
  }

  /** The owners' names and the prefix. */
  method PutOwners(h: array<byte>, m: Member)
    requires h.Length == BLOCK && h[265..] == Zeros(247) && SplitName(m.path).Some?
    modifies h
    ensures h[..148] == old(h[..148]) && h[156..265] == old(h[156..265]) && h[265..] == Rear(m)
  {
    ghost var front := h[..265];
    assert h[265..265] == [];
    var ok := PutField(h, 265, 265, 32, if m.uid == 0 then ROOT else []);
    ok := PutField(h, 265, 297, 32, if m.gid == 0 then WHEEL else []);
    ghost var rest := h[329..];
    assert h[265..345] == h[265..329] + rest[..16] && h[345..] == rest[16..];
    ok := PutField(h, 265, 345, 155, SplitName(m.path).value.0);
    assert h[265..] == h[265..500] + h[500..];
    assert h[..265] == front;
    assert h[..148] == front[..148] && h[156..265] == front[156..];
  }

  method SumBlock(h: array<byte>) returns (sum: nat)
    ensures sum == Sum(h[..], h.Length)
  {
    sum := 0;
    for i := 0 to h.Length
      invariant sum == Sum(h[..], i)
    {
      sum := sum + h[i];
    }
  }

  /** Fills the checksum's field. */
  method PutEight(h: array<byte>, ghost front: seq<byte>, ghost middle: seq<byte>, ghost rear: seq<byte>,
                  bytes: seq<byte>)
    requires h.Length == BLOCK && |bytes| == 8
    requires h[..148] == front && h[156..265] == middle && h[265..] == rear
    modifies h
    ensures h[..] == front + bytes + middle + rear
    ensures h[..148] == front && h[156..265] == middle && h[265..] == rear
  {
    ghost var after := h[156..];
    assert after == middle + rear;
    var ok := Put(h, 148, 8, bytes);
    assert h[..] == front + bytes + after;
  }

  method PutChecksum(h: array<byte>, m: Member)
    requires h.Length == BLOCK && Fits(m)
    requires h[..148] == Front(m) && h[156..265] == Middle(m) && h[265..] == Rear(m)
    modifies h
    ensures h[..] == Header(m)
  {
    PutEight(h, Front(m), Middle(m), Rear(m), BLANKS);
    var sum := SumBlock(h);
    assert sum == Checksum(m);
    OctalLength(sum, 6);
    PutEight(h, Front(m), Middle(m), Rear(m), Octal(sum, 6) + [0, SPACE]);
  }

  /** `ustar_header`; `None` where it panics. */
  method UstarHeader(m: Member) returns (r: Option<seq<byte>>)
    ensures r == if Fits(m) then Some(Header(m)) else None
  {
    if SplitName(m.path).None? {
      return None;
    }
    var h := new byte[512](i => 0);
    assert h[..] == Zeros(BLOCK);
    var ok := PutFront(h, m);
    if !ok {
      return None;
    }
    ghost var zeros := h[148..];
    assert h[156..] == zeros[8..];
    ok := PutLink(h, m);
    if !ok {
      return None;
    }
    PutOwners(h, m);
    PutChecksum(h, m);
    return Some(h[..]);
  }
}
