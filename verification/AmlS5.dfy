/** Finding the soft-off sleep types in AML: the scanner, and the encodings it undoes. */
module AmlS5 {
  import opened Words

  const NAME_OP: byte := 0x08
  const ROOT_CHAR: byte := 0x5c
  const PACKAGE_OP: byte := 0x12
  const S5: seq<byte> := [0x5f, 0x53, 0x35, 0x5f]  // "_S5_"

  // ---- What the scanner reads ----

  function ByteAt(aml: seq<byte>, i: nat): Option<byte> {
    if i < |aml| then Some(aml[i]) else None
  }

  datatype Number = Number(value: u16, length: nat)

  function Word(low: byte, high: byte): u16 {
    var v: int := high;
    low + 256 * v
  }

  /** `aml_integer`. */
  function AmlInteger(aml: seq<byte>, i: nat): Option<Number> {
    match ByteAt(aml, i)
    case None => None
    case Some(b) =>
      if b == 0x00 then Some(Number(0, 1))
      else if b == 0x01 then Some(Number(1, 1))
      else if b == 0x0a then (if i + 1 < |aml| then Some(Number(aml[i + 1], 2)) else None)
      else if b == 0x0b then (if i + 2 < |aml| then Some(Number(Word(aml[i + 1], aml[i + 2]), 3)) else None)
      else if b == 0x0c then (if i + 2 < |aml| then Some(Number(Word(aml[i + 1], aml[i + 2]), 5)) else None)
      else if 2 <= b <= 7 then Some(Number(b, 1))
      else None
  }

  predicate NameAt(aml: seq<byte>, i: nat) {
    i + 4 <= |aml| && aml[i..i + 4] == S5
  }

  /** `_S5_` at `i`, named, with a package after it. */
  predicate Candidate(aml: seq<byte>, i: nat) {
    && NameAt(aml, i) && ByteAt(aml, i + 4) == Some(PACKAGE_OP)
    && ((i >= 1 && aml[i - 1] == NAME_OP) || (i >= 2 && aml[i - 1] == ROOT_CHAR && aml[i - 2] == NAME_OP))
  }

  /** The package's first two integers. */
  function Decode(aml: seq<byte>, i: nat): Option<(u16, u16)> {
    match ByteAt(aml, i + 5)
    case None => None
    case Some(lead) =>
      var j := i + 5 + 1 + lead / 64 + 1;
      match AmlInteger(aml, j)
      case None => None
      case Some(a) =>
        match AmlInteger(aml, j + a.length)
        case None => None
        case Some(b) => Some((a.value, b.value))
  }

  /** The first candidate from `at` on. */
  function First(aml: seq<byte>, at: nat): Option<nat>
    decreases |aml| - at
  {
    if at >= |aml| then None else if Candidate(aml, at) then Some(at) else First(aml, at + 1)
  }

  lemma {:induction false} FirstSkips(aml: seq<byte>, at: nat, i: nat)
    requires at <= i && forall j :: at <= j < i ==> !Candidate(aml, j)
    ensures First(aml, at) == First(aml, i)
    decreases i - at
  {
    if at < i {
      FirstSkips(aml, at + 1, i);
    }
  }

  /** The first candidate decides, whatever comes after it. */
  function Scan(aml: seq<byte>): Option<(u16, u16)> {
    match First(aml, 0)
    case None => None
    case Some(i) => Decode(aml, i)
  }

  /** The next `_S5_` from `at` on. */
  method NextName(aml: seq<byte>, at: nat) returns (r: Option<nat>)
    requires at <= |aml|
    ensures r.Some? ==> at <= r.value && NameAt(aml, r.value)
    ensures forall j :: at <= j && (r.Some? ==> j < r.value) ==> !NameAt(aml, j)
  {
    var i := at;
    while i + 4 <= |aml|
      invariant at <= i
      invariant forall j :: at <= j < i ==> !NameAt(aml, j)
    {
      if aml[i..i + 4] == S5 {
        return Some(i);
      }
      i := i + 1;
    }
    return None;
  }

  method DecodeAt(aml: seq<byte>, i: nat) returns (r: Option<(u16, u16)>)
    ensures r == Decode(aml, i)
  {
    var lead := ByteAt(aml, i + 5);
    if lead.None? {
      return None;
    }
    var j := i + 5 + 1 + lead.value / 64;
    j := j + 1;
    var a := AmlInteger(aml, j);
    if a.None? {
      return None;
    }
    j := j + a.value.length;
    var b := AmlInteger(aml, j);
    if b.None? {
      return None;
    }
    return Some((a.value.value, b.value.value));
  }

  /** `find_s5`. */
  method FindS5(aml: seq<byte>) returns (r: Option<(u16, u16)>)
    ensures r == Scan(aml)
  {
    var at := 0;
    while true
      invariant at <= |aml| && First(aml, 0) == First(aml, at)
      decreases |aml| - at
    {
      var pos := NextName(aml, at);
      if pos.None? {
        FirstSkips(aml, at, |aml|);
        return None;
      }
      var i := pos.value;
      FirstSkips(aml, at, i);
      at := i + 1;
      var named := (i >= 1 && aml[i - 1] == NAME_OP) || (i >= 2 && aml[i - 1] == ROOT_CHAR && aml[i - 2] == NAME_OP);
      if !named || ByteAt(aml, i + 4) != Some(PACKAGE_OP) {
        continue;
      }
      r := DecodeAt(aml, i);
      return;
    }
  }

  // ---- What firmware writes ----

  /** The ways to write an integer: ConstObj, ByteConst, WordConst, DWordConst, and a bare byte 2-7. */
  datatype Encoding = Constant | InByte | InWord | InDWord | Bare

  predicate Encodes(v: u16, e: Encoding) {
    match e
    case Constant => v <= 1
    case InByte => v < 256
    case InWord => true
    case InDWord => true
    case Bare => 2 <= v <= 7
  }

  function EncodeInteger(v: u16, e: Encoding): seq<byte>
    requires Encodes(v, e)
  {
    match e
    case Constant => [v]
    case InByte => [0x0a, v]
    case InWord => [0x0b, v % 256, v / 256]
    case InDWord => [0x0c, v % 256, v / 256, 0, 0]
    case Bare => [v]
  }

  /** PkgLength with `k` bytes after the lead byte. */
  function EncodeLength(length: nat, k: nat): (s: seq<byte>)
    requires k <= 3 && length < if k == 0 then 64 else 16 * Pow256(k)
    ensures |s| == k + 1 && s[0] / 64 == k
  {
    if k == 0 then [length] else [64 * k + length % 16] + LeBytes(length / 16, k)
  }

  /** A package named `_S5_`: at the root or not, any PkgLength, element count and encodings. */
  datatype Package = Package(root: bool, length: nat, k: nat, elements: byte, a: u16, ea: Encoding, b: u16,
                             eb: Encoding)

  predicate Valid(p: Package) {
    p.k <= 3 && p.length < (if p.k == 0 then 64 else 16 * Pow256(p.k)) && Encodes(p.a, p.ea) && Encodes(p.b, p.eb)
  }

  function NamePart(p: Package): seq<byte> {
    if p.root then [NAME_OP, ROOT_CHAR] else [NAME_OP]
  }

  function EncodePackage(p: Package): seq<byte>
    requires Valid(p)
  {
    Head(p) + Tail(p)
  }

  function Head(p: Package): seq<byte> {
    NamePart(p) + S5 + [PACKAGE_OP]
  }

  function Tail(p: Package): seq<byte>
    requires Valid(p)
  {
    EncodeLength(p.length, p.k) + [p.elements] + EncodeInteger(p.a, p.ea) + EncodeInteger(p.b, p.eb)
  }

  // ---- The scanner undoes it ----

  /** Wherever `s` stands, the scanner reads it as `v`. */
  ghost predicate ReadsAs(s: seq<byte>, v: u16) {
    forall aml: seq<byte>, j: nat :: j + |s| <= |aml| && aml[j..j + |s|] == s ==>
      AmlInteger(aml, j) == Some(Number(v, |s|))
  }

  lemma {:induction false} IntegerRead(aml: seq<byte>, j: nat, v: u16, e: Encoding)
    requires Encodes(v, e) && j + |EncodeInteger(v, e)| <= |aml|
             && aml[j..j + |EncodeInteger(v, e)|] == EncodeInteger(v, e)
    ensures AmlInteger(aml, j) == Some(Number(v, |EncodeInteger(v, e)|))
  {
    var s := aml[j..j + |EncodeInteger(v, e)|];
    assert aml[j] == s[0];
    if |s| > 1 {
      assert aml[j + 1] == s[1];
    }
    if |s| > 2 {
      assert aml[j + 2] == s[2];
    }
  }

  lemma {:induction false} EncodingReads(v: u16, e: Encoding)
    requires Encodes(v, e)
    ensures ReadsAs(EncodeInteger(v, e), v)
  {
    var s := EncodeInteger(v, e);
    forall aml: seq<byte>, j: nat | j + |s| <= |aml| && aml[j..j + |s|] == s
      ensures AmlInteger(aml, j) == Some(Number(v, |s|))
    {
      IntegerRead(aml, j, v, e);
    }
  }

  predicate IsName(name: seq<byte>) {
    name == [NAME_OP] || name == [NAME_OP, ROOT_CHAR]
  }

  /** Where the parts of a package are: the name before `i`, the integers after a length of `k + 1` bytes. */
  ghost predicate Laid(aml: seq<byte>, i: nat, name: seq<byte>, k: nat, ia: seq<byte>, ib: seq<byte>) {
    var j := i + 5 + k + 2;
    && i >= |name| && j + |ia| + |ib| <= |aml|
    && aml[i - |name|..i] == name && aml[i..i + 4] == S5 && aml[i + 4] == PACKAGE_OP && aml[i + 5] / 64 == k
    && aml[j..j + |ia|] == ia && aml[j + |ia|..j + |ia| + |ib|] == ib
  }

  lemma {:induction false} PartsLaid(prefix: seq<byte>, name: seq<byte>, len: seq<byte>, k: nat, n: byte,
                                     ia: seq<byte>, ib: seq<byte>, rest: seq<byte>)
    requires |len| == k + 1 && len[0] / 64 == k
    ensures var aml := prefix + ((name + S5 + [PACKAGE_OP]) + (len + [n] + ia + ib)) + rest;
            prefix <= aml && Laid(aml, |prefix| + |name|, name, k, ia, ib)
  {
    var head, tail := name + S5 + [PACKAGE_OP], len + [n] + ia + ib;
    Regrouped(prefix, head, tail, rest);
    HeadLaid(prefix, name, tail + rest);
    TailLaid(prefix + head, len, n, ia, ib, rest);
  }

  lemma {:induction false} Regrouped(prefix: seq<byte>, head: seq<byte>, tail: seq<byte>, rest: seq<byte>)
    ensures prefix + (head + tail) + rest == prefix + head + (tail + rest)
    ensures prefix + (head + tail) + rest == (prefix + head) + tail + rest
    ensures prefix <= prefix + (head + tail) + rest
  {
    assert prefix + (head + tail) == (prefix + head) + tail;
  }

  lemma {:induction false} HeadLaid(prefix: seq<byte>, name: seq<byte>, after: seq<byte>)
    ensures var aml, i := prefix + (name + S5 + [PACKAGE_OP]) + after, |prefix| + |name|;
            aml[|prefix|..i] == name && aml[i..i + 4] == S5 && aml[i + 4] == PACKAGE_OP
  {
    var aml, i := prefix + (name + S5 + [PACKAGE_OP]) + after, |prefix| + |name|;
    assert aml[|prefix|..i] == name;
    assert aml[i..i + 4] == S5;
  }

  lemma {:induction false} TailLaid(before: seq<byte>, len: seq<byte>, n: byte, ia: seq<byte>, ib: seq<byte>,
                                    rest: seq<byte>)
    requires |len| > 0
    ensures var aml, j := before + (len + [n] + ia + ib) + rest, |before| + |len| + 1;
            aml[|before|] == len[0] && aml[j..j + |ia|] == ia && aml[j + |ia|..j + |ia| + |ib|] == ib
  {
    var aml, j := before + (len + [n] + ia + ib) + rest, |before| + |len| + 1;
    assert aml[j..j + |ia|] == ia;
    assert aml[j + |ia|..j + |ia| + |ib|] == ib;
  }

  lemma {:induction false} LaidIsCandidate(aml: seq<byte>, i: nat, name: seq<byte>, k: nat, ia: seq<byte>,
                                           ib: seq<byte>)
    requires IsName(name) && Laid(aml, i, name, k, ia, ib)
    ensures Candidate(aml, i)
  {
    var before := aml[i - |name|..i];
    assert before[|name| - 1] == aml[i - 1];
    assert before[0] == aml[i - |name|];
  }

  /** What follows the name decodes to what was encoded. */
  lemma {:induction false} DecodeInverts(aml: seq<byte>, i: nat, name: seq<byte>, k: nat, ia: seq<byte>, a: u16,
                                         ib: seq<byte>, b: u16)
    requires Laid(aml, i, name, k, ia, ib) && ReadsAs(ia, a) && ReadsAs(ib, b)
    ensures Decode(aml, i) == Some((a, b))
  {
    var j := i + 5 + k + 2;
    assert AmlInteger(aml, j) == Some(Number(a, |ia|));
    assert AmlInteger(aml, j + |ia|) == Some(Number(b, |ib|));
    DecodeParts(aml, i, k, Number(a, |ia|), Number(b, |ib|));
  }

  lemma {:induction false} DecodeParts(aml: seq<byte>, i: nat, k: nat, na: Number, nb: Number)
    requires i + 5 < |aml| && aml[i + 5] / 64 == k
    requires AmlInteger(aml, i + 5 + k + 2) == Some(na) && AmlInteger(aml, i + 5 + k + 2 + na.length) == Some(nb)
    ensures Decode(aml, i) == Some((na.value, nb.value))
  {
  }

  /** An earlier candidate would have to lie wholly in the prefix. */
  lemma {:induction false} EarlierInPrefix(prefix: seq<byte>, aml: seq<byte>, name: seq<byte>, k: nat,
                                           ia: seq<byte>, ib: seq<byte>, j: nat)
    requires IsName(name) && Laid(aml, |prefix| + |name|, name, k, ia, ib) && prefix <= aml
    requires j < |prefix| + |name| && Candidate(aml, j)
    ensures Candidate(prefix, j)
  {
    if j + 4 >= |prefix| {
      NoPackageOp(aml, |prefix| + |name|, name, k, ia, ib, j + 4);
    } else {
      assert prefix[j..j + 4] == aml[j..j + 4];
    }
  }

  lemma {:induction false} NoPackageOp(aml: seq<byte>, i: nat, name: seq<byte>, k: nat, ia: seq<byte>, ib: seq<byte>,
                                       at: nat)
    requires IsName(name) && Laid(aml, i, name, k, ia, ib) && i - |name| <= at < i + 4
    ensures aml[at] != PACKAGE_OP
  {
    if at < i {
      assert aml[at] == aml[i - |name|..i][at - (i - |name|)];
    } else {
      assert aml[at] == aml[i..i + 4][at - i];
    }
  }

  lemma {:induction false} ScanLaid(prefix: seq<byte>, aml: seq<byte>, name: seq<byte>, k: nat,
                                    ia: seq<byte>, a: u16, ib: seq<byte>, b: u16)
    requires IsName(name) && Laid(aml, |prefix| + |name|, name, k, ia, ib) && ReadsAs(ia, a) && ReadsAs(ib, b)
    requires prefix <= aml && First(prefix, 0) == None
    ensures Scan(aml) == Some((a, b))
  {
    var i := |prefix| + |name|;
    forall j | 0 <= j < i
      ensures !Candidate(aml, j)
    {
      if Candidate(aml, j) {
        EarlierInPrefix(prefix, aml, name, k, ia, ib, j);
        NoneFound(prefix, 0, j);
      }
    }
    FirstSkips(aml, 0, i);
    LaidIsCandidate(aml, i, name, k, ia, ib);
    DecodeInverts(aml, i, name, k, ia, a, ib, b);
  }

  lemma {:induction false} PartsScanned(prefix: seq<byte>, name: seq<byte>, len: seq<byte>, k: nat, n: byte,
                                        ia: seq<byte>, a: u16, ib: seq<byte>, b: u16, rest: seq<byte>)
    requires IsName(name) && |len| == k + 1 && len[0] / 64 == k && ReadsAs(ia, a) && ReadsAs(ib, b)
    requires First(prefix, 0) == None
    ensures Scan(prefix + ((name + S5 + [PACKAGE_OP]) + (len + [n] + ia + ib)) + rest) == Some((a, b))
  {
    PartsLaid(prefix, name, len, k, n, ia, ib, rest);
    ScanLaid(prefix, prefix + ((name + S5 + [PACKAGE_OP]) + (len + [n] + ia + ib)) + rest, name, k, ia, a, ib, b);
  }

  /** Wherever the package is, and whatever surrounds it, the scan returns its sleep types, unless an
      earlier named `_S5_` package stands before it. */
  lemma {:induction false} ScanInvertsEncoding(prefix: seq<byte>, p: Package, rest: seq<byte>)
    requires Valid(p) && First(prefix, 0) == None
    ensures Scan(prefix + EncodePackage(p) + rest) == Some((p.a, p.b))
  {
    EncodingReads(p.a, p.ea);
    EncodingReads(p.b, p.eb);
    PartsScanned(prefix, NamePart(p), EncodeLength(p.length, p.k), p.k, p.elements,
                 EncodeInteger(p.a, p.ea), p.a, EncodeInteger(p.b, p.eb), p.b, rest);
  }

  lemma {:induction false} NoneFound(aml: seq<byte>, at: nat, j: nat)
    requires First(aml, at) == None && at <= j
    ensures !Candidate(aml, j)
    decreases j - at
  {
    if at < j && at < |aml| {
      NoneFound(aml, at + 1, j);
    }
  }
}
