/** The relocatable object files the module loader reads (ELF gABI chapter 4) and its errors. */
module ElfObject {
  import opened Words

  datatype ModuleError =
    | TooShort
    | BadMagic
    | UnsupportedClass
    | UnsupportedEndianness
    | UnsupportedType
    | UnsupportedMachine
    | SectionHeaderOutOfBounds
    | MissingSymbolOrStringTable
    | OutOfMemory
    | MappingFailed
    | RegionExhausted
    | UnresolvedSymbol
    | UnsupportedRelocation(kind: u32)
    | RelocationOverflow
    | MissingEntryPoint

  /** Why a load stopped: an error it returned, an arithmetic overflow caught by the build's
      overflow checks, or a store to a page that isn't mapped writable. */
  datatype Stop = Error(error: ModuleError) | Panic | PageFault

  datatype Result<+T> = Ok(value: T) | Stopped(why: Stop) {
    predicate IsFailure() {
      Stopped?
    }

    function PropagateFailure<U>(): Result<U>
      requires Stopped?
    {
      Stopped(why)
    }

    function Extract(): T
      requires Ok?
    {
      value
    }
  }

  function Fail<T>(e: ModuleError): Result<T> {
    Stopped(Error(e))
  }

  const MAGIC: seq<byte> := [0x7f, 0x45, 0x4c, 0x46]
  const CLASS_64 := 2
  const DATA_LITTLE_ENDIAN := 1
  const TYPE_REL := 1
  const MACHINE_X86_64 := 62
  const SHT_SYMTAB := 2
  const SHT_RELA := 4
  const SHT_NOBITS := 8
  const SHN_UNDEF := 0
  const EHDR_SIZE := 64
  const SHDR_SIZE := 64
  const SYM_SIZE := 24
  const RELA_SIZE := 24

  datatype Section = Section(shType: u32, flags: u64, offset: u64, size: u64, link: u32, info: u32, addralign: u64)
  datatype Symbol = Symbol(nameOff: u32, shndx: u16, value: u64)
  datatype RelaMeta = RelaMeta(offset: u64, size: u64, target: nat)
  datatype Relocation = Relocation(offset: u64, symbol: u32, kind: u32, addend: i64)
  datatype Object = Object(bytes: seq<byte>, sections: seq<Section>, symbols: seq<Symbol>,
                           strtab: seq<byte>, relaSections: seq<RelaMeta>)

  /** `bytes.get(at..at + size)`: a `checked_add` that overflows and a range past the end give the
      loader the same error. */
  function Slice(bytes: seq<byte>, at: nat, size: nat): (r: Result<seq<byte>>)
    ensures r.Ok? <==> at + size <= |bytes|
    ensures r.Stopped? ==> r.why.Error?
    ensures r.Ok? ==> |r.value| == size
  {
    if at + size <= |bytes| then Ok(bytes[at..at + size]) else Fail(SectionHeaderOutOfBounds)
  }

  function SectionAt(bytes: seq<byte>, at: nat): Section
    requires at + SHDR_SIZE <= |bytes|
  {
    Pow256Values();
    Section(ReadLe(bytes, at + 4, 4), ReadLe(bytes, at + 8, 8), ReadLe(bytes, at + 24, 8),
            ReadLe(bytes, at + 32, 8), ReadLe(bytes, at + 40, 4), ReadLe(bytes, at + 44, 4),
            ReadLe(bytes, at + 48, 8))
  }

  function SymbolAt(bytes: seq<byte>, at: nat): Symbol
    requires at + SYM_SIZE <= |bytes|
  {
    Pow256Values();
    Symbol(ReadLe(bytes, at, 4), ReadLe(bytes, at + 6, 2), ReadLe(bytes, at + 8, 8))
  }

  function RelocationAt(bytes: seq<byte>, at: nat): Relocation
    requires at + RELA_SIZE <= |bytes|
  {
    Pow256Values();
    var info := ReadLe(bytes, at + 8, 8);
    Relocation(ReadLe(bytes, at, 8), info / TWO_32, info % TWO_32, ToSigned(ReadLe(bytes, at + 16, 8)))
  }

  /** `count` consecutive records of `entry` bytes each, starting at `start`. */
  function SectionsFrom(bytes: seq<byte>, start: nat, entry: nat, count: nat): (r: seq<Section>)
    requires entry >= SHDR_SIZE && start + entry * count <= |bytes|
    ensures |r| == count
  {
    if count == 0 then [] else
    SectionsFrom(bytes, start, entry, count - 1) + [SectionAt(bytes, start + entry * (count - 1))]
  }

  function SymbolsFrom(bytes: seq<byte>, count: nat): (r: seq<Symbol>)
    requires SYM_SIZE * count <= |bytes|
    ensures |r| == count
  {
    if count == 0 then [] else SymbolsFrom(bytes, count - 1) + [SymbolAt(bytes, SYM_SIZE * (count - 1))]
  }

  function RelocationsFrom(bytes: seq<byte>, count: nat): (r: seq<Relocation>)
    requires RELA_SIZE * count <= |bytes|
    ensures |r| == count
  {
    if count == 0 then [] else RelocationsFrom(bytes, count - 1) + [RelocationAt(bytes, RELA_SIZE * (count - 1))]
  }

  function FirstSymtab(sections: seq<Section>): (r: nat)
    ensures r <= |sections|
    ensures r < |sections| ==> sections[r].shType == SHT_SYMTAB
    ensures forall i :: 0 <= i < r ==> sections[i].shType != SHT_SYMTAB
  {
    if sections == [] || sections[0].shType == SHT_SYMTAB then 0 else 1 + FirstSymtab(sections[1..])
  }

  function RelaSections(sections: seq<Section>): seq<RelaMeta> {
    if sections == [] then [] else
    (if sections[0].shType == SHT_RELA then [RelaMeta(sections[0].offset, sections[0].size, sections[0].info)] else [])
    + RelaSections(sections[1..])
  }

  /** Where the section headers are: `Object::parse`'s checks of the file header, in its order. */
  function ParseHeader(bytes: seq<byte>): (r: Result<(nat, nat, nat)>)
    ensures r.Ok? ==> r.value.1 >= SHDR_SIZE && r.value.0 + r.value.1 * r.value.2 <= |bytes|
    ensures r.Stopped? ==> r.why.Error?
  {
    if |bytes| < EHDR_SIZE then Fail(TooShort)
    else if bytes[0..4] != MAGIC then Fail(BadMagic)
    else if bytes[4] != CLASS_64 then Fail(UnsupportedClass)
    else if bytes[5] != DATA_LITTLE_ENDIAN then Fail(UnsupportedEndianness)
    else if ReadLe(bytes, 16, 2) != TYPE_REL then Fail(UnsupportedType)
    else if ReadLe(bytes, 18, 2) != MACHINE_X86_64 then Fail(UnsupportedMachine)
    else
      var shoff, entry, count := ReadLe(bytes, 40, 8), ReadLe(bytes, 58, 2), ReadLe(bytes, 60, 2);
      if entry < SHDR_SIZE || shoff + entry * count > |bytes| then Fail(SectionHeaderOutOfBounds)
      else Ok((shoff, entry, count))
  }

  /** The object whose section headers are `sections`: its symbol and string tables. */
  function ParseTables(bytes: seq<byte>, sections: seq<Section>): Result<Object> {
    var t := FirstSymtab(sections);
    if t == |sections| || sections[t].link >= |sections| then Fail(MissingSymbolOrStringTable)
    else
      var strings := sections[sections[t].link];
      var strtab :- Slice(bytes, strings.offset, strings.size);
      var symtab :- Slice(bytes, sections[t].offset, sections[t].size);
      Ok(Object(bytes, sections, SymbolsFrom(symtab, |symtab| / SYM_SIZE), strtab, RelaSections(sections)))
  }

  /** What `Object::parse` makes of `bytes`. */
  function Parse(bytes: seq<byte>): Result<Object> {
    var (shoff, entry, count) :- ParseHeader(bytes);
    ParseTables(bytes, SectionsFrom(bytes, shoff, entry, count))
  }

  method ReadSections(bytes: seq<byte>, start: nat, entry: nat, count: nat) returns (r: seq<Section>)
    requires entry >= SHDR_SIZE && start + entry * count <= |bytes|
    ensures r == SectionsFrom(bytes, start, entry, count)
  {
    r := [];
    for i := 0 to count
      invariant entry * i <= entry * count
      invariant r == SectionsFrom(bytes, start, entry, i)
    {
      MulStep(entry, i, count);
      r := r + [SectionAt(bytes, start + entry * i)];
    }
  }

  method ReadSymbols(symtab: seq<byte>) returns (r: seq<Symbol>)
    ensures r == SymbolsFrom(symtab, |symtab| / SYM_SIZE)
  {
    r := [];
    for i := 0 to |symtab| / SYM_SIZE
      invariant r == SymbolsFrom(symtab, i)
    {
      r := r + [SymbolAt(symtab, SYM_SIZE * i)];
    }
  }

  /** `Object::parse`. Every slice it takes is in bounds, whatever `bytes` holds. */
  method ParseObject(bytes: seq<byte>) returns (r: Result<Object>)
    ensures r == Parse(bytes) && (r.Stopped? ==> r.why.Error?)
  {
    var header :- ParseHeader(bytes);
    var sections := ReadSections(bytes, header.0, header.1, header.2);
    var t := FirstSymtab(sections);
    if t == |sections| || sections[t].link >= |sections| { return Fail(MissingSymbolOrStringTable); }
    var strings := sections[sections[t].link];
    var strtab :- Slice(bytes, strings.offset, strings.size);
    var symtab :- Slice(bytes, sections[t].offset, sections[t].size);
    var symbols := ReadSymbols(symtab);
    return Ok(Object(bytes, sections, symbols, strtab, RelaSections(sections)));
  }

  /** `Object::relocations`. */
  function Relocations(o: Object, meta: RelaMeta): (r: Result<seq<Relocation>>)
    ensures r.Stopped? ==> r.why.Error?
    ensures r.Ok? <==> meta.offset + meta.size <= |o.bytes|
  {
    var raw :- Slice(o.bytes, meta.offset, meta.size);
    Ok(RelocationsFrom(raw, |raw| / RELA_SIZE))
  }

  lemma RecordInSlice(bytes: seq<byte>, from: nat, to: nat, at: nat)
    requires from <= to <= |bytes| && from + at + RELA_SIZE <= to
    ensures RelocationAt(bytes[from..to], at) == RelocationAt(bytes, from + at)
  {
    SliceSlice(bytes, from, to, at, at + 8);
    SliceSlice(bytes, from, to, at + 8, at + 16);
    SliceSlice(bytes, from, to, at + 16, at + 24);
  }

  lemma {:induction false} RecordFrom(raw: seq<byte>, count: nat, i: nat)
    requires i < count && RELA_SIZE * count <= |raw|
    ensures RelocationsFrom(raw, count)[i] == RelocationAt(raw, RELA_SIZE * i)
  {
    if i < count - 1 {
      RecordFrom(raw, count - 1, i);
    }
  }

  /** A RELA section holds one record for every whole 24 bytes, each read where it lies in the file. */
  lemma {:induction false} RelocationsRead(o: Object, meta: RelaMeta, i: nat)
    requires Relocations(o, meta).Ok? && RELA_SIZE * (i + 1) <= meta.size
    ensures |Relocations(o, meta).value| == meta.size / RELA_SIZE
    ensures i < |Relocations(o, meta).value|
            && Relocations(o, meta).value[i] == RelocationAt(o.bytes, meta.offset + RELA_SIZE * i)
  {
    var to := meta.offset + meta.size;
    var raw := o.bytes[meta.offset..to];
    RecordFrom(raw, meta.size / RELA_SIZE, i);
    RecordInSlice(o.bytes, meta.offset, to, RELA_SIZE * i);
  }

  // ---- Symbol names ----

  predicate Continuation(s: seq<byte>, i: nat) {
    i < |s| && 0x80 <= s[i] <= 0xbf
  }

  /** The length of the UTF-8 character `s` starts with (RFC 3629 section 4), 0 if it's malformed. */
  function Utf8Length(s: seq<byte>): (n: nat)
    requires s != []
    ensures n <= |s|
  {
    var b := s[0];
    if b < 0x80 then 1
    else if 0xc2 <= b <= 0xdf && Continuation(s, 1) then 2
    else if 0xe0 <= b <= 0xef && Continuation(s, 1) && Continuation(s, 2)
            && (b == 0xe0 ==> s[1] >= 0xa0) && (b == 0xed ==> s[1] <= 0x9f) then 3
    else if 0xf0 <= b <= 0xf4 && Continuation(s, 1) && Continuation(s, 2) && Continuation(s, 3)
            && (b == 0xf0 ==> s[1] >= 0x90) && (b == 0xf4 ==> s[1] <= 0x8f) then 4
    else 0
  }

  predicate IsUtf8(s: seq<byte>) {
    s == [] || (Utf8Length(s) > 0 && IsUtf8(s[Utf8Length(s)..]))
  }

  function UpToNul(s: seq<byte>): (r: Option<seq<byte>>)
    ensures r.Some? ==> r.value + [0] <= s && 0 !in r.value
    ensures r.None? ==> 0 !in s
  {
    if s == [] then None
    else if s[0] == 0 then Some([])
    else match UpToNul(s[1..])
      case None => None
      case Some(rest) => Some([s[0]] + rest)
  }

  /** `read_str`. */
  function ReadStr(strtab: seq<byte>, offset: nat): Option<seq<byte>> {
    if offset > |strtab| then None
    else match UpToNul(strtab[offset..])
      case None => None
      case Some(name) => if IsUtf8(name) then Some(name) else None
  }

  /** `symbol_name`; `None` makes the symbol unresolved. */
  function SymbolName(o: Object, i: nat): Option<seq<byte>> {
    if i >= |o.symbols| then None else ReadStr(o.strtab, o.symbols[i].nameOff)
  }

  predicate Defines(o: Object, i: nat, name: seq<byte>)
    requires i < |o.symbols|
  {
    o.symbols[i].shndx != SHN_UNDEF && ReadStr(o.strtab, o.symbols[i].nameOff) == Some(name)
  }

  /** `find_defined_symbol`: the first symbol of that name that isn't undefined. */
  method FindDefinedSymbol(o: Object, name: seq<byte>) returns (r: Option<nat>)
    ensures r == FirstDefined(o, name, 0)
  {
    for i := 0 to |o.symbols|
      invariant FirstDefined(o, name, 0) == FirstDefined(o, name, i)
    {
      if Defines(o, i, name) { return Some(i); }
    }
    return None;
  }

  function FirstDefined(o: Object, name: seq<byte>, from: nat): (r: Option<nat>)
    requires from <= |o.symbols|
    ensures r.Some? ==> from <= r.value < |o.symbols| && Defines(o, r.value, name)
    ensures r.Some? ==> forall i :: from <= i < r.value ==> !Defines(o, i, name)
    ensures r.None? ==> forall i :: from <= i < |o.symbols| ==> !Defines(o, i, name)
    decreases |o.symbols| - from
  {
    if from == |o.symbols| then None
    else if Defines(o, from, name) then Some(from)
    else FirstDefined(o, name, from + 1)
  }
}
