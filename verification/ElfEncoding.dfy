/** Object files as the gABI writes them, and the proof that the loader's reader inverts it. */
module ElfEncoding {
  import opened Words
  import opened ElfObject

  /** `Elf64_Shdr`, `Elf64_Sym` and `Elf64_Rela` with all their fields. */
  datatype Shdr = Shdr(name: u32, shType: u32, flags: u64, addr: u64, offset: u64, size: u64, link: u32,
                       info: u32, addralign: u64, entsize: u64)
  datatype Sym = Sym(name: u32, info: byte, other: byte, shndx: u16, value: u64, size: u64)
  datatype Rela = Rela(offset: u64, symbol: u32, kind: u32, addend: i64)

  function EncodeShdr(s: Shdr): (e: seq<byte>)
    ensures |e| == SHDR_SIZE
  {
    LeBytes(s.name, 4) + LeBytes(s.shType, 4) + LeBytes(s.flags, 8) + LeBytes(s.addr, 8) + LeBytes(s.offset, 8)
    + LeBytes(s.size, 8) + LeBytes(s.link, 4) + LeBytes(s.info, 4) + LeBytes(s.addralign, 8) + LeBytes(s.entsize, 8)
  }

  function EncodeSym(s: Sym): (e: seq<byte>)
    ensures |e| == SYM_SIZE
  {
    LeBytes(s.name, 4) + [s.info, s.other] + LeBytes(s.shndx, 2) + LeBytes(s.value, 8) + LeBytes(s.size, 8)
  }

  function EncodeRela(r: Rela): (e: seq<byte>)
    ensures |e| == RELA_SIZE
  {
    LeBytes(r.offset, 8) + LeBytes(r.symbol * TWO_32 + r.kind, 8) + LeBytes(r.addend % TWO_64, 8)
  }

  /** `Elf64_Ehdr` of an x86-64 `ET_REL` file. */
  function EncodeEhdr(shoff: u64, entry: u16, count: u16): (e: seq<byte>)
    ensures |e| == EHDR_SIZE
  {
    (MAGIC + [CLASS_64, DATA_LITTLE_ENDIAN, 1] + Zeros(9)) + LeBytes(TYPE_REL, 2) + LeBytes(MACHINE_X86_64, 2)
    + (LeBytes(1, 4) + Zeros(16)) + LeBytes(shoff, 8) + (Zeros(4) + LeBytes(EHDR_SIZE, 2) + Zeros(4))
    + LeBytes(entry, 2) + LeBytes(count, 2) + Zeros(2)
  }

  /** What the loader keeps of each record. */
  function SectionOf(s: Shdr): Section {
    Section(s.shType, s.flags, s.offset, s.size, s.link, s.info, s.addralign)
  }

  function SymbolOf(s: Sym): Symbol {
    Symbol(s.name, s.shndx, s.value)
  }

  function RelocationOf(r: Rela): Relocation {
    Relocation(r.offset, r.symbol, r.kind, r.addend)
  }

  predicate Holds(bytes: seq<byte>, at: nat, part: seq<byte>) {
    at + |part| <= |bytes| && bytes[at..at + |part|] == part
  }

  /** A field at offset `k` of a record is read back from the file that holds the record. */
  lemma {:induction false} ReadField(bytes: seq<byte>, at: nat, part: seq<byte>, k: nat, n: nat, v: nat)
    requires Holds(bytes, at, part) && k + n <= |part|
    requires part[k..k + n] == LeBytes(v, n) && v < Pow256(n)
    ensures ReadLe(bytes, at + k, n) == v
  {
    var read, written := bytes[at + k..at + k + n], part[k..k + n];
    forall i | 0 <= i < n
      ensures read[i] == written[i]
    {
      assert bytes[at..at + |part|][k + i] == part[k + i];
    }
    ReadLeAfterWrite(bytes, at + k, n, v);
  }

  lemma {:induction false} ReadShdr(bytes: seq<byte>, at: nat, s: Shdr)
    requires Holds(bytes, at, EncodeShdr(s))
    ensures SectionAt(bytes, at) == SectionOf(s)
  {
    Pow256Values();
    var e := EncodeShdr(s);
    assert e[4..8] == LeBytes(s.shType, 4);
    assert e[8..16] == LeBytes(s.flags, 8);
    assert e[24..32] == LeBytes(s.offset, 8);
    assert e[32..40] == LeBytes(s.size, 8);
    assert e[40..44] == LeBytes(s.link, 4);
    assert e[44..48] == LeBytes(s.info, 4);
    assert e[48..56] == LeBytes(s.addralign, 8);
    ReadField(bytes, at, e, 4, 4, s.shType);
    ReadField(bytes, at, e, 8, 8, s.flags);
    ReadField(bytes, at, e, 24, 8, s.offset);
    ReadField(bytes, at, e, 32, 8, s.size);
    ReadField(bytes, at, e, 40, 4, s.link);
    ReadField(bytes, at, e, 44, 4, s.info);
    ReadField(bytes, at, e, 48, 8, s.addralign);
  }

  lemma {:induction false} ReadSym(bytes: seq<byte>, at: nat, s: Sym)
    requires Holds(bytes, at, EncodeSym(s))
    ensures SymbolAt(bytes, at) == SymbolOf(s)
  {
    Pow256Values();
    var e := EncodeSym(s);
    assert e[0..4] == LeBytes(s.name, 4);
    assert e[6..8] == LeBytes(s.shndx, 2);
    assert e[8..16] == LeBytes(s.value, 8);
    ReadField(bytes, at, e, 0, 4, s.name);
    ReadField(bytes, at, e, 6, 2, s.shndx);
    ReadField(bytes, at, e, 8, 8, s.value);
  }

  lemma {:induction false} ThreeParts(a: seq<byte>, b: seq<byte>, c: seq<byte>)
    requires |a| == 8 && |b| == 8 && |c| == 8
    ensures var e := a + b + c; e[0..8] == a && e[8..16] == b && e[16..24] == c
  {
  }

  lemma {:induction false} ReadWords(bytes: seq<byte>, at: nat, a: u64, b: u64, c: u64)
    requires Holds(bytes, at, LeBytes(a, 8) + LeBytes(b, 8) + LeBytes(c, 8))
    ensures at + 24 <= |bytes| && ReadLe(bytes, at, 8) == a && ReadLe(bytes, at + 8, 8) == b
    ensures ReadLe(bytes, at + 16, 8) == c
  {
    Pow256Values();
    var e := LeBytes(a, 8) + LeBytes(b, 8) + LeBytes(c, 8);
    ThreeParts(LeBytes(a, 8), LeBytes(b, 8), LeBytes(c, 8));
    ReadField(bytes, at, e, 0, 8, a);
    ReadField(bytes, at, e, 8, 8, b);
    ReadField(bytes, at, e, 16, 8, c);
  }

  lemma {:induction false} ReadRela(bytes: seq<byte>, at: nat, r: Rela)
    requires Holds(bytes, at, EncodeRela(r))
    ensures RelocationAt(bytes, at) == RelocationOf(r)
  {
    var info := r.symbol * TWO_32 + r.kind;
    ReadWords(bytes, at, r.offset, info, r.addend % TWO_64);
    ModUnique(info, TWO_32, r.symbol, r.kind);
  }

  // ---- Whole tables ----

  ghost predicate HoldsShdrs(bytes: seq<byte>, at: nat, entry: nat, shdrs: seq<Shdr>) {
    && entry >= SHDR_SIZE && at + entry * |shdrs| <= |bytes|
    && forall i :: 0 <= i < |shdrs| ==> Holds(bytes, at + entry * i, EncodeShdr(shdrs[i]))
  }

  ghost predicate HoldsSyms(bytes: seq<byte>, syms: seq<Sym>) {
    && SYM_SIZE * |syms| <= |bytes|
    && forall i :: 0 <= i < |syms| ==> Holds(bytes, SYM_SIZE * i, EncodeSym(syms[i]))
  }

  ghost predicate HoldsRelas(bytes: seq<byte>, relas: seq<Rela>) {
    && RELA_SIZE * |relas| <= |bytes|
    && forall i :: 0 <= i < |relas| ==> Holds(bytes, RELA_SIZE * i, EncodeRela(relas[i]))
  }

  lemma {:induction false} ReadShdrs(bytes: seq<byte>, at: nat, entry: nat, shdrs: seq<Shdr>, n: nat)
    requires HoldsShdrs(bytes, at, entry, shdrs) && n <= |shdrs| && entry * n <= entry * |shdrs|
    ensures SectionsFrom(bytes, at, entry, n) == seq(n, i requires 0 <= i < n => SectionOf(shdrs[i]))
  {
    if n > 0 {
      MulStep(entry, n - 1, |shdrs|);
      ReadShdrs(bytes, at, entry, shdrs, n - 1);
      ReadShdr(bytes, at + entry * (n - 1), shdrs[n - 1]);
    }
  }

  lemma {:induction false} ReadSyms(bytes: seq<byte>, syms: seq<Sym>, n: nat)
    requires HoldsSyms(bytes, syms) && n <= |syms|
    ensures SymbolsFrom(bytes, n) == seq(n, i requires 0 <= i < n => SymbolOf(syms[i]))
  {
    if n > 0 {
      ReadSyms(bytes, syms, n - 1);
      ReadSym(bytes, SYM_SIZE * (n - 1), syms[n - 1]);
    }
  }

  lemma {:induction false} ReadRelas(bytes: seq<byte>, relas: seq<Rela>, n: nat)
    requires HoldsRelas(bytes, relas) && n <= |relas|
    ensures RelocationsFrom(bytes, n) == seq(n, i requires 0 <= i < n => RelocationOf(relas[i]))
  {
    if n > 0 {
      ReadRelas(bytes, relas, n - 1);
      ReadRela(bytes, RELA_SIZE * (n - 1), relas[n - 1]);
    }
  }

  /** The first symbol table section is the one with index `t`, and holds these symbols. */
  ghost predicate HoldsTables(bytes: seq<byte>, shdrs: seq<Shdr>, t: nat, syms: seq<Sym>) {
    && t < |shdrs| && shdrs[t].shType == SHT_SYMTAB && shdrs[t].link < |shdrs|
    && (forall i :: 0 <= i < t ==> shdrs[i].shType != SHT_SYMTAB)
    && shdrs[shdrs[t].link].offset + shdrs[shdrs[t].link].size <= |bytes|
    && shdrs[t].offset + shdrs[t].size <= |bytes| && shdrs[t].size == SYM_SIZE * |syms|
    && HoldsSyms(bytes[shdrs[t].offset..shdrs[t].offset + shdrs[t].size], syms)
  }

  /** `bytes` is an x86-64 `ET_REL` file with these section headers and, in its first symbol table
      section (index `t`), these symbols. */
  ghost predicate IsObjectFile(bytes: seq<byte>, shoff: nat, entry: nat, shdrs: seq<Shdr>, t: nat, syms: seq<Sym>) {
    && |bytes| >= EHDR_SIZE && shoff < TWO_64 && entry < 0x1_0000 && |shdrs| < 0x1_0000
    && bytes[0..4] == MAGIC && bytes[4] == CLASS_64 && bytes[5] == DATA_LITTLE_ENDIAN
    && Holds(bytes, 16, LeBytes(TYPE_REL, 2)) && Holds(bytes, 18, LeBytes(MACHINE_X86_64, 2))
    && Holds(bytes, 40, LeBytes(shoff, 8)) && Holds(bytes, 58, LeBytes(entry, 2))
    && Holds(bytes, 60, LeBytes(|shdrs|, 2))
    && HoldsShdrs(bytes, shoff, entry, shdrs)
    && HoldsTables(bytes, shdrs, t, syms)
  }

  lemma {:induction false} EhdrParts(a: seq<byte>, b: seq<byte>, c: seq<byte>, d: seq<byte>, e: seq<byte>, f: seq<byte>,
                                     g: seq<byte>, h: seq<byte>, i: seq<byte>)
    requires |a| == 16 && |b| == |c| == |g| == |h| == |i| == 2 && |d| == 20 && |e| == 8 && |f| == 10
    ensures var s := a + b + c + d + e + f + g + h + i;
            s[0..16] == a && s[16..18] == b && s[18..20] == c && s[40..48] == e && s[58..60] == g && s[60..62] == h
  {
  }

  lemma {:induction false} IdentParts(rest: seq<byte>)
    ensures var s := MAGIC + [CLASS_64, DATA_LITTLE_ENDIAN, 1] + rest;
            s[0..4] == MAGIC && s[4] == CLASS_64 && s[5] == DATA_LITTLE_ENDIAN
  {
  }

  /** A file that starts with an encoded header has the header's fields where the loader looks. */
  lemma {:induction false} EhdrHeld(bytes: seq<byte>, shoff: u64, entry: u16, count: u16)
    requires |bytes| >= EHDR_SIZE && bytes[0..EHDR_SIZE] == EncodeEhdr(shoff, entry, count)
    ensures bytes[0..4] == MAGIC && bytes[4] == CLASS_64 && bytes[5] == DATA_LITTLE_ENDIAN
    ensures Holds(bytes, 16, LeBytes(TYPE_REL, 2)) && Holds(bytes, 18, LeBytes(MACHINE_X86_64, 2))
    ensures Holds(bytes, 40, LeBytes(shoff, 8)) && Holds(bytes, 58, LeBytes(entry, 2))
    ensures Holds(bytes, 60, LeBytes(count, 2))
  {
    var ident := MAGIC + [CLASS_64, DATA_LITTLE_ENDIAN, 1] + Zeros(9);
    IdentParts(Zeros(9));
    EhdrParts(ident, LeBytes(TYPE_REL, 2), LeBytes(MACHINE_X86_64, 2), LeBytes(1, 4) + Zeros(16), LeBytes(shoff, 8),
              Zeros(4) + LeBytes(EHDR_SIZE, 2) + Zeros(4), LeBytes(entry, 2), LeBytes(count, 2), Zeros(2));
    SliceSlice(bytes, 0, EHDR_SIZE, 0, 16);
    SliceSlice(bytes, 0, EHDR_SIZE, 16, 18);
    SliceSlice(bytes, 0, EHDR_SIZE, 18, 20);
    SliceSlice(bytes, 0, EHDR_SIZE, 40, 48);
    SliceSlice(bytes, 0, EHDR_SIZE, 58, 60);
    SliceSlice(bytes, 0, EHDR_SIZE, 60, 62);
    IdentHeld(bytes, ident);
  }

  lemma {:induction false} IdentHeld(bytes: seq<byte>, ident: seq<byte>)
    requires |ident| == 16 <= |bytes| && bytes[0..16] == ident
    ensures bytes[0..4] == ident[0..4] && bytes[4] == ident[4] && bytes[5] == ident[5]
  {
    SliceSlice(bytes, 0, 16, 0, 4);
    assert bytes[4] == bytes[0..16][4] && bytes[5] == bytes[0..16][5];
  }

  lemma {:induction false} HeaderInvertsEncoding(bytes: seq<byte>, shoff: nat, entry: nat, shdrs: seq<Shdr>, t: nat,
                                                 syms: seq<Sym>)
    requires IsObjectFile(bytes, shoff, entry, shdrs, t, syms)
    ensures ParseHeader(bytes) == Ok((shoff, entry, |shdrs|))
  {
    Pow256Values();
    ReadLeAfterWrite(bytes, 16, 2, TYPE_REL);
    ReadLeAfterWrite(bytes, 18, 2, MACHINE_X86_64);
    ReadLeAfterWrite(bytes, 40, 8, shoff);
    ReadLeAfterWrite(bytes, 58, 2, entry);
    ReadLeAfterWrite(bytes, 60, 2, |shdrs|);
  }

  lemma {:induction false} TablesInvertEncoding(bytes: seq<byte>, sections: seq<Section>, t: nat, syms: seq<Sym>)
    requires t < |sections| && sections[t].shType == SHT_SYMTAB && sections[t].link < |sections|
    requires forall i :: 0 <= i < t ==> sections[i].shType != SHT_SYMTAB
    requires sections[sections[t].link].offset + sections[sections[t].link].size <= |bytes|
    requires sections[t].offset + sections[t].size <= |bytes| && sections[t].size == SYM_SIZE * |syms|
    requires HoldsSyms(bytes[sections[t].offset..sections[t].offset + sections[t].size], syms)
    ensures var strings := sections[sections[t].link];
            ParseTables(bytes, sections)
            == Ok(Object(bytes, sections, seq(|syms|, i requires 0 <= i < |syms| => SymbolOf(syms[i])),
                         bytes[strings.offset..strings.offset + strings.size], RelaSections(sections)))
  {
    var symtab := bytes[sections[t].offset..sections[t].offset + sections[t].size];
    assert FirstSymtab(sections) == t;
    ReadSyms(symtab, syms, |syms|);
    assert |symtab| / SYM_SIZE == |syms|;
  }

  /** The RELA sections are kept in order: the `i`th section, if it is one, after those before it. */
  lemma {:induction false} RelaSectionsInOrder(sections: seq<Section>, i: nat)
    requires i < |sections| && sections[i].shType == SHT_RELA
    ensures var n, all := |RelaSections(sections[..i])|, RelaSections(sections);
            n < |all| && all[n] == RelaMeta(sections[i].offset, sections[i].size, sections[i].info)
  {
    if i > 0 {
      RelaSectionsInOrder(sections[1..], i - 1);
      assert sections[..i][1..] == sections[1..][..i - 1];
    }
  }

  /** Parsing an object file gives back its section headers, symbols, string table and RELA sections. */
  lemma {:induction false} ParseInvertsEncoding(bytes: seq<byte>, shoff: nat, entry: nat, shdrs: seq<Shdr>, t: nat,
                                                syms: seq<Sym>)
    requires IsObjectFile(bytes, shoff, entry, shdrs, t, syms)
    ensures Parse(bytes).Ok?
    ensures var o := Parse(bytes).value;
            var strings := shdrs[shdrs[t].link];
            && o.bytes == bytes
            && o.sections == seq(|shdrs|, i requires 0 <= i < |shdrs| => SectionOf(shdrs[i]))
            && o.symbols == seq(|syms|, i requires 0 <= i < |syms| => SymbolOf(syms[i]))
            && o.strtab == bytes[strings.offset..strings.offset + strings.size]
            && o.relaSections == RelaSections(o.sections)
  {
    HeaderInvertsEncoding(bytes, shoff, entry, shdrs, t, syms);
    ReadShdrs(bytes, shoff, entry, shdrs, |shdrs|);
    var sections := SectionsFrom(bytes, shoff, entry, |shdrs|);
    TablesRead(bytes, shdrs, t, syms, sections);
    ParseInTwo(bytes, shoff, entry, |shdrs|, sections);
  }

  lemma {:induction false} TablesRead(bytes: seq<byte>, shdrs: seq<Shdr>, t: nat, syms: seq<Sym>, sections: seq<Section>)
    requires HoldsTables(bytes, shdrs, t, syms)
    requires |sections| == |shdrs| && forall i :: 0 <= i < |shdrs| ==> sections[i] == SectionOf(shdrs[i])
    ensures var strings := shdrs[shdrs[t].link];
            ParseTables(bytes, sections)
            == Ok(Object(bytes, sections, seq(|syms|, i requires 0 <= i < |syms| => SymbolOf(syms[i])),
                         bytes[strings.offset..strings.offset + strings.size], RelaSections(sections)))
  {
    assert sections[t] == SectionOf(shdrs[t]) && sections[shdrs[t].link] == SectionOf(shdrs[shdrs[t].link]);
    TablesInvertEncoding(bytes, sections, t, syms);
  }

  lemma {:induction false} ParseInTwo(bytes: seq<byte>, shoff: nat, entry: nat, count: nat, sections: seq<Section>)
    requires ParseHeader(bytes) == Ok((shoff, entry, count)) && entry >= SHDR_SIZE && shoff + entry * count <= |bytes|
    requires SectionsFrom(bytes, shoff, entry, count) == sections
    ensures Parse(bytes) == ParseTables(bytes, sections)
  {
  }

  /** A RELA section's relocations are read back from its encoding. */
  lemma {:induction false} RelocationsInvertEncoding(o: Object, meta: RelaMeta, relas: seq<Rela>)
    requires meta.offset + meta.size <= |o.bytes| && meta.size == RELA_SIZE * |relas|
    requires HoldsRelas(o.bytes[meta.offset..meta.offset + meta.size], relas)
    ensures Relocations(o, meta) == Ok(seq(|relas|, i requires 0 <= i < |relas| => RelocationOf(relas[i])))
  {
    var raw := o.bytes[meta.offset..meta.offset + meta.size];
    ReadRelas(raw, relas, |relas|);
    assert |raw| / RELA_SIZE == |relas|;
  }
}
