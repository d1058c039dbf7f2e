/** A module file with a section aligned to more than a page, loaded after a module of one page. */
module Overalignment {
  import opened Words
  import opened ElfObject
  import opened ElfEncoding
  import opened ModuleLayout
  import opened LayoutSoundness
  import opened RelocationArithmetic
  import opened Loops
  import opened LinkPlan
  import opened LinkedImage
  import opened ModuleLoader
  import opened LoadTheorem

  /** The null header, one page of code aligned to two, the symbol table and its names. */
  const HEADERS: seq<Shdr> := [
    Shdr(0, 0, 0, 0, 0, 0, 0, 0, 0, 0),
    Shdr(0, SHT_NOBITS, 6, 0, 0, 4096, 0, 0, 8192, 0),
    Shdr(0, SHT_SYMTAB, 0, 0, 320, 24, 3, 0, 8, 24),
    Shdr(0, 3, 0, 0, 344, 12, 0, 0, 1, 0)]
  /** `module_init`, at the start of the code. */
  const INIT: Sym := Sym(0, 0x12, 0, 1, 0, 0)
  const NAMES: seq<byte> := INIT_SYMBOL + [0]
  const FILE: seq<byte> := FileOf(HEADERS, INIT, NAMES)

  const SECTIONS: seq<Section> := [
    Section(0, 0, 0, 0, 0, 0, 0),
    Section(SHT_NOBITS, 6, 0, 4096, 0, 0, 8192),
    Section(SHT_SYMTAB, 0, 320, 24, 3, 0, 8),
    Section(3, 0, 344, 12, 0, 0, 1)]
  const LAYOUT: Layout := Layout(map[1 := 0], [4096, 4096, 4096], 4096, 4096)
  const SECOND_BASE: nat := MODULE_VA_BASE + 4096

  // ---- The file ----

  /** The header, four section headers, the symbol and its name. */
  function FileOf(hs: seq<Shdr>, sym: Sym, names: seq<byte>): seq<byte>
    requires |hs| == 4
  {
    EncodeEhdr(64, 64, 4) + EncodeShdr(hs[0]) + EncodeShdr(hs[1]) + EncodeShdr(hs[2]) + EncodeShdr(hs[3])
    + EncodeSym(sym) + names
  }

  lemma {:induction false} FileParts(h: seq<byte>, s0: seq<byte>, s1: seq<byte>, s2: seq<byte>, s3: seq<byte>,
                                     sym: seq<byte>, names: seq<byte>)
    requires |h| == |s0| == |s1| == |s2| == |s3| == 64 && |sym| == 24 && |names| == 12
    ensures var f := h + s0 + s1 + s2 + s3 + sym + names;
            && |f| == 356 && f[0..64] == h && f[320..344] == sym && f[344..356] == names
            && Holds(f, 64, s0) && Holds(f, 128, s1) && Holds(f, 192, s2) && Holds(f, 256, s3)
  {
  }

  lemma {:induction false} FourHeld(bytes: seq<byte>, hs: seq<Shdr>)
    requires |hs| == 4 && |bytes| >= 320 && Holds(bytes, 64, EncodeShdr(hs[0])) && Holds(bytes, 128, EncodeShdr(hs[1]))
    requires Holds(bytes, 192, EncodeShdr(hs[2])) && Holds(bytes, 256, EncodeShdr(hs[3]))
    ensures HoldsShdrs(bytes, 64, 64, hs)
  {
    forall i | 0 <= i < 4
      ensures Holds(bytes, 64 + 64 * i, EncodeShdr(hs[i]))
    {
      assert i == 0 || i == 1 || i == 2 || i == 3;
    }
  }

  lemma {:induction false} HeadersHeld(hs: seq<Shdr>, sym: Sym, names: seq<byte>)
    requires |hs| == 4 && |names| == 12
    ensures var f := FileOf(hs, sym, names);
            && |f| == 356 && f[0..64] == EncodeEhdr(64, 64, 4) && HoldsShdrs(f, 64, 64, hs)
            && f[320..344] == EncodeSym(sym) && f[344..356] == names
  {
    FileParts(EncodeEhdr(64, 64, 4), EncodeShdr(hs[0]), EncodeShdr(hs[1]), EncodeShdr(hs[2]), EncodeShdr(hs[3]),
              EncodeSym(sym), names);
    FourHeld(FileOf(hs, sym, names), hs);
  }

  lemma {:induction false} SymbolHeld(symtab: seq<byte>)
    requires symtab == EncodeSym(INIT)
    ensures HoldsSyms(symtab, [INIT])
  {
    assert symtab[0..24] == symtab;
  }

  lemma {:induction false} FileEncoded()
    ensures IsObjectFile(FILE, 64, 64, HEADERS, 2, [INIT]) && |FILE| == 356 && FILE[344..356] == NAMES
  {
    HeadersHeld(HEADERS, INIT, NAMES);
    EhdrHeld(FILE, 64, 64, 4);
    SymbolHeld(FILE[320..344]);
  }

  /** What parsing the file leaves to load. */
  predicate IsExample(o: Object) {
    o.sections == SECTIONS && o.symbols == [Symbol(0, 1, 0)] && o.strtab == NAMES && o.relaSections == []
  }

  lemma {:induction false} NoRelaSections(sections: seq<Section>)
    requires forall i :: 0 <= i < |sections| ==> sections[i].shType != SHT_RELA
    ensures RelaSections(sections) == []
  {
    if sections != [] {
      NoRelaSections(sections[1..]);
    }
  }

  lemma {:induction false} FileParses() returns (o: Object)
    ensures Parse(FILE) == Ok(o) && IsExample(o)
  {
    FileEncoded();
    o := ExampleParsed(FILE);
  }

  lemma {:induction false} ExampleParsed(bytes: seq<byte>) returns (o: Object)
    requires IsObjectFile(bytes, 64, 64, HEADERS, 2, [INIT]) && |bytes| == 356 && bytes[344..356] == NAMES
    ensures Parse(bytes) == Ok(o) && IsExample(o)
  {
    ParseInvertsEncoding(bytes, 64, 64, HEADERS, 2, [INIT]);
    o := Parse(bytes).value;
    SectionsKept(o.sections);
    SymbolsKept(o.symbols);
  }

  lemma {:induction false} SectionsKept(sections: seq<Section>)
    requires sections == seq(|HEADERS|, i requires 0 <= i < |HEADERS| => SectionOf(HEADERS[i]))
    ensures sections == SECTIONS && RelaSections(sections) == []
  {
    NoRelaSections(SECTIONS);
  }

  lemma {:induction false} SymbolsKept(symbols: seq<Symbol>)
    requires symbols == seq(|[INIT]|, i requires 0 <= i < |[INIT]| => SymbolOf([INIT][i]))
    ensures symbols == [Symbol(0, 1, 0)]
  {
  }

  // ---- The layout ----

  lemma {:induction false} TwoPages()
    ensures AlignUp(0, 8192) == Ok(0) && GoodAlign(8192)
  {
    PageIsPow2();
    assert Pow2(13) == 8192;
    AlignUpIsCeiling(0, 8192);
  }

  /** A group with no section of its own. */
  lemma {:induction false} NonePlaced(g: nat, n: nat, start: Cursor)
    requires n <= 4 && g != GROUP_TEXT
    ensures PlaceGroup(SECTIONS, g, n, start) == Ok(start)
  {
    if n > 0 {
      NonePlaced(g, n - 1, start);
    }
  }

  lemma {:induction false} CodePlaced()
    ensures PlaceGroup(SECTIONS, GROUP_TEXT, 4, Cursor(map[], 0)) == Ok(Cursor(map[1 := 0], 4096))
  {
    TwoPages();
    var start, placed := Cursor(map[], 0), Cursor(map[1 := 0], 4096);
    assert PlaceGroup(SECTIONS, 0, 1, start) == Ok(start);
    assert PlaceGroup(SECTIONS, 0, 2, start) == Ok(placed);
    assert PlaceGroup(SECTIONS, 0, 3, start) == Ok(placed);
  }

  lemma {:induction false} LaidOut(o: Object)
    requires IsExample(o)
    ensures LayOut(o) == Ok(LAYOUT)
  {
    PageIsPow2();
    PageAlignUp(0);
    PageAlignUp(4096);
    AlignUpIsCeiling(4096, 8);
    var start, placed := Cursor(map[], 0), Cursor(map[1 := 0], 4096);
    var none: seq<nat> := [];
    assert none + [4096] == [4096] && [4096] + [4096] == [4096, 4096] && [4096, 4096] + [4096] == [4096, 4096, 4096];
    CodePlaced();
    assert GroupPass(o, 0, Pass(start, [], 0)) == Ok(Pass(placed, [4096], 0));
    NonePlaced(1, 4, placed);
    assert GroupPass(o, 1, Pass(placed, [4096], 0)) == Ok(Pass(placed, [4096, 4096], 4096));
    NonePlaced(2, 4, placed);
    assert GroupPass(o, 2, Pass(placed, [4096, 4096], 4096)) == Ok(Pass(placed, [4096, 4096, 4096], 4096));
    assert Passes(o, 1) == GroupPass(o, 0, Pass(start, [], 0));
    assert Passes(o, 2) == GroupPass(o, 1, Pass(placed, [4096], 0));
  }

  // ---- The symbols ----

  lemma {:induction false} UpToFirstNul(name: seq<byte>)
    requires 0 !in name
    ensures UpToNul(name + [0]) == Some(name)
  {
    if name == [] {
      assert name + [0] == [0];
    } else {
      assert (name + [0])[1..] == name[1..] + [0];
      UpToFirstNul(name[1..]);
      assert name == [name[0]] + name[1..];
    }
  }

  lemma {:induction false} AsciiIsUtf8(name: seq<byte>)
    requires forall i :: 0 <= i < |name| ==> name[i] < 0x80
    ensures IsUtf8(name)
  {
    if name != [] {
      AsciiIsUtf8(name[1..]);
    }
  }

  lemma {:induction false} NameRead()
    ensures ReadStr(NAMES, 0) == Some(INIT_SYMBOL) && INIT_SYMBOL != CHARGE_ID_SYMBOL
  {
    UpToFirstNul(INIT_SYMBOL);
    AsciiIsUtf8(INIT_SYMBOL);
    assert NAMES[0..] == INIT_SYMBOL + [0];
    assert INIT_SYMBOL[0] != CHARGE_ID_SYMBOL[0];
  }

  lemma {:induction false} InitDefined(o: Object)
    requires IsExample(o)
    ensures FirstDefined(o, INIT_SYMBOL, 0) == Some(0) && FirstDefined(o, CHARGE_ID_SYMBOL, 0) == None
  {
    NameRead();
    assert Defines(o, 0, INIT_SYMBOL) && !Defines(o, 0, CHARGE_ID_SYMBOL);
  }

  // ---- The load ----

  lemma {:induction false} ExampleWellFormed(o: Object)
    requires IsExample(o)
    ensures WellFormedObject(o) && Sites(o, LAYOUT) == []
  {
    AlignsGood();
    LaidOut(o);
    NothingToRelocate(o);
    InitDefined(o);
  }

  lemma {:induction false} AlignsGood()
    ensures GoodAligns(SECTIONS)
  {
    TwoPages();
  }

  lemma {:induction false} NothingToRelocate(o: Object)
    requires o.relaSections == []
    ensures Sites(o, LAYOUT) == [] && WellFormed(o, LAYOUT)
  {
  }

  lemma {:induction false} NoCopies(o: Object, base: nat, n: nat)
    requires IsExample(o) && n <= 4
    ensures Fold(CopyLoop(o, LAYOUT.at, base), n, []) == Ok([])
  {
    if n > 0 {
      NoCopies(o, base, n - 1);
    }
  }

  lemma {:induction false} PlanMade(o: Object, base: nat, ext: Resolver)
    requires IsExample(o) && base + 4096 < TWO_64
    ensures MakePlan(o, LAYOUT, [], base, ext) == Ok(Plan([], [], map[0 := base]))
  {
    NoCopies(o, base, 4);
    var naming := SymbolLoop(o, LAYOUT.at, base);
    assert Fold(naming, 0, map[]) == Ok(map[]);
    assert Fold(naming, 1, map[]) == Ok(map[0 := base]);
  }

  /** The file prepared for loading at `base`. */
  lemma {:induction false} FilePrepared(base: nat, ext: Resolver) returns (prep: Prep)
    requires base + 4096 < TWO_64
    ensures Prepared(FILE) == Ok(prep) && WellFormedObject(prep.o)
    ensures |prep.o.sections| == 4 && prep.o.sections[1].addralign == 8192
    ensures 1 in prep.l.at && prep.l.at[1] == 0 && prep.l.size == 4096
    ensures FirstDefined(prep.o, INIT_SYMBOL, 0) == Some(0)
    ensures prep.plan(base, ext) == Ok(Plan([], [], map[0 := base]))
  {
    var o := FileParses();
    prep := Prep(o, LAYOUT, [], Planning(o, LAYOUT, []));
    LaidOut(o);
    ExampleWellFormed(o);
    InitDefined(o);
    PlanMade(o, base, ext);
    assert prep.plan(base, ext) == MakePlan(o, LAYOUT, [], base, ext);
  }

  lemma {:induction false} SecondRegion()
    ensures ModuleRegistry.Run([ModuleRegistry.LoadStarts("a", 4096, false)], 1).value.s.nextCode == SECOND_BASE
  {
    var first := [ModuleRegistry.LoadStarts("a", 4096, false)];
    assert ModuleRegistry.Run(first, 0) == Some(ModuleRegistry.History(ModuleRegistry.BOOT, []));
  }

  lemma {:induction false} OnePage(pages: PageTable, first: nat, answer: nat -> Answer)
    requires pages.Get(first).None? && answer(first) == Frame
    ensures MapOutcome(pages, first, 1, answer) == Ok(())
  {
    assert MapOutcome(pages, first, 0, answer) == Ok(());
  }

  lemma {:induction false} EntryFound(o: Object, addrs: map<nat, u64>)
    requires FirstDefined(o, INIT_SYMBOL, 0) == Some(0) && 0 in addrs
    ensures DefinedAt(o, addrs, INIT_SYMBOL) == Some(addrs[0])
  {
  }

  lemma {:induction false} LinksAndEnters(prep: Prep, plan: Plan, ext: Resolver, base: nat, pages: PageTable,
                                          answer: nat -> Answer, entry: u64)
    requires prep.plan(base, ext) == Ok(plan) && DefinedAt(prep.o, plan.addrs, INIT_SYMBOL) == Some(entry)
    requires MapOutcome(pages, base / PAGE_SIZE, prep.l.size / PAGE_SIZE, answer) == Ok(())
    ensures LoadedOutcome(prep, ext, base, pages, answer) == Ok(entry)
  {
    assert LinkOutcome(prep, ext, base, pages, answer) == Ok(plan.addrs);
  }

  /** The file loads, in the region after the first module's, and its section isn't aligned. */
  lemma {:induction false} OveralignedLoads(ext: Resolver, pages: PageTable, answer: nat -> Answer) returns (prep: Prep)
    requires pages.Get(SECOND_BASE / PAGE_SIZE).None? && answer(SECOND_BASE / PAGE_SIZE) == Frame
    ensures ModuleRegistry.Run([ModuleRegistry.LoadStarts("a", 4096, false)], 1).value.s.nextCode == SECOND_BASE
    ensures Prepared(FILE) == Ok(prep) && WellFormedObject(prep.o)
    ensures FileOutcome(FILE, ext, SECOND_BASE, pages, answer) == Ok(SECOND_BASE)
    ensures 1 < |prep.o.sections| && prep.o.sections[1].addralign == 8192
    ensures 1 in prep.l.at && SECOND_BASE + prep.l.at[1] == SECOND_BASE && SECOND_BASE % 8192 != 0
  {
    SecondRegion();
    assert SECOND_BASE % 8192 != 0;
    prep := FilePrepared(SECOND_BASE, ext);
    OnePage(pages, SECOND_BASE / PAGE_SIZE, answer);
    EntryFound(prep.o, map[0 := SECOND_BASE]);
    LinksAndEnters(prep, Plan([], [], map[0 := SECOND_BASE]), ext, SECOND_BASE, pages, answer, SECOND_BASE);
  }
}
