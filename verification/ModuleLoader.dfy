/** The module loader itself, over the kernel's memory and page table. */
module ModuleLoader {
  import opened Words
  import opened ElfObject
  import opened ModuleLayout
  import opened LayoutSoundness
  import opened RelocationArithmetic
  import opened Stores
  import opened Loops
  import opened LinkPlan
  import opened LinkedImage

  const MAX_CHARGED_MODULES: nat := 64
  const INIT_SYMBOL: seq<byte> := [0x6d, 0x6f, 0x64, 0x75, 0x6c, 0x65, 0x5f, 0x69, 0x6e, 0x69, 0x74]  // "module_init"
  const CHARGE_ID_SYMBOL: seq<byte> :=
    [0x6b, 0x65, 0x72, 0x6e, 0x5f, 0x6d, 0x6f, 0x64, 0x5f, 0x69, 0x64]  // "kern_mod_id"

  /** A mapped page's permissions; an unmapped page is missing from the table. */
  datatype Flags = Flags(writable: bool, noExecute: bool)

  datatype PageTable = PageTable(entries: map<nat, Flags>) {
    function Get(p: nat): Option<Flags> {
      if p in entries then Some(entries[p]) else None
    }

    function Set(p: nat, flags: Flags): PageTable {
      PageTable(entries[p := flags])
    }
  }

  /** What the frame allocator and the mapper answer for a new page. */
  datatype Answer = Frame | NoFrame | NoTable

  datatype LoadedModule = LoadedModule(name: string, base: nat, size: nat, fatalOnPanic: bool)

  /** Pages `[first, first + n)` given `flags`, one by one. */
  function SetPages(pages: PageTable, first: nat, n: nat, flags: Flags): PageTable {
    if n == 0 then pages else SetPages(pages, first, n - 1, flags).Set(first + n - 1, flags)
  }

  lemma {:induction false} SetPagesAt(pages: PageTable, first: nat, n: nat, flags: Flags, p: nat)
    ensures SetPages(pages, first, n, flags).Get(p) == if InRange(p, first, n) then Some(flags) else pages.Get(p)
  {
    if n > 0 {
      SetPagesAt(pages, first, n - 1, flags, p);
    }
  }

  predicate InRange(p: nat, first: nat, n: nat) {
    first <= p < first + n
  }

  predicate TakesStores(pages: PageTable, p: nat) {
    pages.Get(p).Some? && pages.Get(p).value.writable
  }

  predicate Writable(pages: PageTable, a: nat, n: nat) {
    n > 0 ==> forall p :: a / PAGE_SIZE <= p <= (a + n - 1) / PAGE_SIZE ==> TakesStores(pages, p)
  }

  /** The page isn't both writable and executable. */
  predicate CleanAt(pages: PageTable, p: nat) {
    pages.Get(p).Some? ==> !pages.Get(p).value.writable || pages.Get(p).value.noExecute
  }

  /** No page becomes both writable and executable that wasn't before. */
  ghost predicate KeepsClean(before: PageTable, after: PageTable) {
    forall p: nat :: CleanAt(before, p) ==> CleanAt(after, p)
  }

  /** Nor in any table on the way: those of `history` from `from` on. */
  ghost predicate StaysClean(before: PageTable, after: PageTable, history: seq<PageTable>, from: nat) {
    KeepsClean(before, after) && forall k :: from <= k < |history| ==> KeepsClean(before, history[k])
  }

  lemma {:induction false} StaysCleanOn(before: PageTable, between: PageTable, history: seq<PageTable>, from: nat,
                                        after: PageTable, history': seq<PageTable>)
    requires StaysClean(before, between, history, from) && StaysClean(between, after, history', |history|)
    requires history <= history'
    ensures StaysClean(before, after, history', from)
  {
    forall k | from <= k < |history'|
      ensures KeepsClean(before, history'[k])
    {
      if k < |history| {
        assert history'[k] == history[k];
      }
    }
  }

  /** The page tables on the way from `pages` to `SetPages(pages, first, n, flags)`. */
  function Tables(pages: PageTable, first: nat, n: nat, flags: Flags): seq<PageTable> {
    if n == 0 then [] else Tables(pages, first, n - 1, flags) + [SetPages(pages, first, n, flags)]
  }

  lemma {:induction false} SetPagesKeepsClean(pages: PageTable, first: nat, n: nat, flags: Flags)
    requires !flags.writable || flags.noExecute
    ensures KeepsClean(pages, SetPages(pages, first, n, flags))
  {
    forall p: nat | CleanAt(pages, p)
      ensures CleanAt(SetPages(pages, first, n, flags), p)
    {
      SetPagesAt(pages, first, n, flags, p);
    }
  }

  lemma {:induction false} TablesKeepClean(pages: PageTable, first: nat, n: nat, flags: Flags)
    requires !flags.writable || flags.noExecute
    ensures StaysClean(pages, SetPages(pages, first, n, flags), Tables(pages, first, n, flags), 0)
  {
    SetPagesKeepsClean(pages, first, n, flags);
    if n > 0 {
      TablesKeepClean(pages, first, n - 1, flags);
    }
  }

  function ChargeId(count: nat): u32 {
    if count <= MAX_CHARGED_MODULES then count else 0
  }

  ghost predicate AllMapped(pages: PageTable, first: nat, n: nat) {
    forall p: nat :: InRange(p, first, n) ==> pages.Get(p).Some?
  }

  /** Giving mapped pages new flags maps no new page. */
  lemma {:induction false} SetPagesKeepsDomain(pages: PageTable, first: nat, n: nat, flags: Flags)
    requires AllMapped(pages, first, n)
    ensures forall p: nat :: SetPages(pages, first, n, flags).Get(p).Some? == pages.Get(p).Some?
  {
    forall p: nat
      ensures SetPages(pages, first, n, flags).Get(p).Some? == pages.Get(p).Some?
    {
      SetPagesAt(pages, first, n, flags, p);
    }
  }

  /** What becomes of mapping one page. */
  function PageOutcome(pages: PageTable, p: nat, answer: nat -> Answer): Result<()> {
    if answer(p) == NoFrame then Fail(OutOfMemory)
    else if pages.Get(p).Some? || answer(p) == NoTable then Fail(MappingFailed)
    else Ok(())
  }

  /** What becomes of mapping `n` pages: the first that can't be had decides. */
  function MapOutcome(pages: PageTable, first: nat, n: nat, answer: nat -> Answer): Result<()> {
    if n == 0 then Ok(())
    else match MapOutcome(pages, first, n - 1, answer)
      case Stopped(why) => Stopped(why)
      case Ok(_) => PageOutcome(pages, first + n - 1, answer)
  }

  lemma {:induction false} MapOutcomeStops(pages: PageTable, first: nat, k: nat, n: nat, answer: nat -> Answer)
    requires k <= n && MapOutcome(pages, first, k, answer).Stopped?
    ensures MapOutcome(pages, first, n, answer) == MapOutcome(pages, first, k, answer)
  {
    if k < n {
      MapOutcomeStops(pages, first, k, n - 1, answer);
    }
  }

  lemma {:induction false} MapOutcomeNext(pages: PageTable, first: nat, k: nat, n: nat, answer: nat -> Answer)
    requires k < n && MapOutcome(pages, first, k, answer) == Ok(())
    ensures MapOutcome(pages, first, k + 1, answer) == PageOutcome(pages, first + k, answer)
    ensures PageOutcome(pages, first + k, answer).Stopped? ==>
              MapOutcome(pages, first, n, answer) == PageOutcome(pages, first + k, answer)
  {
    if PageOutcome(pages, first + k, answer).Stopped? {
      MapOutcomeStops(pages, first, k + 1, n, answer);
    }
  }

  lemma {:induction false} MapOutcomeError(pages: PageTable, first: nat, n: nat, answer: nat -> Answer)
    ensures MapOutcome(pages, first, n, answer).Stopped? ==> MapOutcome(pages, first, n, answer).why.Error?
  {
    if n > 0 {
      MapOutcomeError(pages, first, n - 1, answer);
    }
  }

  /** Mapping succeeds if and only if every page is free and can be had. */
  lemma {:induction false} MapsIffAllFree(pages: PageTable, first: nat, n: nat, answer: nat -> Answer)
    ensures MapOutcome(pages, first, n, answer).Ok? <==>
              forall p: nat :: InRange(p, first, n) ==> answer(p) == Frame && pages.Get(p).None?
  {
    if n > 0 {
      MapsIffAllFree(pages, first, n - 1, answer);
      var last := first + n - 1;
      assert forall p: nat :: InRange(p, first, n) <==> InRange(p, first, n - 1) || p == last;
    }
  }

  /** An object, its layout, its placed relocations, and the stores it takes to load it at a base. */
  datatype Prep = Prep(o: Object, l: Layout, sites: seq<Site>, plan: (nat, Resolver) -> Result<Plan>)

  ghost predicate Planned(prep: Prep) {
    prep.plan == Planning(prep.o, prep.l, prep.sites)
  }

  function Planning(o: Object, l: Layout, sites: seq<Site>): (nat, Resolver) -> Result<Plan> {
    (base: nat, ext: Resolver) => MakePlan(o, l, sites, base, ext)
  }

  function Prepared(bytes: seq<byte>): Result<Prep> {
    var o :- Parse(bytes);
    var l :- LayOut(o);
    Ok(Prep(o, l, Sites(o, l), Planning(o, l, Sites(o, l))))
  }

  method Prepare(bytes: seq<byte>) returns (r: Result<Prep>)
    ensures r == Prepared(bytes)
    ensures r.Ok? ==> Planned(r.value) && |r.value.l.ends| == 3
    ensures r.Ok? ==> r.value.l.size % PAGE_SIZE == 0 && r.value.l.size < TWO_64
    ensures r.Stopped? ==> r.why != PageFault
  {
    var parsed := ParseObject(bytes);
    var o :- parsed;
    var laidOut := ComputeLayout(o);
    var l :- laidOut;
    LayoutSize(o);
    var sites := Sites(o, l);
    return Ok(Prep(o, l, sites, Planning(o, l, sites)));
  }

  /** The region's pages as `map_region` leaves them. */
  function Mapped(pages: PageTable, base: nat, size: nat, nx: bool): PageTable {
    SetPages(pages, base / PAGE_SIZE, size / PAGE_SIZE, Flags(true, nx))
  }

  /** The planned stores are in memory, and `addrs` are the symbols' addresses. */
  ghost predicate Links(prep: Prep, ext: Resolver, base: nat, mem: Memory, addrs: map<nat, u64>, mem': Memory) {
    && prep.plan(base, ext).Ok?
    && addrs == prep.plan(base, ext).value.addrs
    && mem' == LoadedMemory(mem, base, prep.l.size, prep.plan(base, ext).value)
  }

  /** The final permissions are set, the charge id is stamped, and `entry` is the address of `module_init`. */
  ghost predicate Finishes(o: Object, l: Layout, nx: bool, base: nat, addrs: map<nat, u64>, mem: Memory,
                           pages: PageTable, id: u32, entry: u64, mem': Memory, pages': PageTable)
    requires |l.ends| == 3
  {
    && mem' == Stamp(mem, DefinedAt(o, addrs, CHARGE_ID_SYMBOL), id)
    && pages' == FinalPages(pages, base, l, nx)
    && DefinedAt(o, addrs, INIT_SYMBOL) == Some(entry)
  }

  ghost predicate Finishable(o: Object, l: Layout, nx: bool, base: nat, addrs: map<nat, u64>, pages: PageTable)
    requires |l.ends| == 3
  {
    && Protectable(pages, base, l)
    && StampWritable(FinalPages(pages, base, l, nx), DefinedAt(o, addrs, CHARGE_ID_SYMBOL))
  }

  /** What a successful load at `base` leaves. */
  ghost predicate Loads(prep: Prep, ext: Resolver, nx: bool, base: nat, mem: Memory, pages: PageTable,
                        id: u32, entry: u64, mem': Memory, pages': PageTable)
    requires |prep.l.ends| == 3
  {
    exists linked, addrs ::
      && Links(prep, ext, base, mem, addrs, linked)
      && Finishes(prep.o, prep.l, nx, base, addrs, linked, Mapped(pages, base, prep.l.size, nx), id, entry, mem',
                  pages')
  }

  /** The charge id, if the module has one, lies in the writable group. */
  ghost predicate StampInData(o: Object, l: Layout)
    requires |l.ends| == 3
  {
    match FirstDefined(o, CHARGE_ID_SYMBOL, 0)
    case None => true
    case Some(i) =>
      var s := o.symbols[i];
      s.shndx in l.at ==>
        StartOf(l.ends, GROUP_DATA) <= l.at[s.shndx] + s.value && l.at[s.shndx] + s.value + 4 <= l.size
  }

  /** Objects as a compiler makes them: alignments 0 or powers of two, relocations inside their
      sections and apart, the charge id in the data group. */
  ghost predicate WellFormedObject(o: Object) {
    LayOut(o).Ok? ==> GoodAligns(o.sections) && WellFormed(o, LayOut(o).value) && StampInData(o, LayOut(o).value)
  }

  /** A sound layout, with relocations inside their sections and apart, and room for them in the GOT. */
  ghost predicate Good(o: Object, l: Layout, sites: seq<Site>) {
    && |l.ends| == 3 && (exists slots :: Sound(o, l, slots) && GotBefore(sites, |sites|) <= slots)
    && GoodSites(o, l.at, sites) && StampInData(o, l)
  }

  lemma {:induction false} WellFormedIsGood(o: Object)
    requires WellFormedObject(o) && LayOut(o).Ok?
    ensures Good(o, LayOut(o).value, Sites(o, LayOut(o).value))
  {
    LayoutIsSound(o);
    WellFormedSites(o, LayOut(o).value);
    GotSlotsSuffice(o, LayOut(o).value.at, |o.relaSections|);
  }

  /** What becomes of mapping and linking a well-formed object at `base`: the symbols' addresses, or the
      first thing in the way. */
  function LinkOutcome(prep: Prep, ext: Resolver, base: nat, pages: PageTable,
                       answer: nat -> Answer): Result<map<nat, u64>>
  {
    match MapOutcome(pages, base / PAGE_SIZE, prep.l.size / PAGE_SIZE, answer)
    case Stopped(why) => Stopped(why)
    case Ok(_) =>
      match prep.plan(base, ext)
      case Stopped(why) => Stopped(why)
      case Ok(plan) => Ok(plan.addrs)
  }

  /** What becomes of it up to the address of `module_init`. */
  function LoadedOutcome(prep: Prep, ext: Resolver, base: nat, pages: PageTable, answer: nat -> Answer): Result<u64> {
    match LinkOutcome(prep, ext, base, pages, answer)
    case Stopped(why) => Stopped(why)
    case Ok(addrs) =>
      match DefinedAt(prep.o, addrs, INIT_SYMBOL)
      case None => Fail(MissingEntryPoint)
      case Some(entry) => Ok(entry)
  }

  /** What becomes of loading a well-formed object when the next region would start at `base`: the address
      of `module_init`, or the first thing in the way. */
  function LoadOutcome(prep: Prep, ext: Resolver, base: nat, pages: PageTable, answer: nat -> Answer): Result<u64> {
    if base + prep.l.size > MODULE_REGION_CEILING then Fail(RegionExhausted)
    else LoadedOutcome(prep, ext, base, pages, answer)
  }

  lemma {:induction false} LayoutSize(o: Object)
    ensures LayOut(o).Ok? ==> LayOut(o).value.size % PAGE_SIZE == 0 && LayOut(o).value.size < TWO_64
  {
    if LayOut(o).Ok? {
      PageAlignUp(Passes(o, 3).value.cursor.end);
    }
  }

  /** Freshly mapped pages take every store inside them. */
  lemma {:induction false} RegionWritable(pages: PageTable, base: nat, size: nat, nx: bool, a: nat, n: nat)
    requires base % PAGE_SIZE == 0 && size % PAGE_SIZE == 0
    requires base <= a && a + n <= base + size
    ensures Writable(Mapped(pages, base, size, nx), a, n)
  {
    var first, count := base / PAGE_SIZE, size / PAGE_SIZE;
    if n > 0 {
      forall p | a / PAGE_SIZE <= p <= (a + n - 1) / PAGE_SIZE
        ensures TakesStores(Mapped(pages, base, size, nx), p)
      {
        SetPagesAt(pages, first, count, Flags(true, nx), p);
      }
    }
  }

  predicate SiteInRegion(l: Layout, sites: seq<Site>, k: nat)
    requires k < |sites|
  {
    && sites[k].target + sites[k].reloc.offset + Width(sites[k].reloc.kind) <= l.size
    && (sites[k].reloc.kind == R_X86_64_GOTPCREL ==> l.gotBase + 8 * GotBefore(sites, k) + 8 <= l.size)
  }

  /** Every store of the link falls inside the region. */
  ghost predicate StoresInRegion(o: Object, l: Layout, sites: seq<Site>) {
    && (forall i :: i in l.at && i < |o.sections| ==> l.at[i] + o.sections[i].size <= l.size)
    && (forall k :: 0 <= k < |sites| ==> SiteInRegion(l, sites, k))
  }

  lemma {:induction false} SoundSiteInRegion(o: Object, l: Layout, slots: nat, sites: seq<Site>, k: nat)
    requires Sound(o, l, slots) && GoodSites(o, l.at, sites) && k < |sites| && GotBefore(sites, |sites|) <= slots
    ensures SiteInRegion(l, sites, k)
  {
    SectionInRegion(o, l, slots, sites[k].section);
    assert PlacedSite(l.at, sites[k]) && InSection(o, sites[k]);
    SiteFits(l, sites, k, slots, o.sections[sites[k].section].size);
  }

  lemma {:induction false} SiteFits(l: Layout, sites: seq<Site>, k: nat, slots: nat, sectionSize: nat)
    requires k < |sites| && GotBefore(sites, |sites|) <= slots && l.gotBase + 8 * slots <= l.size
    requires sites[k].target + sectionSize <= l.size
             && sites[k].reloc.offset + Width(sites[k].reloc.kind) <= sectionSize
    ensures SiteInRegion(l, sites, k)
  {
    GotBeforeMonotone(sites, k + 1, |sites|);
  }

  lemma {:induction false} GoodStoresInRegion(o: Object, l: Layout, sites: seq<Site>)
    requires Good(o, l, sites)
    ensures StoresInRegion(o, l, sites) && l.size % PAGE_SIZE == 0
  {
    var slots :| Sound(o, l, slots) && GotBefore(sites, |sites|) <= slots;
    forall i | i in l.at && i < |o.sections|
      ensures l.at[i] + o.sections[i].size <= l.size
    {
      SectionInRegion(o, l, slots, i);
    }
    forall k | 0 <= k < |sites|
      ensures SiteInRegion(l, sites, k)
    {
      SoundSiteInRegion(o, l, slots, sites, k);
    }
  }

  lemma {:induction false} LinkNeverFaults(o: Object, l: Layout, sites: seq<Site>, base: nat, pages: PageTable,
                                           nx: bool)
    requires StoresInRegion(o, l, sites) && l.size % PAGE_SIZE == 0 && base % PAGE_SIZE == 0
    ensures !LinkFaults(Faulting(Mapped(pages, base, l.size, nx)), o, l, sites, base)
  {
    var faults, got := Faulting(Mapped(pages, base, l.size, nx)), base + l.gotBase;
    forall i | i in l.at && i < |o.sections|
      ensures !faults(base + l.at[i], o.sections[i].size)
    {
      RegionWritable(pages, base, l.size, nx, base + l.at[i], o.sections[i].size);
    }
    forall k | 0 <= k < |sites|
      ensures !SiteFaults(faults, got, base, sites, k)
    {
      SiteNeverFaults(l, base, pages, nx, sites, k);
    }
  }

  lemma {:induction false} SiteNeverFaults(l: Layout, base: nat, pages: PageTable, nx: bool, sites: seq<Site>, k: nat)
    requires k < |sites| && SiteInRegion(l, sites, k) && l.size % PAGE_SIZE == 0 && base % PAGE_SIZE == 0
    ensures !SiteFaults(Faulting(Mapped(pages, base, l.size, nx)), base + l.gotBase, base, sites, k)
  {
    RegionWritable(pages, base, l.size, nx, SiteAddr(base, sites[k]), Width(sites[k].reloc.kind));
    if sites[k].reloc.kind == R_X86_64_GOTPCREL {
      RegionWritable(pages, base, l.size, nx, base + l.gotBase + 8 * GotBefore(sites, k), 8);
    }
  }

  lemma {:induction false} WholeRegionMapped(o: Object, l: Layout, sites: seq<Site>, base: nat, pages: PageTable,
                                             nx: bool)
    requires Good(o, l, sites) && base % PAGE_SIZE == 0 && base + l.size <= MODULE_REGION_CEILING
    ensures Protectable(Mapped(pages, base, l.size, nx), base, l)
  {
    var slots :| Sound(o, l, slots);
    GroupEnds(l.ends, l.gotBase);
    var first, count := base / PAGE_SIZE, l.size / PAGE_SIZE;
    forall p | InRange(p, first, PageCeil(l.ends[1]) / PAGE_SIZE)
      ensures Mapped(pages, base, l.size, nx).Get(p).Some?
    {
      SetPagesAt(pages, first, count, Flags(true, nx), p);
    }
  }

  /** A defined symbol's address is its section's plus its value; others have none. */
  ghost predicate SymbolsAt(o: Object, at: map<nat, nat>, base: nat, n: nat, addrs: map<nat, u64>) {
    n <= |o.symbols| && forall i ::
      && (i in addrs <==> 0 <= i < n && o.symbols[i].shndx != SHN_UNDEF && o.symbols[i].shndx in at)
      && (i in addrs ==> addrs[i] == base + at[o.symbols[i].shndx] + o.symbols[i].value)
  }

  lemma {:induction false} SymbolStepAt(o: Object, at: map<nat, nat>, base: nat, n: nat, addrs: map<nat, u64>)
    requires n < |o.symbols| && SymbolsAt(o, at, base, n, addrs) && SymbolStep(o, at, base, n, addrs).Ok?
    ensures SymbolsAt(o, at, base, n + 1, SymbolStep(o, at, base, n, addrs).value)
  {
  }

  lemma {:induction false} SymbolAddrsAt(o: Object, at: map<nat, nat>, base: nat, n: nat)
    requires n <= |o.symbols| && Fold(SymbolLoop(o, at, base), n, map[]).Ok?
    ensures SymbolsAt(o, at, base, n, Fold(SymbolLoop(o, at, base), n, map[]).value)
  {
    if n > 0 {
      SymbolAddrsAt(o, at, base, n - 1);
      SymbolStepAt(o, at, base, n - 1, Fold(SymbolLoop(o, at, base), n - 1, map[]).value);
    }
  }

  /** The data group's pages keep their permissions. */
  lemma {:induction false} DataPagesKept(pages: PageTable, base: nat, l: Layout, nx: bool, p: nat)
    requires |l.ends| == 3 && base % PAGE_SIZE == 0 && p >= base / PAGE_SIZE + PageCeil(l.ends[1]) / PAGE_SIZE
    requires PageCeil(l.ends[0]) <= PageCeil(l.ends[1])
    ensures FinalPages(pages, base, l, nx).Get(p) == pages.Get(p)
  {
    var first, text, rodata := base / PAGE_SIZE, PageCeil(l.ends[0]) / PAGE_SIZE, PageCeil(l.ends[1]) / PAGE_SIZE;
    SetPagesAt(pages, first, text, Flags(false, false), p);
    SetPagesAt(SetPages(pages, first, text, Flags(false, false)), first + text, rodata - text, Flags(false, nx), p);
  }

  lemma {:induction false} DataWritable(o: Object, l: Layout, slots: nat, base: nat, pages: PageTable, nx: bool, a: nat,
                                        n: nat)
    requires Sound(o, l, slots) && base % PAGE_SIZE == 0
    requires base + StartOf(l.ends, GROUP_DATA) <= a && a + n <= base + l.size
    ensures Writable(FinalPages(Mapped(pages, base, l.size, nx), base, l, nx), a, n)
  {
    var mapped := Mapped(pages, base, l.size, nx);
    RegionWritable(pages, base, l.size, nx, a, n);
    GroupEnds(l.ends, l.gotBase);
    if n > 0 {
      forall p | a / PAGE_SIZE <= p <= (a + n - 1) / PAGE_SIZE
        ensures TakesStores(FinalPages(mapped, base, l, nx), p)
      {
        DataPagesKept(mapped, base, l, nx, p);
        assert TakesStores(mapped, p);
      }
    }
  }

  lemma {:induction false} StampNeverFaults(o: Object, l: Layout, sites: seq<Site>, base: nat, pages: PageTable,
                                            nx: bool, addrs: map<nat, u64>)
    requires Good(o, l, sites) && base % PAGE_SIZE == 0 && SymbolAddrs(o, l.at, base) == Ok(addrs)
    ensures StampWritable(FinalPages(Mapped(pages, base, l.size, nx), base, l, nx),
                          DefinedAt(o, addrs, CHARGE_ID_SYMBOL))
  {
    SymbolAddrsAt(o, l.at, base, |o.symbols|);
    var stamp := DefinedAt(o, addrs, CHARGE_ID_SYMBOL);
    if stamp.Some? {
      var slots :| Sound(o, l, slots);
      DataWritable(o, l, slots, base, pages, nx, stamp.value, 4);
    }
  }

  lemma {:induction false} PlanAddrs(prep: Prep, ext: Resolver, base: nat)
    requires Planned(prep) && prep.plan(base, ext).Ok?
    ensures SymbolAddrs(prep.o, prep.l.at, base) == Ok(prep.plan(base, ext).value.addrs)
  {
    assert prep.plan(base, ext) == MakePlan(prep.o, prep.l, prep.sites, base, ext);
  }

  lemma {:induction false} WillFinish(prep: Prep, ext: Resolver, base: nat, pages: PageTable, nx: bool,
                                      addrs: map<nat, u64>)
    requires Planned(prep) && Good(prep.o, prep.l, prep.sites) && prep.plan(base, ext).Ok?
    requires addrs == prep.plan(base, ext).value.addrs
    requires base % PAGE_SIZE == 0 && base + prep.l.size <= MODULE_REGION_CEILING
    ensures Finishable(prep.o, prep.l, nx, base, addrs, Mapped(pages, base, prep.l.size, nx))
  {
    PlanAddrs(prep, ext, base);
    WholeRegionMapped(prep.o, prep.l, prep.sites, base, pages, nx);
    StampNeverFaults(prep.o, prep.l, prep.sites, base, pages, nx, addrs);
  }

  /** The address of the module's own symbol `name`, if it defines it in a placed section. */
  function DefinedAt(o: Object, addrs: map<nat, u64>, name: seq<byte>): Option<u64> {
    match FirstDefined(o, name, 0)
    case None => None
    case Some(i) => if i in addrs then Some(addrs[i]) else None
  }

  method FindAddress(o: Object, addrs: map<nat, u64>, name: seq<byte>) returns (r: Option<u64>)
    ensures r == DefinedAt(o, addrs, name)
  {
    var i := FindDefinedSymbol(o, name);
    return if i.Some? && i.value in addrs then Some(addrs[i.value]) else None;
  }

  function Stamp(m: Memory, stamp: Option<u64>, id: u32): Memory {
    match stamp
    case None => m
    case Some(a) => Store(m, Write(a, LeBytes(id, 4)))
  }

  predicate StampWritable(pages: PageTable, stamp: Option<u64>) {
    stamp.Some? ==> Writable(pages, stamp.value, 4)
  }

  /** The table once the first two groups are lowered: no stores to either, and no execution of the second. */
  function FinalPages(pages: PageTable, base: nat, l: Layout, nx: bool): PageTable
    requires |l.ends| == 3
  {
    var first, text, rodata := base / PAGE_SIZE, PageCeil(l.ends[0]) / PAGE_SIZE, PageCeil(l.ends[1]) / PAGE_SIZE;
    SetPages(SetPages(pages, first, text, Flags(false, false)),
             first + text, if rodata >= text then rodata - text else 0, Flags(false, nx))
  }

  ghost predicate Protectable(pages: PageTable, base: nat, l: Layout)
    requires |l.ends| == 3
  {
    && PageCeil(l.ends[0]) <= PageCeil(l.ends[1]) && base + PageCeil(l.ends[1]) < TWO_64
    && l.ends[0] + PAGE_SIZE < TWO_64 && l.ends[1] + PAGE_SIZE < TWO_64
    && AllMapped(pages, base / PAGE_SIZE, PageCeil(l.ends[1]) / PAGE_SIZE)
  }

  /** Pages mapped for both parts are mapped for each, and the second is no less so after the first. */
  lemma {:induction false} PartsMapped(pages: PageTable, base: nat, text: nat, rodata: nat, flags: Flags)
    requires base % PAGE_SIZE == 0 && text % PAGE_SIZE == 0 && rodata % PAGE_SIZE == 0
    ensures (base + text) / PAGE_SIZE == base / PAGE_SIZE + text / PAGE_SIZE
    ensures text <= rodata && AllMapped(pages, base / PAGE_SIZE, rodata / PAGE_SIZE) ==>
              && AllMapped(pages, base / PAGE_SIZE, text / PAGE_SIZE)
              && AllMapped(SetPages(pages, base / PAGE_SIZE, text / PAGE_SIZE, flags),
                           (base + text) / PAGE_SIZE, (rodata - text) / PAGE_SIZE)
  {
    if text <= rodata && AllMapped(pages, base / PAGE_SIZE, rodata / PAGE_SIZE) {
      SetPagesKeepsDomain(pages, base / PAGE_SIZE, text / PAGE_SIZE, flags);
    }
  }

  /** What setting pages one by one, after `history`, adds to it. */
  lemma {:induction false} TablesStayClean(pages: PageTable, first: nat, n: nat, flags: Flags, history: seq<PageTable>)
    ensures !flags.writable || flags.noExecute ==>
              StaysClean(pages, SetPages(pages, first, n, flags), history + Tables(pages, first, n, flags), |history|)
  {
    if !flags.writable || flags.noExecute {
      TablesKeepClean(pages, first, n, flags);
      var tables := Tables(pages, first, n, flags);
      assert forall k :: 0 <= k < |tables| ==> (history + tables)[|history| + k] == tables[k];
    }
  }

  lemma {:induction false} NextSlot(c: Link, sites: seq<Site>, n: nat, q: Progress)
    requires c.patch == Patching(c.base, c.resolve) && n <= |sites| && Run(c, sites, n) == Ok(q)
    ensures q.nextSlot == SlotAddr(c, sites, n)
  {
    LinkIsShaped(c);
    PrefixFits(c, sites, n, q);
  }

  lemma {:induction false} RunOn(c: Link, sites: seq<Site>, n: nat, q: Progress)
    requires n < |sites| && Run(c, sites, n) == Ok(q)
    ensures match c.patch(sites[n], q.nextSlot)
            case Stopped(why) => Run(c, sites, |sites|) == Stopped(why)
            case Ok(patch) =>
              Run(c, sites, n + 1) == Ok(Progress(q.patches + [patch], q.nextSlot + if patch.ViaGot? then 8 else 0))
  {
    if c.patch(sites[n], q.nextSlot).Stopped? {
      FoldStop(RelocLoop(c, sites), n + 1, |sites|, Progress([], c.base + c.gotBase));
    }
  }

  /** The relocation loop's state after `n` sites. */
  function Run(c: Link, sites: seq<Site>, n: nat): Result<Progress> {
    Fold(RelocLoop(c, sites), n, Progress([], c.base + c.gotBase))
  }

  /** Whether a store of `n` bytes at `a` hits a page that isn't writable. */
  function Faulting(pages: PageTable): (nat, nat) -> bool {
    (a: nat, n: nat) => !Writable(pages, a, n)
  }

  predicate SiteFaults(faults: (nat, nat) -> bool, got: nat, base: nat, sites: seq<Site>, k: nat)
    requires k < |sites|
  {
    || faults(SiteAddr(base, sites[k]), Width(sites[k].reloc.kind))
    || (sites[k].reloc.kind == R_X86_64_GOTPCREL && faults(got + 8 * GotBefore(sites, k), 8))
  }

  ghost predicate AnySiteFaults(faults: (nat, nat) -> bool, got: nat, base: nat, sites: seq<Site>) {
    exists k :: 0 <= k < |sites| && SiteFaults(faults, got, base, sites, k)
  }

  ghost predicate AnyCopyFaults(faults: (nat, nat) -> bool, o: Object, at: map<nat, nat>, base: nat) {
    exists i :: i in at && i < |o.sections| && faults(base + at[i], o.sections[i].size)
  }

  /** Some store of the link would fault. */
  ghost predicate LinkFaults(faults: (nat, nat) -> bool, o: Object, l: Layout, sites: seq<Site>, base: nat) {
    || AnyCopyFaults(faults, o, l.at, base)
    || AnySiteFaults(faults, base + l.gotBase, base, sites)
  }

  // ---- The loader ----

  class Kernel {
    const nx: bool
    var mem: Memory
    var pages: PageTable
    var nextModulePage: nat
    var modules: seq<LoadedModule>
    /** The page table at boot, and every one since, in order. */
    ghost const boot: PageTable
    ghost var history: seq<PageTable>

    constructor (nx: bool, mem: Memory, pages: PageTable)
      ensures this.nx == nx && this.mem == mem && this.pages == pages && boot == pages && modules == [] && history == []
      ensures Valid()
    {
      this.nx, this.mem, this.pages, boot := nx, mem, pages, pages;
      nextModulePage, modules, history := MODULE_VA_BASE, [], [];
    }

    /** Between loads. On a processor with NX, no page there has been both writable and executable in any page
        table there has ever been, unless it was at boot. */
    ghost predicate Valid()
      reads this
    {
      && nextModulePage % PAGE_SIZE == 0 && MODULE_VA_BASE <= nextModulePage <= MODULE_REGION_CEILING
      && (nx ==> StaysClean(boot, pages, history, 0))
    }

    function DataFlags(): Flags {
      Flags(true, nx)
    }

    method SetPage(p: nat, flags: Flags)
      modifies this`pages, this`history
      ensures pages == old(pages).Set(p, flags) && history == old(history) + [pages]
    {
      pages := pages.Set(p, flags);
      history := history + [pages];
    }

    /** A store through the current page table: it faults unless every page it touches is writable. */
    method StoreBytes(w: Write) returns (ok: bool)
      modifies this`mem
      ensures ok == Writable(pages, w.addr, |w.bytes|)
      ensures mem == if ok then Store(old(mem), w) else old(mem)
    {
      ok := Writable(pages, w.addr, |w.bytes|);
      if ok {
        mem := Store(mem, w);
      }
    }

    /** `allocate_region`. */
    method AllocateRegion(size: nat) returns (r: Result<nat>)
      modifies this`nextModulePage
      ensures r == if old(nextModulePage) + size > MODULE_REGION_CEILING then Fail(RegionExhausted)
                   else Ok(old(nextModulePage))
      ensures nextModulePage == if r.Ok? then old(nextModulePage) + size else old(nextModulePage)
    {
      var end := nextModulePage + size;
      if end > MODULE_REGION_CEILING {
        return Fail(RegionExhausted);
      }
      r := Ok(nextModulePage);
      nextModulePage := end;
    }

    /** One turn of `map_region`: a new page, writable and not executable, zeroed. */
    method MapPage(page: nat, answer: Answer) returns (r: Result<()>)
      modifies this`mem, this`pages, this`history
      ensures r == if answer == NoFrame then Fail(OutOfMemory)
                   else if old(pages).Get(page).Some? || answer == NoTable then Fail(MappingFailed)
                   else Ok(())
      ensures r.Ok? ==> mem == Store(old(mem), ZeroPage(page))
      ensures r.Ok? ==> pages == old(pages).Set(page, DataFlags()) && history == old(history) + [pages]
      ensures r.Stopped? ==> mem == old(mem) && pages == old(pages) && history == old(history)
    {
      if answer == NoFrame {
        return Fail(OutOfMemory);
      }
      if pages.Get(page).Some? || answer == NoTable {
        return Fail(MappingFailed);
      }
      SetPage(page, DataFlags());
      mem := Store(mem, ZeroPage(page));
      return Ok(());
    }

    /** `k` pages mapped and zeroed since memory, pages and history were as given. */
    ghost predicate MappedSoFar(m: Memory, p: PageTable, h: seq<PageTable>, first: nat, k: nat)
      reads this
    {
      && mem == ZeroRegion(m, first, k) && pages == SetPages(p, first, k, DataFlags())
      && history == h + Tables(p, first, k, DataFlags())
    }

    method MapNext(ghost m: Memory, ghost p: PageTable, ghost h: seq<PageTable>, first: nat, k: nat,
                   answer: nat -> Answer)
      returns (r: Result<()>)
      requires MappedSoFar(m, p, h, first, k)
      modifies this`mem, this`pages, this`history
      ensures MappedSoFar(m, p, h, first, if r.Ok? then k + 1 else k)
      ensures r == PageOutcome(p, first + k, answer)
    {
      SetPagesAt(p, first, k, DataFlags(), first + k);
      r := MapPage(first + k, answer(first + k));
    }

    /** `map_region`: it maps pages in order and stops at the first that can't be had. */
    method MapRegion(base: nat, size: nat, answer: nat -> Answer) returns (r: Result<()>, ghost done: nat)
      requires base % PAGE_SIZE == 0 && size % PAGE_SIZE == 0
      modifies this`mem, this`pages, this`history
      ensures done <= size / PAGE_SIZE
      ensures mem == ZeroRegion(old(mem), base / PAGE_SIZE, done)
      ensures pages == SetPages(old(pages), base / PAGE_SIZE, done, DataFlags())
      ensures history == old(history) + Tables(old(pages), base / PAGE_SIZE, done, DataFlags())
      ensures r.Ok? <==> done == size / PAGE_SIZE
      ensures r == MapOutcome(old(pages), base / PAGE_SIZE, size / PAGE_SIZE, answer)
    {
      var first, n := base / PAGE_SIZE, size / PAGE_SIZE;
      done := 0;
      for k := 0 to n
        invariant done == k && MappedSoFar(old(mem), old(pages), old(history), first, k)
        invariant MapOutcome(old(pages), first, k, answer) == Ok(())
      {
        MapOutcomeNext(old(pages), first, k, n, answer);
        var mapped := MapNext(old(mem), old(pages), old(history), first, k, answer);
        if mapped.Stopped? {
          return Stopped(mapped.why), k;
        }
        done := k + 1;
      }
      r := Ok(());
    }

    /** `protect_region`: it changes pages in order and stops at the first that isn't mapped. */
    method ProtectRegion(base: nat, size: nat, flags: Flags) returns (r: Result<()>, ghost done: nat)
      requires base % PAGE_SIZE == 0 && size % PAGE_SIZE == 0
      modifies this`pages, this`history
      ensures done <= size / PAGE_SIZE && AllMapped(old(pages), base / PAGE_SIZE, done)
      ensures pages == SetPages(old(pages), base / PAGE_SIZE, done, flags)
      ensures history == old(history) + Tables(old(pages), base / PAGE_SIZE, done, flags)
      ensures r.Ok? <==> done == size / PAGE_SIZE
      ensures r.Stopped? ==> r == Fail(MappingFailed) && old(pages).Get(base / PAGE_SIZE + done).None?
    {
      var first, n := base / PAGE_SIZE, size / PAGE_SIZE;
      done := 0;
      for k := 0 to n
        invariant done == k && AllMapped(old(pages), first, k) && pages == SetPages(old(pages), first, k, flags)
        invariant history == old(history) + Tables(old(pages), first, k, flags)
      {
        SetPagesAt(old(pages), first, k, flags, first + k);
        if pages.Get(first + k).None? {
          return Fail(MappingFailed), k;
        }
        SetPage(first + k, flags);
        done := k + 1;
      }
      r := Ok(());
    }

    /** One turn of the copy loop, on section `i`. */
    method CopyNext(o: Object, at: map<nat, nat>, base: nat, i: nat, ghost m: Memory, ghost ws: seq<Write>)
      returns (r: Result<()>, ghost ws': seq<Write>)
      requires i < |o.sections| && mem == StoreAll(m, ws)
      modifies this`mem
      ensures r.Ok? ==> CopyStep(o, at, base, i, ws) == Ok(ws') && mem == StoreAll(m, ws')
      ensures r.Stopped? && r.why != PageFault ==> CopyStep(o, at, base, i, ws) == Stopped(r.why)
      ensures r == Stopped(PageFault) ==> i in at && !Writable(pages, base + at[i], o.sections[i].size)
    {
      ws' := ws;
      var s := o.sections[i];
      if i !in at || s.shType == SHT_NOBITS {
        return Ok(()), ws;
      }
      var src := Slice(o.bytes, s.offset, s.size);
      if src.Stopped? || base + at[i] >= TWO_64 {
        return Stopped(if src.Stopped? then src.why else Panic), ws;
      }
      var w := Write(base + at[i], src.value);
      StoreAllSnoc(m, ws, w);
      var ok := StoreBytes(w);
      if !ok {
        return Stopped(PageFault), ws;
      }
      return Ok(()), ws + [w];
    }

    /** Pass 2 of `load`: the placed sections' bytes. */
    method CopySections(o: Object, at: map<nat, nat>, base: nat) returns (r: Result<()>)
      modifies this`mem
      ensures r.Ok? ==> Copies(o, at, base).Ok? && mem == StoreAll(old(mem), Copies(o, at, base).value)
      ensures r.Stopped? && r.why != PageFault ==> Copies(o, at, base) == Stopped(r.why)
      ensures r == Stopped(PageFault) ==> AnyCopyFaults(Faulting(pages), o, at, base)
    {
      ghost var ws := [];
      for i := 0 to |o.sections|
        invariant Fold(CopyLoop(o, at, base), i, []) == Ok(ws) && mem == StoreAll(old(mem), ws)
      {
        var next, ws' := CopyNext(o, at, base, i, old(mem), ws);
        if next.Stopped? {
          if next.why != PageFault {
            FoldStop(CopyLoop(o, at, base), i + 1, |o.sections|, []);
          } else {
            assert Faulting(pages)(base + at[i], o.sections[i].size);
          }
          return next;
        }
        ws := ws';
      }
      return Ok(());
    }

    /** `apply_relocation`. */
    method ApplyRelocation(site: u64, kind: u32, symbolAddr: u64, addend: i64) returns (r: Result<()>)
      modifies this`mem
      ensures var field := RelocBytes(site, kind, symbolAddr, addend);
              if field.Stopped? then r == Stopped(field.why) && mem == old(mem)
              else if Writable(pages, site, |field.value|) then
                r == Ok(()) && mem == Store(old(mem), Write(site, field.value))
              else r == Stopped(PageFault) && mem == old(mem)
    {
      var field :- RelocBytes(site, kind, symbolAddr, addend);
      var ok := StoreBytes(Write(site, field));
      return if ok then Ok(()) else Stopped(PageFault);
    }

    /** One relocation: the body of the relocation loop. */
    method RelocateOne(c: Link, s: Site, slot: nat) returns (r: Result<Patch>)
      modifies this`mem
      ensures r.Ok? ==> SitePatch(c.base, c.resolve, s, slot) == r && mem == Apply(old(mem), r.value)
      ensures r.Stopped? && r.why != PageFault ==> SitePatch(c.base, c.resolve, s, slot) == r
      ensures r == Stopped(PageFault) ==>
                || !Writable(pages, SiteAddr(c.base, s), Width(s.reloc.kind))
                || (s.reloc.kind == R_X86_64_GOTPCREL && !Writable(pages, slot, 8))
    {
      var found := c.resolve(s.reloc.symbol);
      if found.None? {
        return Fail(UnresolvedSymbol);
      }
      var resolved := found.value;
      var site := c.base + s.target + s.reloc.offset;
      if site >= TWO_64 {
        return Stopped(Panic);
      }
      if s.reloc.kind == R_X86_64_GOTPCREL {
        if slot + 8 >= TWO_64 {
          return Stopped(Panic);
        }
        var entry := Write(slot, LeBytes(resolved, 8));
        var ok := StoreBytes(entry);
        if !ok {
          return Stopped(PageFault);
        }
        var applied := ApplyRelocation(site, R_X86_64_PC32, slot, s.reloc.addend);
        if applied.Stopped? {
          return Stopped(applied.why);
        }
        return Ok(ViaGot(entry, Write(site, RelocBytes(site, R_X86_64_PC32, slot, s.reloc.addend).value)));
      } else {
        var applied := ApplyRelocation(site, s.reloc.kind, resolved, s.reloc.addend);
        if applied.Stopped? {
          return Stopped(applied.why);
        }
        return Ok(Direct(Write(site, RelocBytes(site, s.reloc.kind, resolved, s.reloc.addend).value)));
      }
    }

    /** One turn of the relocation loop, on site `n`. */
    method RelocateNext(c: Link, sites: seq<Site>, n: nat, q: Progress, ghost start: Memory)
      returns (r: Result<Progress>)
      requires c.patch == Patching(c.base, c.resolve)
      requires n < |sites| && Run(c, sites, n) == Ok(q) && mem == ApplyAll(start, q.patches)
      modifies this`mem
      ensures r.Ok? ==> Run(c, sites, n + 1) == r && mem == ApplyAll(start, r.value.patches)
      ensures r.Stopped? && r.why != PageFault ==> Run(c, sites, |sites|) == r
      ensures r == Stopped(PageFault) ==> SiteFaults(Faulting(pages), c.base + c.gotBase, c.base, sites, n)
    {
      NextSlot(c, sites, n, q);
      RunOn(c, sites, n, q);
      var patch := RelocateOne(c, sites[n], q.nextSlot);
      if patch.Stopped? {
        return Stopped(patch.why);
      }
      ApplyAllSnoc(start, q.patches, patch.value);
      return Ok(Progress(q.patches + [patch.value], q.nextSlot + if patch.value.ViaGot? then 8 else 0));
    }

    /** The relocation loop of `load`, over the sites of the placed sections in order. */
    method RelocateSections(c: Link, sites: seq<Site>) returns (r: Result<()>)
      requires c.patch == Patching(c.base, c.resolve)
      modifies this`mem
      ensures r.Ok? ==> Relocate(c, sites).Ok? && mem == ApplyAll(old(mem), Relocate(c, sites).value.patches)
      ensures r.Stopped? && r.why != PageFault ==> Relocate(c, sites) == Stopped(r.why)
      ensures r == Stopped(PageFault) ==> AnySiteFaults(Faulting(pages), c.base + c.gotBase, c.base, sites)
    {
      if c.base + c.gotBase >= TWO_64 {
        return Stopped(Panic);
      }
      var p := Progress([], c.base + c.gotBase);
      for n := 0 to |sites|
        invariant Run(c, sites, n) == Ok(p) && mem == ApplyAll(old(mem), p.patches)
      {
        var next := RelocateNext(c, sites, n, p, old(mem));
        if next.Stopped? {
          return Stopped(next.why);
        }
        p := next.value;
      }
      return Ok(());
    }

    /** The symbol loop of `load`. */
    method SymbolAddresses(o: Object, at: map<nat, nat>, base: nat) returns (r: Result<map<nat, u64>>)
      ensures r == SymbolAddrs(o, at, base) && (r.Stopped? ==> r.why == Panic)
    {
      var addrs: map<nat, u64> := map[];
      for i := 0 to |o.symbols|
        invariant Fold(SymbolLoop(o, at, base), i, map[]) == Ok(addrs)
      {
        var s := o.symbols[i];
        if s.shndx == SHN_UNDEF || s.shndx !in at {
          continue;
        }
        if base + at[s.shndx] + s.value >= TWO_64 {
          FoldStop(SymbolLoop(o, at, base), i + 1, |o.symbols|, map[]);
          return Stopped(Panic);
        }
        addrs := addrs[i := base + at[s.shndx] + s.value];
      }
      return Ok(addrs);
    }

    /** Copies the sections, resolves the symbols and applies the relocations. */
    method LinkInto(o: Object, l: Layout, sites: seq<Site>, base: nat, ext: Resolver) returns (r: Result<map<nat, u64>>)
      modifies this`mem
      ensures r.Ok? ==> MakePlan(o, l, sites, base, ext).Ok? && r.value == MakePlan(o, l, sites, base, ext).value.addrs
      ensures r.Ok? ==> var plan := MakePlan(o, l, sites, base, ext).value;
                        mem == ApplyAll(StoreAll(old(mem), plan.copies), plan.patches)
      ensures r.Stopped? && r.why != PageFault ==> MakePlan(o, l, sites, base, ext) == Stopped(r.why)
      ensures r == Stopped(PageFault) ==> LinkFaults(Faulting(pages), o, l, sites, base)
    {
      var copied := CopySections(o, l.at, base);
      if copied.Stopped? {
        return Stopped(copied.why);
      }
      var symbols := SymbolAddresses(o, l.at, base);
      var addrs :- symbols;
      var c := MakeLink(o, base, l.gotBase, Resolving(o, addrs, ext));
      var relocated := RelocateSections(c, sites);
      if relocated.Stopped? {
        return Stopped(relocated.why);
      }
      return Ok(addrs);
    }

    /** Gives the part of the region from offset `from` to offset `to` its final permissions. */
    method ProtectPart(base: nat, from: nat, to: nat, flags: Flags) returns (r: Result<()>)
      requires base % PAGE_SIZE == 0 && from % PAGE_SIZE == 0 && to % PAGE_SIZE == 0 && !flags.writable
      modifies this`pages, this`history
      ensures r.Ok? ==>
                from <= to && pages == SetPages(old(pages), (base + from) / PAGE_SIZE, (to - from) / PAGE_SIZE, flags)
      ensures r.Ok? ==> AllMapped(old(pages), (base + from) / PAGE_SIZE, (to - from) / PAGE_SIZE)
      ensures from <= to && base + to < TWO_64
              && AllMapped(old(pages), (base + from) / PAGE_SIZE, (to - from) / PAGE_SIZE) ==>
                r.Ok?
      ensures r.Stopped? ==> r == Stopped(Panic) || r == Fail(MappingFailed)
      ensures old(history) <= history
      ensures StaysClean(old(pages), pages, history, |old(history)|)
    {
      var size :- CheckedSub(to, from);
      var _ :- CheckedAdd(base, to);
      ghost var done: nat;
      r, done := ProtectRegion(base + from, size, flags);
      TablesStayClean(old(pages), (base + from) / PAGE_SIZE, done, flags, old(history));
    }

    /** The final permissions. */
    method ProtectGroups(l: Layout, base: nat) returns (r: Result<()>)
      requires base % PAGE_SIZE == 0 && |l.ends| == 3
      modifies this`pages, this`history
      ensures r.Ok? ==> pages == FinalPages(old(pages), base, l, nx)
      ensures Protectable(old(pages), base, l) ==> r.Ok?
      ensures r.Stopped? ==> r == Stopped(Panic) || r == Fail(MappingFailed)
      ensures old(history) <= history
      ensures nx ==> StaysClean(old(pages), pages, history, |old(history)|)
    {
      PageAlignUp(l.ends[GROUP_TEXT]);
      PageAlignUp(l.ends[GROUP_RODATA]);
      var textEnd :- AlignUp(l.ends[GROUP_TEXT], PAGE_SIZE);
      var rodataEnd :- AlignUp(l.ends[GROUP_RODATA], PAGE_SIZE);
      PartsMapped(old(pages), base, textEnd, rodataEnd, Flags(false, false));
      r := ProtectPart(base, 0, textEnd, Flags(false, false));
      if r.Stopped? {
        return;
      }
      ghost var between, upToText := pages, history;
      r := ProtectPart(base, textEnd, rodataEnd, Flags(false, nx));
      StaysCleanOn(old(pages), between, upToText, |old(history)|, pages, history);
    }

    /** The module's record, and its charge id stamped at `stamp`. */
    method Record(m: LoadedModule, entry: Option<u64>, stamp: Option<u64>) returns (r: Result<u64>)
      modifies this`mem, this`modules
      ensures modules == if entry.Some? then old(modules) + [m] else old(modules)
      ensures entry.None? ==> r == Fail(MissingEntryPoint) && mem == old(mem)
      ensures entry.Some? ==>
                if StampWritable(pages, stamp) then
                  r == Ok(entry.value) && mem == Stamp(old(mem), stamp, ChargeId(|modules|))
                else r == Stopped(PageFault) && mem == old(mem)
    {
      if entry.None? {
        return Fail(MissingEntryPoint);
      }
      modules := modules + [m];
      if stamp.Some? {
        var ok := StoreBytes(Write(stamp.value, LeBytes(ChargeId(|modules|), 4)));
        if !ok {
          return Stopped(PageFault);
        }
      }
      return Ok(entry.value);
    }

    /** `load` once the region is claimed, up to the last store of the link. */
    method MapAndLink(prep: Prep, base: nat, ext: Resolver, answer: nat -> Answer) returns (r: Result<map<nat, u64>>)
      requires Planned(prep) && prep.l.size % PAGE_SIZE == 0
      requires base % PAGE_SIZE == 0 && base + prep.l.size <= MODULE_REGION_CEILING
      modifies this`mem, this`pages, this`history
      ensures r.Ok? ==>
                Links(prep, ext, base, old(mem), r.value, mem) && pages == Mapped(old(pages), base, prep.l.size, nx)
      ensures old(history) <= history
      ensures nx ==> StaysClean(old(pages), pages, history, |old(history)|)
      ensures Good(prep.o, prep.l, prep.sites) ==>
                r == LinkOutcome(prep, ext, base, old(pages), answer) && r != Stopped(PageFault)
    {
      var mapped, done := MapRegion(base, prep.l.size, answer);
      TablesStayClean(old(pages), base / PAGE_SIZE, done, DataFlags(), old(history));
      if mapped.Stopped? {
        MapOutcomeError(old(pages), base / PAGE_SIZE, prep.l.size / PAGE_SIZE, answer);
        return Stopped(mapped.why);
      }
      r := LinkInto(prep.o, prep.l, prep.sites, base, ext);
      if Good(prep.o, prep.l, prep.sites) {
        GoodStoresInRegion(prep.o, prep.l, prep.sites);
        LinkNeverFaults(prep.o, prep.l, prep.sites, base, old(pages), nx);
      }
    }

    /** The last part of `load`: the final permissions, the entry point, the record and the charge id. */
    method Finish(m: LoadedModule, o: Object, l: Layout, addrs: map<nat, u64>) returns (r: Result<u64>)
      requires m.base % PAGE_SIZE == 0 && |l.ends| == 3
      modifies this`mem, this`pages, this`history, this`modules
      ensures r.Ok? ==>
                Finishes(o, l, nx, m.base, addrs, old(mem), old(pages), ChargeId(|modules|), r.value, mem, pages)
      ensures r.Ok? ==> modules == old(modules) + [m]
      ensures modules == old(modules) || modules == old(modules) + [m]
      ensures r.Stopped? && r.why != PageFault ==> modules == old(modules)
      ensures old(history) <= history
      ensures nx ==> StaysClean(old(pages), pages, history, |old(history)|)
      ensures Finishable(o, l, nx, m.base, addrs, old(pages)) ==>
                r == match DefinedAt(o, addrs, INIT_SYMBOL)
                     case Some(entry) => Ok(entry)
                     case None => Fail(MissingEntryPoint)
    {
      var guarded := ProtectGroups(l, m.base);
      if guarded.Stopped? {
        return Stopped(guarded.why);
      }
      var entry := FindAddress(o, addrs, INIT_SYMBOL);
      var stamp := FindAddress(o, addrs, CHARGE_ID_SYMBOL);
      r := Record(m, entry, stamp);
    }

    /** `load` once its region is claimed, up to the call of `module_init`. */
    method LoadAt(m: LoadedModule, prep: Prep, ext: Resolver, answer: nat -> Answer) returns (r: Result<u64>)
      requires Planned(prep) && |prep.l.ends| == 3 && prep.l.size % PAGE_SIZE == 0
      requires m.base % PAGE_SIZE == 0 && m.base + prep.l.size <= MODULE_REGION_CEILING
      modifies this`mem, this`pages, this`history, this`modules
      ensures r.Ok? ==> Loads(prep, ext, nx, m.base, old(mem), old(pages), ChargeId(|modules|), r.value, mem, pages)
      ensures r.Ok? ==> modules == old(modules) + [m]
      ensures modules == old(modules) || modules == old(modules) + [m]
      ensures r.Stopped? && r.why != PageFault ==> modules == old(modules)
      ensures old(history) <= history
      ensures nx ==> StaysClean(old(pages), pages, history, |old(history)|)
      ensures Good(prep.o, prep.l, prep.sites) ==> r == LoadedOutcome(prep, ext, m.base, old(pages), answer)
      ensures Good(prep.o, prep.l, prep.sites) ==> r != Stopped(PageFault)
    {
      var linked := MapAndLink(prep, m.base, ext, answer);
      var addrs :- linked;
      ghost var between, upToLink := pages, history;
      if Good(prep.o, prep.l, prep.sites) {
        WillFinish(prep, ext, m.base, old(pages), nx, addrs);
      }
      r := Finish(m, prep.o, prep.l, addrs);
      if nx {
        StaysCleanOn(old(pages), between, upToLink, |old(history)|, pages, history);
      }
    }

    /** `load` of a prepared object, up to the call of `module_init`, whose address it returns. */
    method Load(name: string, prep: Prep, ext: Resolver, fatal: bool, answer: nat -> Answer) returns (r: Result<u64>)
      requires Valid() && Planned(prep) && |prep.l.ends| == 3 && prep.l.size % PAGE_SIZE == 0
      modifies this
      ensures Valid()
      ensures r.Ok? ==>
                Loads(prep, ext, nx, old(nextModulePage), old(mem), old(pages), ChargeId(|modules|), r.value, mem,
                      pages)
      ensures r.Ok? ==> nextModulePage == old(nextModulePage) + prep.l.size
      ensures r.Ok? ==> modules == old(modules) + [LoadedModule(name, old(nextModulePage), prep.l.size, fatal)]
      ensures r.Stopped? && r.why != PageFault ==> modules == old(modules)
      ensures modules == old(modules)
              || modules == old(modules) + [LoadedModule(name, old(nextModulePage), prep.l.size, fatal)]
      ensures nextModulePage == if old(nextModulePage) + prep.l.size > MODULE_REGION_CEILING then old(nextModulePage)
                                else old(nextModulePage) + prep.l.size
      ensures modules != old(modules) ==> nextModulePage == old(nextModulePage) + prep.l.size
      ensures old(history) <= history
      ensures nx ==> StaysClean(old(pages), pages, history, |old(history)|)
      ensures Good(prep.o, prep.l, prep.sites) ==> r == LoadOutcome(prep, ext, old(nextModulePage), old(pages), answer)
      ensures Good(prep.o, prep.l, prep.sites) ==> r != Stopped(PageFault)
    {
      var base := nextModulePage;
      var claimed := AllocateRegion(prep.l.size);
      if claimed.Stopped? {
        return Stopped(claimed.why);
      }
      r := LoadAt(LoadedModule(name, base, prep.l.size, fatal), prep, ext, answer);
      if nx {
        StaysCleanOn(boot, old(pages), old(history), 0, pages, history);
      }
    }
  }
}
