/** What a successful load means: the module linked in memory, its pages protected, the rest untouched. */
module LoadTheorem {
  import opened Words
  import opened ElfObject
  import opened ModuleLayout
  import opened LayoutSoundness
  import opened Stores
  import opened LinkPlan
  import opened LinkedImage
  import opened RelocationArithmetic
  import opened ModuleLoader
  import ModuleRegistry

  // ---- Memory ----

  lemma {:induction false} PlanParts(prep: Prep, ext: Resolver, base: nat, plan: Plan)
    requires Planned(prep) && prep.plan(base, ext) == Ok(plan)
    ensures Copies(prep.o, prep.l.at, base) == Ok(plan.copies)
    ensures SymbolAddrs(prep.o, prep.l.at, base) == Ok(plan.addrs)
    ensures var relocated := Relocate(MakeLink(prep.o, base, prep.l.gotBase, Resolving(prep.o, plan.addrs, ext)),
                                      prep.sites);
            relocated.Ok? && relocated.value.patches == plan.patches
  {
    assert prep.plan(base, ext) == MakePlan(prep.o, prep.l, prep.sites, base, ext);
  }

  lemma {:induction false} PreparedParts(bytes: seq<byte>, prep: Prep)
    requires Prepared(bytes) == Ok(prep)
    ensures Parse(bytes) == Ok(prep.o) && LayOut(prep.o) == Ok(prep.l) && prep.sites == Sites(prep.o, prep.l)
            && Planned(prep)
  {
  }

  /** The link step leaves the module linked at `base` and memory outside its region as it was. */
  lemma {:induction false} LinksMakeImage(prep: Prep, ext: Resolver, base: nat, mem: Memory, addrs: map<nat, u64>,
                                          linked: Memory)
    requires LayOut(prep.o) == Ok(prep.l) && prep.sites == Sites(prep.o, prep.l) && Planned(prep)
    requires WellFormedObject(prep.o) && base % PAGE_SIZE == 0 && Links(prep, ext, base, mem, addrs, linked)
    ensures Linked(MakeLink(prep.o, base, prep.l.gotBase, Resolving(prep.o, addrs, ext)), prep.l.at, prep.sites, linked)
    ensures SymbolsAt(prep.o, prep.l.at, base, |prep.o.symbols|, addrs)
    ensures SameOutside(mem, linked, base, prep.l.size)
  {
    var plan := prep.plan(base, ext).value;
    var c := MakeLink(prep.o, base, prep.l.gotBase, Resolving(prep.o, addrs, ext));
    var slots := SlotsOf(prep.o);
    PlanParts(prep, ext, base, plan);
    SymbolAddrsAt(prep.o, prep.l.at, base, |prep.o.symbols|);
    StoresMakeImage(c, prep.l, slots, plan, mem);
    StoresKeepTheRest(c, prep.l, slots, plan, mem);
  }

  lemma {:induction false} SlotsOf(o: Object) returns (slots: nat)
    requires WellFormedObject(o) && LayOut(o).Ok?
    ensures GotSlots(o, |o.relaSections|) == Ok(slots) && Sound(o, LayOut(o).value, slots)
  {
    LayoutIsSound(o);
    slots := GotSlots(o, |o.relaSections|).value;
  }

  // ---- Permissions ----

  /** What a section's pages may be used for, by its flags. */
  function PermissionsOf(group: nat, nx: bool): Flags {
    if group == GROUP_TEXT then Flags(false, false)
    else if group == GROUP_RODATA then Flags(false, nx)
    else Flags(true, nx)
  }

  /** Page `p` of a group's part of the region gets the group's permissions. */
  lemma {:induction false} FinalPageAt(pages: PageTable, base: nat, l: Layout, nx: bool, p: nat)
    requires |l.ends| == 3 && PageCeil(l.ends[0]) <= PageCeil(l.ends[1])
    ensures var first := base / PAGE_SIZE;
            var text, rodata := PageCeil(l.ends[0]) / PAGE_SIZE, PageCeil(l.ends[1]) / PAGE_SIZE;
            FinalPages(pages, base, l, nx).Get(p) ==
              if InRange(p, first + text, rodata - text) then Some(Flags(false, nx))
              else if InRange(p, first, text) then Some(Flags(false, false))
              else pages.Get(p)
  {
    var first, text, rodata := base / PAGE_SIZE, PageCeil(l.ends[0]) / PAGE_SIZE, PageCeil(l.ends[1]) / PAGE_SIZE;
    SetPagesAt(pages, first, text, Flags(false, false), p);
    SetPagesAt(SetPages(pages, first, text, Flags(false, false)), first + text, rodata - text, Flags(false, nx), p);
  }

  /** An offset inside group `g`'s stretch of the region ends up with the group's permissions. */
  lemma {:induction false} GroupPermissions(o: Object, l: Layout, slots: nat, base: nat, pages: PageTable, nx: bool,
                                            g: nat, x: nat)
    requires Sound(o, l, slots) && base % PAGE_SIZE == 0 && g < 3
    requires StartOf(l.ends, g) <= x < l.ends[g]
    ensures FinalPages(Mapped(pages, base, l.size, nx), base, l, nx).Get((base + x) / PAGE_SIZE)
            == Some(PermissionsOf(g, nx))
  {
    var p := (base + x) / PAGE_SIZE;
    assert p == base / PAGE_SIZE + x / PAGE_SIZE;
    GroupEnds(l.ends, l.gotBase);
    GroupPages(l.ends, l.gotBase, g, x);
    FinalPageAt(Mapped(pages, base, l.size, nx), base, l, nx, p);
    SetPagesAt(pages, base / PAGE_SIZE, l.size / PAGE_SIZE, Flags(true, nx), p);
  }

  lemma {:induction false} GroupPages(ends: seq<nat>, gotBase: nat, g: nat, x: nat)
    requires |ends| == 3 && Ordered(ends, gotBase) && g < 3 && StartOf(ends, g) <= x < ends[g]
    ensures StartOf(ends, g) / PAGE_SIZE <= x / PAGE_SIZE < PageCeil(ends[g]) / PAGE_SIZE
  {
    BoundarySeparates(x, PageCeil(ends[g]), PageCeil(ends[g]));
  }

  /** Every page of every section gets exactly the permissions its flags ask for. */
  lemma {:induction false} SectionPermissions(o: Object, l: Layout, slots: nat, base: nat, pages: PageTable, nx: bool,
                                              i: nat, x: nat)
    requires Sound(o, l, slots) && base % PAGE_SIZE == 0 && i in l.at
    requires l.at[i] <= x < l.at[i] + o.sections[i].size
    ensures FinalPages(Mapped(pages, base, l.size, nx), base, l, nx).Get((base + x) / PAGE_SIZE)
         == Some(PermissionsOf(SectionGroup(o.sections[i].flags), nx))
  {
    var g := SectionGroup(o.sections[i].flags);
    assert PlacedWell(o.sections[i], l.at[i], l.ends, l.gotBase);
    assert SectionsEnd(l.ends, l.gotBase, g) <= l.ends[g];
    GroupPermissions(o, l, slots, base, pages, nx, g, x);
  }

  /** The GOT is read-only. */
  lemma {:induction false} GotPermissions(o: Object, l: Layout, slots: nat, base: nat, pages: PageTable, nx: bool,
                                          x: nat)
    requires Sound(o, l, slots) && base % PAGE_SIZE == 0 && l.gotBase <= x < l.gotBase + 8 * slots
    ensures FinalPages(Mapped(pages, base, l.size, nx), base, l, nx).Get((base + x) / PAGE_SIZE)
            == Some(Flags(false, nx))
  {
    assert OrderedAt(l.ends, l.gotBase, GROUP_RODATA);
    GroupPermissions(o, l, slots, base, pages, nx, GROUP_RODATA, x);
  }

  /** No page outside the region changes. */
  lemma {:induction false} OtherPagesKept(o: Object, l: Layout, slots: nat, base: nat, pages: PageTable, nx: bool,
                                          p: nat)
    requires Sound(o, l, slots) && base % PAGE_SIZE == 0 && !InRange(p, base / PAGE_SIZE, l.size / PAGE_SIZE)
    ensures FinalPages(Mapped(pages, base, l.size, nx), base, l, nx).Get(p) == pages.Get(p)
  {
    GroupEnds(l.ends, l.gotBase);
    FinalPageAt(Mapped(pages, base, l.size, nx), base, l, nx, p);
    SetPagesAt(pages, base / PAGE_SIZE, l.size / PAGE_SIZE, Flags(true, nx), p);
  }

  /** Offset `x` of section `i` lies on a page with the section's permissions. */
  predicate ProtectedAt(o: Object, base: nat, nx: bool, pages: PageTable, i: nat, x: nat)
    requires i < |o.sections|
  {
    pages.Get((base + x) / PAGE_SIZE) == Some(PermissionsOf(SectionGroup(o.sections[i].flags), nx))
  }

  /** Offset `x` lies on a page that is neither writable nor, with NX, executable. */
  predicate ReadOnlyAt(base: nat, nx: bool, pages: PageTable, x: nat) {
    pages.Get((base + x) / PAGE_SIZE) == Some(Flags(false, nx))
  }

  /** The sections have the permissions of their flags, the GOT is read-only, other pages are as they were. */
  ghost predicate AllProtected(o: Object, l: Layout, base: nat, nx: bool, pages: PageTable, pages': PageTable)
    requires |l.ends| == 3
  {
    && (forall i, x: nat :: i in l.at && i < |o.sections| && l.at[i] <= x < l.at[i] + o.sections[i].size ==>
          ProtectedAt(o, base, nx, pages', i, x))
    && (forall x: nat :: l.gotBase <= x < l.ends[GROUP_RODATA] ==> ReadOnlyAt(base, nx, pages', x))
    && (forall p: nat :: !InRange(p, base / PAGE_SIZE, l.size / PAGE_SIZE) ==> pages'.Get(p) == pages.Get(p))
  }

  lemma {:induction false} PagesProtected(o: Object, l: Layout, slots: nat, base: nat, pages: PageTable, nx: bool)
    requires Sound(o, l, slots) && base % PAGE_SIZE == 0
    ensures AllProtected(o, l, base, nx, pages, FinalPages(Mapped(pages, base, l.size, nx), base, l, nx))
  {
    var pages' := FinalPages(Mapped(pages, base, l.size, nx), base, l, nx);
    forall i, x: nat | i in l.at && i < |o.sections| && l.at[i] <= x < l.at[i] + o.sections[i].size
      ensures ProtectedAt(o, base, nx, pages', i, x)
    {
      SectionPermissions(o, l, slots, base, pages, nx, i, x);
    }
    forall x: nat | l.gotBase <= x < l.ends[GROUP_RODATA]
      ensures ReadOnlyAt(base, nx, pages', x)
    {
      GotPermissions(o, l, slots, base, pages, nx, x);
    }
    forall p: nat | !InRange(p, base / PAGE_SIZE, l.size / PAGE_SIZE)
      ensures pages'.Get(p) == pages.Get(p)
    {
      OtherPagesKept(o, l, slots, base, pages, nx, p);
    }
  }

  // ---- Alignment ----

  /** Every section's address has its alignment if and only if the region's start does. */
  ghost predicate AddressesAligned(o: Object, l: Layout, base: nat) {
    forall i :: i in l.at && i < |o.sections| ==> AddressAligned(base, l.at[i], o.sections[i].addralign)
  }

  lemma {:induction false} SectionsAligned(o: Object, l: Layout, slots: nat, base: nat)
    requires Sound(o, l, slots)
    ensures AddressesAligned(o, l, base)
  {
    forall i | i in l.at && i < |o.sections|
      ensures AddressAligned(base, l.at[i], o.sections[i].addralign)
    {
      SectionAddressAligned(o, l, slots, base, i);
    }
  }

  // ---- The whole load ----

  /** A module file loaded at `base`: linked, the rest of memory untouched, then the charge id stamped. */
  ghost predicate LoadedAt(prep: Prep, ext: Resolver, nx: bool, base: nat, mem: Memory, pages: PageTable,
                           id: u32, entry: u64, mem': Memory, pages': PageTable, addrs: map<nat, u64>, linked: Memory)
    requires |prep.l.ends| == 3
  {
    && AddressesAligned(prep.o, prep.l, base)
    && SymbolsAt(prep.o, prep.l.at, base, |prep.o.symbols|, addrs)
    && Linked(MakeLink(prep.o, base, prep.l.gotBase, Resolving(prep.o, addrs, ext)), prep.l.at, prep.sites, linked)
    && SameOutside(mem, linked, base, prep.l.size)
    && mem' == Stamp(linked, DefinedAt(prep.o, addrs, CHARGE_ID_SYMBOL), id)
    && DefinedAt(prep.o, addrs, INIT_SYMBOL) == Some(entry)
    && AllProtected(prep.o, prep.l, base, nx, pages, pages')
  }

  /** From the file's bytes to the loaded module. */
  lemma {:induction false} LoadIsCorrect(bytes: seq<byte>, prep: Prep, ext: Resolver, nx: bool, base: nat, mem: Memory,
                                         pages: PageTable, id: u32, entry: u64, mem': Memory, pages': PageTable)
    returns (addrs: map<nat, u64>, linked: Memory)
    requires Prepared(bytes) == Ok(prep) && WellFormedObject(prep.o) && base % PAGE_SIZE == 0 && |prep.l.ends| == 3
    requires Loads(prep, ext, nx, base, mem, pages, id, entry, mem', pages')
    ensures LoadedAt(prep, ext, nx, base, mem, pages, id, entry, mem', pages', addrs, linked)
  {
    linked, addrs :|
      && Links(prep, ext, base, mem, addrs, linked)
      && Finishes(prep.o, prep.l, nx, base, addrs, linked, Mapped(pages, base, prep.l.size, nx), id, entry, mem',
                  pages');
    PreparedParts(bytes, prep);
    LinksMakeImage(prep, ext, base, mem, addrs, linked);
    var slots := SlotsOf(prep.o);
    PagesProtected(prep.o, prep.l, slots, base, pages, nx);
    SectionsAligned(prep.o, prep.l, slots, base);
  }

  /** Event `e` moves the next region and the module list, whatever the rest of the registry holds. */
  ghost predicate Registers(e: ModuleRegistry.Event, next: nat, modules: seq<LoadedModule>,
                            next': nat, modules': seq<LoadedModule>)
  {
    forall s: ModuleRegistry.State :: s.nextCode == next && s.modules == modules ==>
      && ModuleRegistry.Step(s, e).Some?
      && ModuleRegistry.Step(s, e).value.s.nextCode == next'
      && ModuleRegistry.Step(s, e).value.s.modules == modules'
  }

  /** A load is one step of the registry's state machine: it starts its module or it fails. */
  ghost predicate LoadRegisters(name: string, size: ModuleRegistry.Pages, fatal: bool, next: nat,
                                modules: seq<LoadedModule>, next': nat, modules': seq<LoadedModule>)
  {
    var e := if modules' == modules then ModuleRegistry.LoadFails(size)
             else ModuleRegistry.LoadStarts(name, size, fatal);
    Registers(e, next, modules, next', modules')
  }

  lemma {:induction false} ClaimRegisters(name: string, size: ModuleRegistry.Pages, fatal: bool, next: nat,
                                          modules: seq<LoadedModule>, next': nat, modules': seq<LoadedModule>)
    requires next' == if next + size > MODULE_REGION_CEILING then next else next + size
    requires modules' == modules
             || (modules' == modules + [LoadedModule(name, next, size, fatal)] && next' == next + size)
    requires next <= MODULE_REGION_CEILING
    ensures LoadRegisters(name, size, fatal, next, modules, next', modules')
  {
  }

  /** What becomes of loading a file. */
  function FileOutcome(bytes: seq<byte>, ext: Resolver, base: nat, pages: PageTable, answer: nat -> Answer): Result<u64>
  {
    match Prepared(bytes)
    case Stopped(why) => Stopped(why)
    case Ok(prep) => LoadOutcome(prep, ext, base, pages, answer)
  }

  /** A file that holds a well-formed object, or none, has exactly its outcome, and no store of it faults. */
  ghost predicate OutcomeExact(bytes: seq<byte>, ext: Resolver, base: nat, pages: PageTable, answer: nat -> Answer,
                               r: Result<u64>)
  {
    (Prepared(bytes).Ok? ==> WellFormedObject(Prepared(bytes).value.o)) ==>
      r == FileOutcome(bytes, ext, base, pages, answer) && r != Stopped(PageFault)
  }

  lemma {:induction false} ExactWhenGood(bytes: seq<byte>, prep: Prep, ext: Resolver, base: nat, pages: PageTable,
                                         answer: nat -> Answer, r: Result<u64>)
    requires Prepared(bytes) == Ok(prep)
    requires Good(prep.o, prep.l, prep.sites) ==>
               r == LoadOutcome(prep, ext, base, pages, answer) && r != Stopped(PageFault)
    ensures OutcomeExact(bytes, ext, base, pages, answer, r)
  {
    PreparedParts(bytes, prep);
    if WellFormedObject(prep.o) {
      WellFormedIsGood(prep.o);
    }
  }

  /** What loading a file does to the next region and the module list: nothing if it can't be prepared,
      else one step of the registry. */
  ghost predicate FileRegisters(prepared: Result<Prep>, name: string, fatal: bool, next: nat,
                                modules: seq<LoadedModule>, next': nat, modules': seq<LoadedModule>)
  {
    match prepared
    case Stopped(_) => next' == next && modules' == modules
    case Ok(prep) => prep.l.size < TWO_64 && prep.l.size % PAGE_SIZE == 0
                     && LoadRegisters(name, prep.l.size, fatal, next, modules, next', modules')
  }

  /** `load`, from the file's bytes to the address of `module_init`. */
  method LoadFile(k: Kernel, name: string, bytes: seq<byte>, ext: Resolver, fatal: bool, answer: nat -> Answer)
    returns (r: Result<u64>, ghost addrs: map<nat, u64>, ghost linked: Memory)
    requires k.Valid()
    modifies k
    ensures k.Valid() && old(k.history) <= k.history
    ensures k.nx ==> StaysClean(old(k.pages), k.pages, k.history, |old(k.history)|)
    ensures r.Stopped? && r.why != PageFault ==> k.modules == old(k.modules)
    ensures r.Ok? ==> Prepared(bytes).Ok? && |Prepared(bytes).value.l.ends| == 3
    ensures FileRegisters(Prepared(bytes), name, fatal, old(k.nextModulePage), old(k.modules),
                          k.nextModulePage, k.modules)
    ensures r.Ok? ==> var m := LoadedModule(name, old(k.nextModulePage), Prepared(bytes).value.l.size, fatal);
                      k.modules == old(k.modules) + [m]
    ensures r.Ok? && WellFormedObject(Prepared(bytes).value.o) ==>
              LoadedAt(Prepared(bytes).value, ext, k.nx, old(k.nextModulePage), old(k.mem), old(k.pages),
                       ChargeId(|k.modules|), r.value, k.mem, k.pages, addrs, linked)
    ensures OutcomeExact(bytes, ext, old(k.nextModulePage), old(k.pages), answer, r)
  {
    addrs, linked := map[], k.mem;
    var prepared := Prepare(bytes);
    if prepared.Stopped? {
      return Stopped(prepared.why), addrs, linked;
    }
    var prep := prepared.value;
    r := k.Load(name, prep, ext, fatal, answer);
    ExactWhenGood(bytes, prep, ext, old(k.nextModulePage), old(k.pages), answer, r);
    ClaimRegisters(name, prep.l.size, fatal, old(k.nextModulePage), old(k.modules), k.nextModulePage, k.modules);
    if r.Ok? && WellFormedObject(prep.o) {
      addrs, linked := LoadIsCorrect(bytes, prep, ext, k.nx, old(k.nextModulePage), old(k.mem), old(k.pages),
                                     ChargeId(|k.modules|), r.value, k.mem, k.pages);
    }
  }

  /** From `before` to `after` is the step of a load that starts its module, or of one that fails. */
  ghost predicate LoadSteps(before: ModuleRegistry.State, after: ModuleRegistry.State, name: string,
                            size: ModuleRegistry.Pages, fatal: bool, starts: bool)
  {
    var e := if starts then ModuleRegistry.LoadStarts(name, size, fatal) else ModuleRegistry.LoadFails(size);
    ModuleRegistry.Step(before, e).Some? && ModuleRegistry.Step(before, e).value.s == after
  }

  /** The statics before and after a load: unchanged if the file can't be prepared, else one step on. */
  ghost predicate FileSteps(prepared: Result<Prep>, before: ModuleRegistry.State, after: ModuleRegistry.State,
                            name: string, fatal: bool, starts: bool)
  {
    match prepared
    case Stopped(_) => !starts && after == before
    case Ok(prep) => prep.l.size < TWO_64 && prep.l.size % PAGE_SIZE == 0
                     && LoadSteps(before, after, name, prep.l.size, fatal, starts)
  }

  lemma {:induction false} RegisteredSteps(prepared: Result<Prep>, before: ModuleRegistry.State,
                                           after: ModuleRegistry.State, name: string, fatal: bool, starts: bool)
    requires FileRegisters(prepared, name, fatal, before.nextCode, before.modules, after.nextCode, after.modules)
    requires starts <==> after.modules != before.modules
    requires after == before.(nextCode := after.nextCode, modules := after.modules,
                              inInit := starts || before.inInit, fatalNow := if starts then fatal else before.fatalNow)
    ensures FileSteps(prepared, before, after, name, fatal, starts)
  {
  }

  /** `load` with the kernel's other statics, up to the call of `module_init`: the load is one step of theirs. */
  method LoadModule(statics: ModuleRegistry.Statics, k: Kernel, name: string, bytes: seq<byte>, ext: Resolver,
                    fatal: bool, answer: nat -> Answer)
    returns (r: Result<u64>)
    requires k.Valid() && statics.nextCode == k.nextModulePage && statics.modules == k.modules
    modifies statics, k
    ensures k.Valid() && statics.nextCode == k.nextModulePage && statics.modules == k.modules
    ensures r != Stopped(PageFault) ==>
              FileSteps(Prepared(bytes), old(statics.Now()), statics.Now(), name, fatal, r.Ok?)
    ensures OutcomeExact(bytes, ext, old(k.nextModulePage), old(k.pages), answer, r)
  {
    ghost var before := statics.Now();
    ghost var addrs, linked;
    r, addrs, linked := LoadFile(k, name, bytes, ext, fatal, answer);
    statics.EndLoad(k.nextModulePage, k.modules, r.Ok?, fatal);
    if r != Stopped(PageFault) {
      RegisteredSteps(Prepared(bytes), before, statics.Now(), name, fatal, r.Ok?);
    }
  }
}
