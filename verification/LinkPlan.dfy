/** The stores a load makes: what goes where, worked out from the object alone. */
module LinkPlan {
  import opened Words
  import opened ElfObject
  import opened ModuleLayout
  import opened RelocationArithmetic
  import opened Stores
  import opened Loops

  // ---- Symbols ----

  /** `resolve_external_symbol`'s name table, and the panic trampoline in front of it. */
  datatype Resolver = Resolver(panicSymbol: seq<byte>, trampoline: u64, api: map<seq<byte>, u64>)

  function ResolveExternal(ext: Resolver, name: seq<byte>): Option<u64> {
    if ext.panicSymbol != [] && name == ext.panicSymbol then Some(ext.trampoline)
    else if name in ext.api then Some(ext.api[name])
    else None
  }

  /** One turn of the symbol loop: `symbol_addrs` gains symbol `i`, if its section is placed. */
  function SymbolStep(o: Object, at: map<nat, nat>, base: nat, i: nat, addrs: map<nat, u64>): Result<map<nat, u64>>
    requires i < |o.symbols|
  {
    var s := o.symbols[i];
    if s.shndx == SHN_UNDEF || s.shndx !in at then Ok(addrs)
    else if base + at[s.shndx] + s.value >= TWO_64 then Stopped(Panic)
    else Ok(addrs[i := base + at[s.shndx] + s.value])
  }

  function SymbolLoop(o: Object, at: map<nat, nat>, base: nat): (nat, map<nat, u64>) -> Result<map<nat, u64>> {
    (i: nat, addrs: map<nat, u64>) => if i < |o.symbols| then SymbolStep(o, at, base, i, addrs) else Ok(addrs)
  }

  function SymbolAddrs(o: Object, at: map<nat, nat>, base: nat): Result<map<nat, u64>> {
    Fold(SymbolLoop(o, at, base), |o.symbols|, map[])
  }

  /** A symbol's address: its own, or by name from the kernel's API. */
  function Resolve(o: Object, addrs: map<nat, u64>, ext: Resolver, symbol: nat): Option<u64> {
    if symbol in addrs then Some(addrs[symbol])
    else match SymbolName(o, symbol)
      case None => None
      case Some(name) => ResolveExternal(ext, name)
  }

  /** `Resolve` as a value: what the relocation loop asks about a symbol. */
  function Resolving(o: Object, addrs: map<nat, u64>, ext: Resolver): nat -> Option<u64> {
    (symbol: nat) => Resolve(o, addrs, ext, symbol)
  }

  // ---- Section contents ----

  /** One turn of the copy loop: section `i`, if it is placed and has bytes in the file. */
  function CopyStep(o: Object, at: map<nat, nat>, base: nat, i: nat, ws: seq<Write>): Result<seq<Write>>
    requires i < |o.sections|
  {
    var s := o.sections[i];
    if i !in at || s.shType == SHT_NOBITS then Ok(ws)
    else
      var bytes :- Slice(o.bytes, s.offset, s.size);
      if base + at[i] >= TWO_64 then Stopped(Panic) else Ok(ws + [Write(base + at[i], bytes)])
  }

  function CopyLoop(o: Object, at: map<nat, nat>, base: nat): (nat, seq<Write>) -> Result<seq<Write>> {
    (i: nat, ws: seq<Write>) => if i < |o.sections| then CopyStep(o, at, base, i, ws) else Ok(ws)
  }

  function Copies(o: Object, at: map<nat, nat>, base: nat): Result<seq<Write>> {
    Fold(CopyLoop(o, at, base), |o.sections|, [])
  }

  // ---- Relocations ----

  /** One relocation and the offset of the section it applies to. */
  datatype Site = Site(section: nat, target: nat, reloc: Relocation)

  function SitesOf(section: nat, target: nat, relocs: seq<Relocation>): (r: seq<Site>)
    ensures |r| == |relocs|
  {
    seq(|relocs|, j requires 0 <= j < |relocs| => Site(section, target, relocs[j]))
  }

  /** Every relocation of the first `k` RELA sections whose target section is placed, in order. */
  function PlacedSites(o: Object, at: map<nat, nat>, k: nat): seq<Site>
    requires k <= |o.relaSections|
  {
    if k == 0 then []
    else
      var before := PlacedSites(o, at, k - 1);
      var meta := o.relaSections[k - 1];
      var relocs := Relocations(o, meta);
      if meta.target in at && relocs.Ok? then before + SitesOf(meta.target, at[meta.target], relocs.value) else before
  }

  /** Relocations `relocs` of a section are `sites` from `n` on. */
  ghost predicate ListedAt(sites: seq<Site>, n: nat, section: nat, target: nat, relocs: seq<Relocation>) {
    n + |relocs| <= |sites| && forall j :: 0 <= j < |relocs| ==> sites[n + j] == Site(section, target, relocs[j])
  }

  lemma {:induction false} StaysListed(sites: seq<Site>, more: seq<Site>, n: nat, section: nat, target: nat,
                                       relocs: seq<Relocation>)
    requires ListedAt(sites, n, section, target, relocs)
    ensures ListedAt(sites + more, n, section, target, relocs)
  {
  }

  lemma {:induction false} ListedLast(sites: seq<Site>, section: nat, target: nat, relocs: seq<Relocation>)
    ensures ListedAt(sites + SitesOf(section, target, relocs), |sites|, section, target, relocs)
  {
  }

  lemma {:induction false} SectionListed(o: Object, at: map<nat, nat>, k: nat, n: nat)
    requires k < n <= |o.relaSections| && o.relaSections[k].target in at && Relocations(o, o.relaSections[k]).Ok?
    ensures var meta := o.relaSections[k];
            ListedAt(PlacedSites(o, at, n), |PlacedSites(o, at, k)|, meta.target, at[meta.target],
                     Relocations(o, meta).value)
    ensures |PlacedSites(o, at, k + 1)| == |PlacedSites(o, at, k)| + |Relocations(o, o.relaSections[k]).value|
  {
    var meta, last := o.relaSections[k], o.relaSections[n - 1];
    var relocs := Relocations(o, meta).value;
    if k == n - 1 {
      ListedLast(PlacedSites(o, at, k), meta.target, at[meta.target], relocs);
    } else {
      SectionListed(o, at, k, n - 1);
      if last.target in at && Relocations(o, last).Ok? {
        StaysListed(PlacedSites(o, at, n - 1), SitesOf(last.target, at[last.target], Relocations(o, last).value),
                    |PlacedSites(o, at, k)|, meta.target, at[meta.target], relocs);
      }
    }
  }

  /** The sites are section by section: each placed RELA section's relocations, in order, right after those
      of the sections before it. Once the GOT slots are counted every section reads, so none is passed over. */
  lemma {:induction false} SitesBySection(o: Object, at: map<nat, nat>, k: nat)
    requires k < |o.relaSections| && o.relaSections[k].target in at && GotSlots(o, |o.relaSections|).Ok?
    ensures Relocations(o, o.relaSections[k]).Ok?
    ensures var meta := o.relaSections[k];
            ListedAt(PlacedSites(o, at, |o.relaSections|), |PlacedSites(o, at, k)|, meta.target, at[meta.target],
                     Relocations(o, meta).value)
    ensures |PlacedSites(o, at, k + 1)| == |PlacedSites(o, at, k)| + |Relocations(o, o.relaSections[k]).value|
  {
    CountedRelocations(o, k, |o.relaSections|);
    SectionListed(o, at, k, |o.relaSections|);
  }

  /** What a relocation needs to know: the object, where it is, how symbols resolve, and from these
      what each site's relocation stores (`patch`, given the next free GOT slot). */
  datatype Link = Link(o: Object, base: nat, gotBase: nat, resolve: nat -> Option<u64>,
                       patch: (Site, nat) -> Result<Patch>)

  function MakeLink(o: Object, base: nat, gotBase: nat, resolve: nat -> Option<u64>): Link {
    Link(o, base, gotBase, resolve, Patching(base, resolve))
  }

  datatype Progress = Progress(patches: seq<Patch>, nextSlot: nat)

  /** What one relocation stores, given its symbol's address and the next free GOT slot. */
  function PatchFor(site: u64, r: Relocation, resolved: u64, slot: nat): Result<Patch> {
    if r.kind != R_X86_64_GOTPCREL then
      var field :- RelocBytes(site, r.kind, resolved, r.addend);
      Ok(Direct(Write(site, field)))
    else if slot + 8 >= TWO_64 then Stopped(Panic)
    else
      var field :- RelocBytes(site, R_X86_64_PC32, slot, r.addend);
      Ok(ViaGot(Write(slot, LeBytes(resolved, 8)), Write(site, field)))
  }

  function SitePatch(base: nat, resolve: nat -> Option<u64>, s: Site, slot: nat): Result<Patch> {
    var resolved := resolve(s.reloc.symbol);
    if resolved.None? then Fail(UnresolvedSymbol)
    else if base + s.target + s.reloc.offset >= TWO_64 then Stopped(Panic)
    else PatchFor(base + s.target + s.reloc.offset, s.reloc, resolved.value, slot)
  }

  function Patching(base: nat, resolve: nat -> Option<u64>): (Site, nat) -> Result<Patch> {
    (s: Site, slot: nat) => SitePatch(base, resolve, s, slot)
  }

  /** One turn of the relocation loop. */
  function RelocStep(c: Link, s: Site, p: Progress): Result<Progress> {
    match c.patch(s, p.nextSlot)
    case Stopped(why) => Stopped(why)
    case Ok(patch) => Ok(Progress(p.patches + [patch], p.nextSlot + if patch.ViaGot? then 8 else 0))
  }

  function RelocLoop(c: Link, sites: seq<Site>): (nat, Progress) -> Result<Progress> {
    (k: nat, p: Progress) => if k < |sites| then RelocStep(c, sites[k], p) else Ok(p)
  }

  /** The relocation loop, over all of `sites`. */
  function Relocate(c: Link, sites: seq<Site>): Result<Progress> {
    if c.base + c.gotBase >= TWO_64 then Stopped(Panic)
    else Fold(RelocLoop(c, sites), |sites|, Progress([], c.base + c.gotBase))
  }

  // ---- The plan ----

  datatype Plan = Plan(copies: seq<Write>, patches: seq<Patch>, addrs: map<nat, u64>)

  function Sites(o: Object, l: Layout): seq<Site> {
    PlacedSites(o, l.at, |o.relaSections|)
  }

  function MakePlan(o: Object, l: Layout, sites: seq<Site>, base: nat, ext: Resolver): Result<Plan> {
    var copies :- Copies(o, l.at, base);
    var addrs :- SymbolAddrs(o, l.at, base);
    var p :- Relocate(MakeLink(o, base, l.gotBase, Resolving(o, addrs, ext)), sites);
    Ok(Plan(copies, p.patches, addrs))
  }

  /** Memory once `n` pages from page number `first` are zeroed, one store a page. */
  function ZeroRegion(m: Memory, first: nat, n: nat): Memory {
    if n == 0 then m else Store(ZeroRegion(m, first, n - 1), ZeroPage(first + n - 1))
  }

  function ZeroPage(page: nat): Write {
    Write(page * PAGE_SIZE, Zeros(PAGE_SIZE))
  }
}
