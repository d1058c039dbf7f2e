/** The linked image a module's memory must hold, and the proof that the loader's stores make it. */
module LinkedImage {
  import opened Words
  import opened ElfObject
  import opened ModuleLayout
  import opened LayoutSoundness
  import opened RelocationArithmetic
  import opened LinkPlan
  import opened Stores
  import opened Loops

  // ---- Well-formed relocations ----

  function Width(kind: u32): nat {
    if kind == R_X86_64_64 then 8 else 4
  }

  function SiteAddr(base: nat, s: Site): nat {
    base + s.target + s.reloc.offset
  }

  /** The relocation lies inside the section it is for. */
  predicate InSection(o: Object, s: Site) {
    s.section < |o.sections| && s.reloc.offset + Width(s.reloc.kind) <= o.sections[s.section].size
  }

  /** No two relocations touch the same byte. */
  ghost predicate SitesApart(sites: seq<Site>) {
    forall j, k :: 0 <= j < k < |sites| ==>
      Disjoint(SiteAddr(0, sites[j]), Width(sites[j].reloc.kind), SiteAddr(0, sites[k]), Width(sites[k].reloc.kind))
  }

  predicate PlacedSite(at: map<nat, nat>, s: Site) {
    s.section in at && s.target == at[s.section]
  }

  ghost predicate AllPlaced(at: map<nat, nat>, sites: seq<Site>) {
    forall k :: 0 <= k < |sites| ==> PlacedSite(at, sites[k])
  }

  ghost predicate AllInSection(o: Object, sites: seq<Site>) {
    forall k :: 0 <= k < |sites| ==> InSection(o, sites[k])
  }

  ghost predicate GoodSites(o: Object, at: map<nat, nat>, sites: seq<Site>) {
    AllPlaced(at, sites) && AllInSection(o, sites) && SitesApart(sites)
  }

  // ---- GOT slots ----

  function GotBefore(sites: seq<Site>, n: nat): nat
    requires n <= |sites|
  {
    if n == 0 then 0
    else GotBefore(sites, n - 1) + if sites[n - 1].reloc.kind == R_X86_64_GOTPCREL then 1 else 0
  }

  function SlotAddr(c: Link, sites: seq<Site>, k: nat): nat
    requires k <= |sites|
  {
    c.base + c.gotBase + 8 * GotBefore(sites, k)
  }

  lemma {:induction false} GotBeforeMonotone(sites: seq<Site>, j: nat, k: nat)
    requires j <= k <= |sites|
    ensures GotBefore(sites, j) <= GotBefore(sites, k)
  {
    if j < k {
      GotBeforeMonotone(sites, j, k - 1);
    }
  }

  lemma {:induction false} GotBeforePrefix(sites: seq<Site>, more: seq<Site>, n: nat)
    requires n <= |sites|
    ensures GotBefore(sites + more, n) == GotBefore(sites, n)
  {
    if n > 0 {
      GotBeforePrefix(sites, more, n - 1);
    }
  }

  lemma {:induction false} GotBeforeConcat(sites: seq<Site>, section: nat, target: nat, relocs: seq<Relocation>, n: nat)
    requires n <= |relocs|
    ensures GotBefore(sites + SitesOf(section, target, relocs), |sites| + n)
            == GotBefore(sites, |sites|) + CountGot(relocs[..n])
  {
    if n == 0 {
      GotBeforePrefix(sites, SitesOf(section, target, relocs), |sites|);
    } else {
      GotBeforeConcat(sites, section, target, relocs, n - 1);
      assert relocs[..n][..n - 1] == relocs[..n - 1];
    }
  }

  lemma {:induction false} GotOfSection(sites: seq<Site>, section: nat, target: nat, relocs: seq<Relocation>)
    ensures var after := sites + SitesOf(section, target, relocs);
            GotBefore(after, |after|) == GotBefore(sites, |sites|) + CountGot(relocs)
  {
    GotBeforeConcat(sites, section, target, relocs, |relocs|);
    assert relocs[..|relocs|] == relocs;
  }

  /** The slots used while relocating placed sections never exceed those counted over all of them. */
  lemma {:induction false} GotSlotsSuffice(o: Object, at: map<nat, nat>, k: nat)
    requires k <= |o.relaSections| && GotSlots(o, k).Ok?
    ensures GotBefore(PlacedSites(o, at, k), |PlacedSites(o, at, k)|) <= GotSlots(o, k).value
  {
    if k > 0 {
      GotSlotsSuffice(o, at, k - 1);
      var meta := o.relaSections[k - 1];
      var relocs := Relocations(o, meta).value;
      if meta.target in at {
        GotOfSection(PlacedSites(o, at, k - 1), meta.target, at[meta.target], relocs);
      }
    }
  }

  // ---- The image ----

  /** Relocation `k` as the ABI asks: at its site, the formula for its symbol; through the GOT, the
      formula for its own slot, which holds its symbol's address. */
  ghost predicate SiteLinked(c: Link, sites: seq<Site>, k: nat, m: Memory)
    requires k < |sites|
  {
    var r := sites[k].reloc;
    var p := SiteAddr(c.base, sites[k]);
    var resolved := c.resolve(r.symbol);
    && resolved.Some? && p < TWO_64
    && if r.kind == R_X86_64_GOTPCREL then
         var slot := SlotAddr(c, sites, k);
         && slot < TWO_64
         && MeetsAbi(R_X86_64_PC32, slot, r.addend, p, BytesAt(m, p, 4))
         && BytesAt(m, slot, 8) == LeBytes(resolved.value, 8)
       else
         Supported(r.kind) && MeetsAbi(r.kind, resolved.value, r.addend, p, BytesAt(m, p, Width(r.kind)))
  }

  predicate UnderRelocation(base: nat, sites: seq<Site>, a: nat) {
    exists k :: 0 <= k < |sites|
                && SiteAddr(base, sites[k]) <= a < SiteAddr(base, sites[k]) + Width(sites[k].reloc.kind)
  }

  /** Byte `b` of placed section `i` as the object file gives it; NOBITS sections are zero. */
  function FileByte(o: Object, i: nat, b: nat): byte
    requires i < |o.sections| && b < o.sections[i].size
    requires o.sections[i].shType != SHT_NOBITS ==> o.sections[i].offset + o.sections[i].size <= |o.bytes|
  {
    if o.sections[i].shType == SHT_NOBITS then 0 else o.bytes[o.sections[i].offset + b]
  }

  ghost predicate SectionLinked(c: Link, at: map<nat, nat>, sites: seq<Site>, i: nat, m: Memory)
    requires i in at && i < |c.o.sections|
  {
    var s := c.o.sections[i];
    var start := c.base + at[i];
    && (s.shType != SHT_NOBITS ==> s.offset + s.size <= |c.o.bytes|)
    && forall a: nat :: start <= a < start + s.size && !UnderRelocation(c.base, sites, a) ==>
         m.Get(a) == Some(FileByte(c.o, i, a - start))
  }

  /** The whole module, linked at `c.base`. */
  ghost predicate Linked(c: Link, at: map<nat, nat>, sites: seq<Site>, m: Memory) {
    && (forall i :: i in at ==> i < |c.o.sections| && SectionLinked(c, at, sites, i, m))
    && (forall k :: 0 <= k < |sites| ==> SiteLinked(c, sites, k, m))
  }

  // ---- The relocation loop makes the image ----

  /** Patch `q` covers exactly relocation `s`'s field, and its GOT slot `slot` if it takes one. */
  predicate Shape(base: nat, s: Site, slot: nat, q: Patch) {
    && q.field.addr == SiteAddr(base, s) && |q.field.bytes| == Width(s.reloc.kind)
    && (if s.reloc.kind == R_X86_64_GOTPCREL then q.ViaGot? && q.slot.addr == slot && |q.slot.bytes| == 8
        else q.Direct?)
  }

  ghost predicate Shaped(c: Link) {
    forall s, slot :: c.patch(s, slot).Ok? ==> Shape(c.base, s, slot, c.patch(s, slot).value)
  }

  lemma {:induction false} SitePatchShape(base: nat, resolve: nat -> Option<u64>, s: Site, slot: nat)
    ensures SitePatch(base, resolve, s, slot).Ok? ==> Shape(base, s, slot, SitePatch(base, resolve, s, slot).value)
  {
  }

  lemma {:induction false} LinkIsShaped(c: Link)
    requires c.patch == Patching(c.base, c.resolve)
    ensures Shaped(c)
  {
    forall s, slot | c.patch(s, slot).Ok?
      ensures Shape(c.base, s, slot, c.patch(s, slot).value)
    {
      SitePatchShape(c.base, c.resolve, s, slot);
    }
  }

  ghost predicate Fits(c: Link, s: Site, slot: nat, q: Patch) {
    c.patch(s, slot) == Ok(q) && Shape(c.base, s, slot, q)
  }

  ghost predicate AllFit(c: Link, sites: seq<Site>, n: nat, ps: seq<Patch>)
    requires n <= |sites|
  {
    |ps| == n && forall k :: 0 <= k < n ==> Fits(c, sites[k], SlotAddr(c, sites, k), ps[k])
  }

  lemma {:induction false} AllFitSnoc(c: Link, sites: seq<Site>, n: nat, ps: seq<Patch>, qs: seq<Patch>)
    requires n < |sites| && AllFit(c, sites, n, ps)
    requires |qs| == n + 1 && qs[..n] == ps && Fits(c, sites[n], SlotAddr(c, sites, n), qs[n])
    ensures AllFit(c, sites, n + 1, qs)
  {
    forall k | 0 <= k < n
      ensures qs[k] == ps[k]
    {
      assert qs[k] == qs[..n][k];
    }
  }

  ghost predicate FitSoFar(c: Link, sites: seq<Site>, n: nat, p: Progress) {
    n <= |sites| && AllFit(c, sites, n, p.patches) && p.nextSlot == SlotAddr(c, sites, n)
  }

  lemma {:induction false} StepKeepsFit(c: Link, sites: seq<Site>, n: nat, p: Progress)
    requires n < |sites| && Shaped(c) && FitSoFar(c, sites, n, p) && RelocStep(c, sites[n], p).Ok?
    ensures FitSoFar(c, sites, n + 1, RelocStep(c, sites[n], p).value)
  {
    var patch := c.patch(sites[n], p.nextSlot).value;
    MadePatchFits(c, sites[n], p.nextSlot, patch);
    assert (p.patches + [patch])[..n] == p.patches;
    AllFitSnoc(c, sites, n, p.patches, p.patches + [patch]);
  }

  lemma {:induction false} MadePatchFits(c: Link, s: Site, slot: nat, patch: Patch)
    requires Shaped(c) && c.patch(s, slot) == Ok(patch)
    ensures Fits(c, s, slot, patch) && (patch.ViaGot? <==> s.reloc.kind == R_X86_64_GOTPCREL)
  {
  }

  /** The relocation loop makes one fitting patch a site. */
  lemma {:induction false} PrefixFits(c: Link, sites: seq<Site>, n: nat, p: Progress)
    requires n <= |sites| && Shaped(c) && Fold(RelocLoop(c, sites), n, Progress([], c.base + c.gotBase)) == Ok(p)
    ensures FitSoFar(c, sites, n, p)
  {
    if n > 0 {
      var q := Fold(RelocLoop(c, sites), n - 1, Progress([], c.base + c.gotBase)).value;
      PrefixFits(c, sites, n - 1, q);
      StepKeepsFit(c, sites, n - 1, q);
    }
  }

  lemma {:induction false} RelocateFits(c: Link, sites: seq<Site>)
    requires c.patch == Patching(c.base, c.resolve) && Relocate(c, sites).Ok?
    ensures FitSoFar(c, sites, |sites|, Relocate(c, sites).value)
  {
    LinkIsShaped(c);
    PrefixFits(c, sites, |sites|, Relocate(c, sites).value);
  }

  // ---- Sites and the GOT keep apart ----

  /** The GOT `[gotBase, gotEnd)` overlaps no section and has room for every site. */
  ghost predicate GotApart(c: Link, at: map<nat, nat>, sites: seq<Site>, gotEnd: nat) {
    && (forall i :: i in at ==> i < |c.o.sections|)
    && c.gotBase + 8 * GotBefore(sites, |sites|) <= gotEnd
    && (forall i :: i in at ==> Disjoint(at[i], c.o.sections[i].size, c.gotBase, gotEnd - c.gotBase))
  }

  lemma {:induction false} SlotBounds(c: Link, sites: seq<Site>, k: nat, gotEnd: nat)
    requires k < |sites| && c.gotBase + 8 * GotBefore(sites, |sites|) <= gotEnd
    requires sites[k].reloc.kind == R_X86_64_GOTPCREL
    ensures c.base + c.gotBase <= SlotAddr(c, sites, k) && SlotAddr(c, sites, k) + 8 <= c.base + gotEnd
  {
    GotBeforeMonotone(sites, k + 1, |sites|);
  }

  lemma {:induction false} SlotsApart(c: Link, sites: seq<Site>, j: nat, k: nat)
    requires j < k < |sites| && sites[j].reloc.kind == R_X86_64_GOTPCREL
    ensures SlotAddr(c, sites, j) + 8 <= SlotAddr(c, sites, k)
  {
    GotBeforeMonotone(sites, j + 1, k);
  }

  /** A site never overlaps the GOT. */
  lemma {:induction false} SiteBesideGot(c: Link, at: map<nat, nat>, sites: seq<Site>, gotEnd: nat, k: nat)
    requires GoodSites(c.o, at, sites) && GotApart(c, at, sites, gotEnd) && k < |sites|
    ensures Disjoint(SiteAddr(c.base, sites[k]), Width(sites[k].reloc.kind), c.base + c.gotBase, gotEnd - c.gotBase)
  {
    var i := sites[k].section;
    assert Disjoint(at[i], c.o.sections[i].size, c.gotBase, gotEnd - c.gotBase);
  }

  lemma {:induction false} FittingPatchesApart(c: Link, at: map<nat, nat>, sites: seq<Site>, gotEnd: nat,
                                               ps: seq<Patch>)
    requires GoodSites(c.o, at, sites) && GotApart(c, at, sites, gotEnd) && AllFit(c, sites, |sites|, ps)
    ensures PatchesApart(ps)
  {
    forall k | 0 <= k < |ps| && ps[k].ViaGot?
      ensures Beside(ps[k].slot, ps[k].field)
    {
      OwnSlotApart(c, at, sites, gotEnd, k, ps[k]);
    }
    forall j, k | 0 <= j < k < |ps|
      ensures PatchBeside(ps[j], ps[k].field) && (ps[k].ViaGot? ==> PatchBeside(ps[j], ps[k].slot))
    {
      TwoPatchesApart(c, at, sites, gotEnd, j, k, ps[j], ps[k]);
    }
  }

  lemma {:induction false} OwnSlotApart(c: Link, at: map<nat, nat>, sites: seq<Site>, gotEnd: nat, k: nat, p: Patch)
    requires GoodSites(c.o, at, sites) && GotApart(c, at, sites, gotEnd) && k < |sites|
    requires Fits(c, sites[k], SlotAddr(c, sites, k), p) && p.ViaGot?
    ensures Beside(p.slot, p.field)
  {
    SiteBesideGot(c, at, sites, gotEnd, k);
    SlotBounds(c, sites, k, gotEnd);
  }

  lemma {:induction false} TwoPatchesApart(c: Link, at: map<nat, nat>, sites: seq<Site>, gotEnd: nat,
                                           j: nat, k: nat, p: Patch, q: Patch)
    requires GoodSites(c.o, at, sites) && GotApart(c, at, sites, gotEnd) && j < k < |sites|
    requires Fits(c, sites[j], SlotAddr(c, sites, j), p) && Fits(c, sites[k], SlotAddr(c, sites, k), q)
    ensures PatchBeside(p, q.field) && (q.ViaGot? ==> PatchBeside(p, q.slot))
  {
    assert Disjoint(SiteAddr(0, sites[j]), Width(sites[j].reloc.kind), SiteAddr(0, sites[k]),
                    Width(sites[k].reloc.kind));
    SiteBesideGot(c, at, sites, gotEnd, j);
    SiteBesideGot(c, at, sites, gotEnd, k);
    if p.ViaGot? {
      SlotBounds(c, sites, j, gotEnd);
      SlotsApart(c, sites, j, k);
    }
    if q.ViaGot? {
      SlotBounds(c, sites, k, gotEnd);
    }
  }

  /** A patch that fits and is there makes its site linked. */
  lemma {:induction false} HeldPatchLinks(c: Link, sites: seq<Site>, k: nat, p: Patch, m: Memory)
    requires c.patch == Patching(c.base, c.resolve)
    requires k < |sites| && Fits(c, sites[k], SlotAddr(c, sites, k), p) && PatchHolds(m, p)
    ensures SiteLinked(c, sites, k, m)
  {
    var r := sites[k].reloc;
    var resolved := c.resolve(r.symbol).value;
    var site := SiteAddr(c.base, sites[k]);
    if r.kind == R_X86_64_GOTPCREL {
      RelocationMeetsAbi(site, R_X86_64_PC32, SlotAddr(c, sites, k), r.addend, p.field.bytes);
    } else {
      RelocationMeetsAbi(site, r.kind, resolved, r.addend, p.field.bytes);
    }
  }

  lemma {:induction false} PatchCoverage(c: Link, sites: seq<Site>, gotEnd: nat, k: nat, p: Patch, a: nat)
    requires k < |sites| && Fits(c, sites[k], SlotAddr(c, sites, k), p) && PatchCovers(p, a)
    requires c.gotBase + 8 * GotBefore(sites, |sites|) <= gotEnd
    ensures UnderRelocation(c.base, sites, a) || c.base + c.gotBase <= a < c.base + gotEnd
  {
    if p.ViaGot? {
      SlotBounds(c, sites, k, gotEnd);
    }
  }

  // ---- Section contents ----

  predicate HoldsFileBytes(o: Object, at: map<nat, nat>, base: nat, i: nat, a: nat)
    requires i < |o.sections|
  {
    i in at && o.sections[i].shType != SHT_NOBITS && base + at[i] <= a < base + at[i] + o.sections[i].size
  }

  /** After `n` turns of the copy loop: a byte of a copied section is the file's, any other untouched. */
  ghost predicate CopiedSoFar(o: Object, at: map<nat, nat>, base: nat, m: Memory, a: nat, n: nat, ws: seq<Write>) {
    Copied(o, at, base, a, n, m.Get(a), StoreAll(m, ws).Get(a))
  }

  ghost predicate Copied(o: Object, at: map<nat, nat>, base: nat, a: nat, n: nat, was: Option<byte>, now: Option<byte>)
  {
    && n <= |o.sections|
    && (forall i :: 0 <= i < n && HoldsFileBytes(o, at, base, i, a) ==>
          && o.sections[i].offset + o.sections[i].size <= |o.bytes|
          && now == Some(o.bytes[o.sections[i].offset + (a - base - at[i])]))
    && ((forall i :: 0 <= i < n ==> !HoldsFileBytes(o, at, base, i, a)) ==> now == was)
  }

  lemma {:induction false} OneMoreCopied(o: Object, at: map<nat, nat>, base: nat, a: nat, n: nat, w: Write,
                                         was: Option<byte>, mid: Option<byte>)
    requires (forall j :: j in at ==> j < |o.sections|) && Apart(o.sections, at)
    requires n < |o.sections| && Copied(o, at, base, a, n, was, mid)
    requires n in at && o.sections[n].shType != SHT_NOBITS && o.sections[n].offset + o.sections[n].size <= |o.bytes|
    requires w == Write(base + at[n], o.bytes[o.sections[n].offset..o.sections[n].offset + o.sections[n].size])
    ensures Copied(o, at, base, a, n + 1, was, if w.Covers(a) then Some(w.At(a)) else mid)
  {
    assert HoldsFileBytes(o, at, base, n, a) <==> w.Covers(a);
    if w.Covers(a) {
      assert w.At(a) == o.bytes[o.sections[n].offset + (a - base - at[n])];
      assert forall i :: 0 <= i < n ==> !HoldsFileBytes(o, at, base, i, a);
    }
  }

  lemma {:induction false} CopyKeeps(o: Object, at: map<nat, nat>, base: nat, m: Memory, a: nat, n: nat, ws: seq<Write>,
                                     w: Write)
    requires (forall j :: j in at ==> j < |o.sections|) && Apart(o.sections, at)
    requires n < |o.sections| && CopiedSoFar(o, at, base, m, a, n, ws)
    requires n in at && o.sections[n].shType != SHT_NOBITS && o.sections[n].offset + o.sections[n].size <= |o.bytes|
    requires w == Write(base + at[n], o.bytes[o.sections[n].offset..o.sections[n].offset + o.sections[n].size])
    ensures CopiedSoFar(o, at, base, m, a, n + 1, ws + [w])
  {
    StoreAllSnoc(m, ws, w);
    StoreAt(StoreAll(m, ws), w, a);
    OneMoreCopied(o, at, base, a, n, w, m.Get(a), StoreAll(m, ws).Get(a));
  }

  lemma {:induction false} CopyTurnKeeps(o: Object, at: map<nat, nat>, base: nat, m: Memory, a: nat, n: nat,
                                         ws: seq<Write>)
    requires (forall j :: j in at ==> j < |o.sections|) && Apart(o.sections, at)
    requires n < |o.sections| && CopiedSoFar(o, at, base, m, a, n, ws) && CopyLoop(o, at, base)(n, ws).Ok?
    ensures CopiedSoFar(o, at, base, m, a, n + 1, CopyLoop(o, at, base)(n, ws).value)
  {
    CopyStepKeeps(o, at, base, m, a, n, ws);
  }

  lemma {:induction false} CopyStepKeeps(o: Object, at: map<nat, nat>, base: nat, m: Memory, a: nat, n: nat,
                                         ws: seq<Write>)
    requires (forall j :: j in at ==> j < |o.sections|) && Apart(o.sections, at)
    requires n < |o.sections| && CopiedSoFar(o, at, base, m, a, n, ws) && CopyStep(o, at, base, n, ws).Ok?
    ensures CopiedSoFar(o, at, base, m, a, n + 1, CopyStep(o, at, base, n, ws).value)
  {
    var s := o.sections[n];
    if n in at && s.shType != SHT_NOBITS {
      CopyKeeps(o, at, base, m, a, n, ws, Write(base + at[n], o.bytes[s.offset..s.offset + s.size]));
    }
  }

  /** The copies put each section's file bytes in place and touch nothing else. */
  lemma {:induction false} CopiesPlaceBytes(o: Object, at: map<nat, nat>, base: nat, m: Memory, a: nat)
    requires (forall j :: j in at ==> j < |o.sections|) && Apart(o.sections, at) && Copies(o, at, base).Ok?
    ensures CopiedSoFar(o, at, base, m, a, |o.sections|, Copies(o, at, base).value)
  {
    var inv := (n: nat, ws: seq<Write>) => CopiedSoFar(o, at, base, m, a, n, ws);
    forall n: nat, ws: seq<Write> | n < |o.sections| && inv(n, ws) && CopyLoop(o, at, base)(n, ws).Ok?
      ensures inv(n + 1, CopyLoop(o, at, base)(n, ws).value)
    {
      CopyTurnKeeps(o, at, base, m, a, n, ws);
    }
    FoldInvariant(CopyLoop(o, at, base), |o.sections|, [], inv);
  }

  /** Zeroing pages makes their bytes zero and touches no other. */
  lemma {:induction false} ZeroedByte(m: Memory, first: nat, n: nat, a: nat)
    ensures first * PAGE_SIZE <= a < (first + n) * PAGE_SIZE ==> ZeroRegion(m, first, n).Get(a) == Some(0)
    ensures !(first * PAGE_SIZE <= a < (first + n) * PAGE_SIZE) ==>
              ZeroRegion(m, first, n).Get(a) == m.Get(a)
  {
    if n > 0 {
      ZeroedByte(m, first, n - 1, a);
      var w := ZeroPage(first + n - 1);
      StoreAt(ZeroRegion(m, first, n - 1), w, a);
      assert w.Covers(a) <==> (first + n - 1) * PAGE_SIZE <= a < (first + n) * PAGE_SIZE;
    }
  }

  // ---- The theorem ----

  /** The memory a load leaves: the region zeroed, the sections copied in, the relocations applied. */
  function LoadedMemory(m: Memory, base: nat, size: nat, plan: Plan): Memory {
    ApplyAll(StoreAll(ZeroRegion(m, base / PAGE_SIZE, size / PAGE_SIZE), plan.copies), plan.patches)
  }

  /** The relocations of the object lie inside their sections and don't overlap. */
  ghost predicate WellFormed(o: Object, l: Layout) {
    AllInSection(o, Sites(o, l)) && SitesApart(Sites(o, l))
  }

  lemma {:induction false} AllPlacedConcat(at: map<nat, nat>, sites: seq<Site>, section: nat, relocs: seq<Relocation>)
    requires AllPlaced(at, sites) && section in at
    ensures AllPlaced(at, sites + SitesOf(section, at[section], relocs))
  {
  }

  lemma {:induction false} SitesArePlaced(o: Object, at: map<nat, nat>, n: nat)
    requires n <= |o.relaSections|
    ensures AllPlaced(at, PlacedSites(o, at, n))
  {
    if n > 0 {
      SitesArePlaced(o, at, n - 1);
      var meta := o.relaSections[n - 1];
      if meta.target in at && Relocations(o, meta).Ok? {
        AllPlacedConcat(at, PlacedSites(o, at, n - 1), meta.target, Relocations(o, meta).value);
      }
    }
  }

  lemma {:induction false} WellFormedSites(o: Object, l: Layout)
    requires WellFormed(o, l)
    ensures GoodSites(o, l.at, Sites(o, l))
  {
    SitesArePlaced(o, l.at, |o.relaSections|);
  }

  lemma {:induction false} SectionBesideGot(s: Section, a: nat, ends: seq<nat>, gotBase: nat)
    requires |ends| == 3 && Ordered(ends, gotBase) && PlacedWell(s, a, ends, gotBase)
    ensures gotBase <= ends[GROUP_RODATA] && Disjoint(a, s.size, gotBase, ends[GROUP_RODATA] - gotBase)
  {
    GroupEnds(ends, gotBase);
  }

  lemma {:induction false} SoundGotApart(c: Link, l: Layout, slots: nat)
    requires Sound(c.o, l, slots) && c.gotBase == l.gotBase
    requires GotSlots(c.o, |c.o.relaSections|) == Ok(slots)
    ensures GotApart(c, l.at, Sites(c.o, l), l.ends[GROUP_RODATA])
  {
    GotSlotsSuffice(c.o, l.at, |c.o.relaSections|);
    GroupEnds(l.ends, l.gotBase);
    forall i | i in l.at
      ensures Disjoint(l.at[i], c.o.sections[i].size, c.gotBase, l.ends[GROUP_RODATA] - c.gotBase)
    {
      SectionBesideGot(c.o.sections[i], l.at[i], l.ends, l.gotBase);
    }
  }

  /** A placed section lies inside the region. */
  lemma {:induction false} SectionInRegion(o: Object, l: Layout, slots: nat, i: nat)
    requires Sound(o, l, slots) && i in l.at
    ensures l.at[i] + o.sections[i].size <= l.size && l.ends[GROUP_RODATA] <= l.size
  {
    assert PlacedWell(o.sections[i], l.at[i], l.ends, l.gotBase);
    BelowStart(l.ends, l.gotBase, 0, 3);
    BelowStart(l.ends, l.gotBase, 1, 3);
    BelowStart(l.ends, l.gotBase, 2, 3);
  }

  lemma {:induction false} ZeroedRegion(m: Memory, base: nat, size: nat, a: nat)
    requires base % PAGE_SIZE == 0 && size % PAGE_SIZE == 0 && base <= a < base + size
    ensures var zeroed := ZeroRegion(m, base / PAGE_SIZE, size / PAGE_SIZE);
            zeroed.Get(a) == Some(0)
  {
    ZeroedByte(m, base / PAGE_SIZE, size / PAGE_SIZE, a);
  }

  /** Copied over zeros: a byte of section `i` is the file's. */
  lemma {:induction false} CopiedByte(o: Object, l: Layout, slots: nat, base: nat, copies: seq<Write>, zeroed: Memory,
                                      i: nat, a: nat)
    requires Sound(o, l, slots) && Copies(o, l.at, base) == Ok(copies)
    requires i in l.at && base + l.at[i] <= a < base + l.at[i] + o.sections[i].size && zeroed.Get(a) == Some(0)
    ensures o.sections[i].shType != SHT_NOBITS ==> o.sections[i].offset + o.sections[i].size <= |o.bytes|
    ensures StoreAll(zeroed, copies).Get(a) == Some(FileByte(o, i, a - base - l.at[i]))
  {
    CopiesPlaceBytes(o, l.at, base, zeroed, a);
    if o.sections[i].shType != SHT_NOBITS {
      assert HoldsFileBytes(o, l.at, base, i, a);
    } else {
      NoOtherFileBytes(o, l.at, base, i, a);
    }
  }

  lemma {:induction false} NoOtherFileBytes(o: Object, at: map<nat, nat>, base: nat, i: nat, a: nat)
    requires (forall j :: j in at ==> j < |o.sections|) && Apart(o.sections, at) && i in at
    requires o.sections[i].shType == SHT_NOBITS && base + at[i] <= a < base + at[i] + o.sections[i].size
    ensures forall j :: 0 <= j < |o.sections| ==> !HoldsFileBytes(o, at, base, j, a)
  {
  }

  ghost predicate Missed(ps: seq<Patch>, a: nat) {
    forall k :: 0 <= k < |ps| ==> !PatchCovers(ps[k], a)
  }

  /** Patches miss every byte of section `i` that is under no relocation. */
  ghost predicate MissedOutside(base: nat, sites: seq<Site>, ps: seq<Patch>, start: nat, size: nat) {
    forall a: nat :: start <= a < start + size && !UnderRelocation(base, sites, a) ==> Missed(ps, a)
  }

  lemma {:induction false} PatchesMiss(c: Link, l: Layout, sites: seq<Site>, ps: seq<Patch>, i: nat)
    requires |l.ends| == 3 && GotApart(c, l.at, sites, l.ends[GROUP_RODATA])
    requires AllFit(c, sites, |sites|, ps) && i in l.at
    ensures MissedOutside(c.base, sites, ps, c.base + l.at[i], c.o.sections[i].size)
  {
    var start, size := c.base + l.at[i], c.o.sections[i].size;
    forall a: nat, k | start <= a < start + size && !UnderRelocation(c.base, sites, a) && 0 <= k < |ps|
      ensures !PatchCovers(ps[k], a)
    {
      assert Disjoint(l.at[i], c.o.sections[i].size, c.gotBase, l.ends[GROUP_RODATA] - c.gotBase);
      if PatchCovers(ps[k], a) {
        PatchCoverage(c, sites, l.ends[GROUP_RODATA], k, ps[k], a);
      }
    }
  }

  lemma {:induction false} ImageByte(o: Object, l: Layout, slots: nat, base: nat, plan: Plan, m: Memory, i: nat, a: nat)
    requires Sound(o, l, slots) && base % PAGE_SIZE == 0 && Copies(o, l.at, base) == Ok(plan.copies)
    requires i in l.at && base + l.at[i] <= a < base + l.at[i] + o.sections[i].size
    ensures o.sections[i].shType != SHT_NOBITS ==> o.sections[i].offset + o.sections[i].size <= |o.bytes|
    ensures Missed(plan.patches, a) ==>
              LoadedMemory(m, base, l.size, plan).Get(a) == Some(FileByte(o, i, a - base - l.at[i]))
  {
    var zeroed := ZeroRegion(m, base / PAGE_SIZE, l.size / PAGE_SIZE);
    SectionInRegion(o, l, slots, i);
    ZeroedRegion(m, base, l.size, a);
    CopiedByte(o, l, slots, base, plan.copies, zeroed, i, a);
    if Missed(plan.patches, a) {
      ApplyAllElsewhere(StoreAll(zeroed, plan.copies), plan.patches, a);
    }
  }

  /** Section `i` of `image`, wherever no patch fell, is as in the file. */
  ghost predicate FromFile(o: Object, i: nat, start: nat, ps: seq<Patch>, image: Memory)
    requires i < |o.sections|
  {
    && (o.sections[i].shType != SHT_NOBITS ==> o.sections[i].offset + o.sections[i].size <= |o.bytes|)
    && forall a: nat :: start <= a < start + o.sections[i].size && Missed(ps, a) ==>
         image.Get(a) == Some(FileByte(o, i, a - start))
  }

  lemma {:induction false} SectionFromFile(o: Object, l: Layout, slots: nat, base: nat, plan: Plan, m: Memory, i: nat)
    requires Sound(o, l, slots) && base % PAGE_SIZE == 0 && Copies(o, l.at, base) == Ok(plan.copies) && i in l.at
    ensures FromFile(o, i, base + l.at[i], plan.patches, LoadedMemory(m, base, l.size, plan))
  {
    ImageByte(o, l, slots, base, plan, m, i, base + l.at[i]);
    forall a: nat | base + l.at[i] <= a < base + l.at[i] + o.sections[i].size && Missed(plan.patches, a)
      ensures LoadedMemory(m, base, l.size, plan).Get(a) == Some(FileByte(o, i, a - (base + l.at[i])))
    {
      ImageByte(o, l, slots, base, plan, m, i, a);
    }
  }

  lemma {:induction false} FromFileIsLinked(c: Link, at: map<nat, nat>, sites: seq<Site>, ps: seq<Patch>, image: Memory,
                                            i: nat)
    requires i in at && i < |c.o.sections| && FromFile(c.o, i, c.base + at[i], ps, image)
    requires MissedOutside(c.base, sites, ps, c.base + at[i], c.o.sections[i].size)
    ensures SectionLinked(c, at, sites, i, image)
  {
  }

  lemma {:induction false} ImageSites(c: Link, l: Layout, sites: seq<Site>, ps: seq<Patch>, m: Memory)
    requires |l.ends| == 3 && GoodSites(c.o, l.at, sites) && GotApart(c, l.at, sites, l.ends[GROUP_RODATA])
    requires c.patch == Patching(c.base, c.resolve) && AllFit(c, sites, |sites|, ps)
    ensures forall k :: 0 <= k < |sites| ==> SiteLinked(c, sites, k, ApplyAll(m, ps))
  {
    FittingPatchesApart(c, l.at, sites, l.ends[GROUP_RODATA], ps);
    AllPatchesHold(m, ps);
    forall k | 0 <= k < |sites|
      ensures SiteLinked(c, sites, k, ApplyAll(m, ps))
    {
      HeldPatchLinks(c, sites, k, ps[k], ApplyAll(m, ps));
    }
  }

  ghost predicate AllFromFile(o: Object, at: map<nat, nat>, base: nat, ps: seq<Patch>, image: Memory) {
    forall i :: i in at ==> i < |o.sections| && FromFile(o, i, base + at[i], ps, image)
  }

  lemma {:induction false} SectionsFromFile(o: Object, l: Layout, slots: nat, base: nat, plan: Plan, m: Memory)
    requires Sound(o, l, slots) && base % PAGE_SIZE == 0 && Copies(o, l.at, base) == Ok(plan.copies)
    ensures AllFromFile(o, l.at, base, plan.patches, LoadedMemory(m, base, l.size, plan))
  {
    forall i | i in l.at
      ensures FromFile(o, i, base + l.at[i], plan.patches, LoadedMemory(m, base, l.size, plan))
    {
      SectionFromFile(o, l, slots, base, plan, m, i);
    }
  }

  lemma {:induction false} ImageSections(c: Link, l: Layout, sites: seq<Site>, ps: seq<Patch>, image: Memory)
    requires |l.ends| == 3 && AllFromFile(c.o, l.at, c.base, ps, image)
    requires GotApart(c, l.at, sites, l.ends[GROUP_RODATA]) && AllFit(c, sites, |sites|, ps)
    ensures forall i :: i in l.at ==> SectionLinked(c, l.at, sites, i, image)
  {
    forall i | i in l.at
      ensures SectionLinked(c, l.at, sites, i, image)
    {
      PatchesMiss(c, l, sites, ps, i);
      FromFileIsLinked(c, l.at, sites, ps, image, i);
    }
  }

  /** The plan's stores make the linked image: sections from the file, relocations by the ABI. */
  lemma {:induction false} StoresMakeImage(c: Link, l: Layout, slots: nat, plan: Plan, m: Memory)
    requires Sound(c.o, l, slots) && GotSlots(c.o, |c.o.relaSections|) == Ok(slots) && WellFormed(c.o, l)
    requires c.base % PAGE_SIZE == 0 && c.gotBase == l.gotBase && c.patch == Patching(c.base, c.resolve)
    requires Copies(c.o, l.at, c.base) == Ok(plan.copies)
    requires Relocate(c, Sites(c.o, l)).Ok? && Relocate(c, Sites(c.o, l)).value.patches == plan.patches
    ensures Linked(c, l.at, Sites(c.o, l), LoadedMemory(m, c.base, l.size, plan))
  {
    RelocateFits(c, Sites(c.o, l));
    WellFormedSites(c.o, l);
    SoundGotApart(c, l, slots);
    SectionsFromFile(c.o, l, slots, c.base, plan, m);
    ImageSections(c, l, Sites(c.o, l), plan.patches, LoadedMemory(m, c.base, l.size, plan));
    ImageSites(c, l, Sites(c.o, l), plan.patches,
               StoreAll(ZeroRegion(m, c.base / PAGE_SIZE, l.size / PAGE_SIZE), plan.copies));
  }

  // ---- Every store stays inside the region ----

  predicate Within(w: Write, base: nat, size: nat) {
    base <= w.addr && w.addr + |w.bytes| <= base + size
  }

  lemma {:induction false} PatchWithin(c: Link, l: Layout, slots: nat, sites: seq<Site>, k: nat, p: Patch)
    requires Sound(c.o, l, slots) && c.gotBase == l.gotBase && GoodSites(c.o, l.at, sites) && k < |sites|
    requires GotApart(c, l.at, sites, l.ends[GROUP_RODATA]) && Fits(c, sites[k], SlotAddr(c, sites, k), p)
    ensures Within(p.field, c.base, l.size) && (p.ViaGot? ==> Within(p.slot, c.base, l.size))
  {
    SectionInRegion(c.o, l, slots, sites[k].section);
    if p.ViaGot? {
      SlotBounds(c, sites, k, l.ends[GROUP_RODATA]);
    }
  }

  /** Nothing outside `[base, base + size)` changes. */
  ghost predicate SameOutside(m: Memory, m': Memory, base: nat, size: nat) {
    forall a: nat :: !(base <= a < base + size) ==> m'.Get(a) == m.Get(a)
  }

  lemma {:induction false} StoresStayInside(m: Memory, ws: seq<Write>, base: nat, size: nat)
    requires forall k :: 0 <= k < |ws| ==> Within(ws[k], base, size)
    ensures SameOutside(m, StoreAll(m, ws), base, size)
  {
    forall a: nat | !(base <= a < base + size)
      ensures StoreAll(m, ws).Get(a) == m.Get(a)
    {
      StoreAllElsewhere(m, ws, a);
    }
  }

  lemma {:induction false} PatchesStayInside(m: Memory, ps: seq<Patch>, base: nat, size: nat)
    requires AllWithin(ps, base, size)
    ensures SameOutside(m, ApplyAll(m, ps), base, size)
  {
    forall a: nat | !(base <= a < base + size)
      ensures ApplyAll(m, ps).Get(a) == m.Get(a)
    {
      ApplyAllElsewhere(m, ps, a);
    }
  }

  lemma {:induction false} CopyTurnWithin(o: Object, l: Layout, slots: nat, base: nat, n: nat, ws: seq<Write>)
    requires Sound(o, l, slots) && n < |o.sections| && CopyLoop(o, l.at, base)(n, ws).Ok?
    requires forall k :: 0 <= k < |ws| ==> Within(ws[k], base, l.size)
    ensures var ws' := CopyLoop(o, l.at, base)(n, ws).value;
            forall k :: 0 <= k < |ws'| ==> Within(ws'[k], base, l.size)
  {
    if n in l.at {
      SectionInRegion(o, l, slots, n);
    }
  }

  lemma {:induction false} CopiesWithin(o: Object, l: Layout, slots: nat, base: nat)
    requires Sound(o, l, slots) && Copies(o, l.at, base).Ok?
    ensures var ws := Copies(o, l.at, base).value; forall k :: 0 <= k < |ws| ==> Within(ws[k], base, l.size)
  {
    var inv := (n: nat, ws: seq<Write>) => forall k :: 0 <= k < |ws| ==> Within(ws[k], base, l.size);
    forall n: nat, ws: seq<Write> | n < |o.sections| && inv(n, ws) && CopyLoop(o, l.at, base)(n, ws).Ok?
      ensures inv(n + 1, CopyLoop(o, l.at, base)(n, ws).value)
    {
      CopyTurnWithin(o, l, slots, base, n, ws);
    }
    FoldInvariant(CopyLoop(o, l.at, base), |o.sections|, [], inv);
  }

  lemma {:induction false} ZeroStaysInside(m: Memory, base: nat, size: nat)
    requires base % PAGE_SIZE == 0 && size % PAGE_SIZE == 0
    ensures SameOutside(m, ZeroRegion(m, base / PAGE_SIZE, size / PAGE_SIZE), base, size)
  {
    var first, n := base / PAGE_SIZE, size / PAGE_SIZE;
    forall a: nat | !(base <= a < base + size)
      ensures ZeroRegion(m, first, n).Get(a) == m.Get(a)
    {
      ZeroedByte(m, first, n, a);
    }
  }

  /** A load changes nothing outside its region. */
  lemma {:induction false} StoresKeepTheRest(c: Link, l: Layout, slots: nat, plan: Plan, m: Memory)
    requires Sound(c.o, l, slots) && GotSlots(c.o, |c.o.relaSections|) == Ok(slots) && WellFormed(c.o, l)
    requires c.base % PAGE_SIZE == 0 && c.gotBase == l.gotBase && c.patch == Patching(c.base, c.resolve)
    requires Copies(c.o, l.at, c.base) == Ok(plan.copies)
    requires Relocate(c, Sites(c.o, l)).Ok? && Relocate(c, Sites(c.o, l)).value.patches == plan.patches
    ensures SameOutside(m, LoadedMemory(m, c.base, l.size, plan), c.base, l.size)
  {
    var zeroed := ZeroRegion(m, c.base / PAGE_SIZE, l.size / PAGE_SIZE);
    ZeroStaysInside(m, c.base, l.size);
    CopiesWithin(c.o, l, slots, c.base);
    StoresStayInside(zeroed, plan.copies, c.base, l.size);
    AllPatchesWithin(c, l, slots, plan.patches);
    PatchesStayInside(StoreAll(zeroed, plan.copies), plan.patches, c.base, l.size);
  }

  ghost predicate AllWithin(ps: seq<Patch>, base: nat, size: nat) {
    forall k :: 0 <= k < |ps| ==> Within(ps[k].field, base, size) && (ps[k].ViaGot? ==> Within(ps[k].slot, base, size))
  }

  lemma {:induction false} FittingPatchesWithin(c: Link, l: Layout, slots: nat, sites: seq<Site>, ps: seq<Patch>)
    requires Sound(c.o, l, slots) && c.gotBase == l.gotBase && GoodSites(c.o, l.at, sites)
    requires GotApart(c, l.at, sites, l.ends[GROUP_RODATA]) && AllFit(c, sites, |sites|, ps)
    ensures AllWithin(ps, c.base, l.size)
  {
    forall k | 0 <= k < |ps|
      ensures Within(ps[k].field, c.base, l.size) && (ps[k].ViaGot? ==> Within(ps[k].slot, c.base, l.size))
    {
      PatchWithin(c, l, slots, sites, k, ps[k]);
    }
  }

  lemma {:induction false} AllPatchesWithin(c: Link, l: Layout, slots: nat, ps: seq<Patch>)
    requires Sound(c.o, l, slots) && GotSlots(c.o, |c.o.relaSections|) == Ok(slots) && WellFormed(c.o, l)
    requires c.gotBase == l.gotBase && c.patch == Patching(c.base, c.resolve)
    requires Relocate(c, Sites(c.o, l)).Ok? && Relocate(c, Sites(c.o, l)).value.patches == ps
    ensures AllWithin(ps, c.base, l.size)
  {
    RelocateFits(c, Sites(c.o, l));
    WellFormedSites(c.o, l);
    SoundGotApart(c, l, slots);
    FittingPatchesWithin(c, l, slots, Sites(c.o, l), ps);
  }
}
