/** The page flags the firmware's own page table gets. */
module EfiPages {
  import opened Words

  const RUNTIME_SERVICES_CODE: u32 := 5
  const MEMORY_MAPPED_IO: u32 := 11
  const MEMORY_MAPPED_IO_PORT_SPACE: u32 := 12

  // Attribute bits, by number.
  const EFI_MEMORY_UC: nat := 0
  const EFI_MEMORY_XP: nat := 14
  const EFI_MEMORY_RO: nat := 17
  const EFI_MEMORY_RUNTIME: nat := 63

  const PAGE: nat := 4096
  const MOST_PAGES: nat := 0x10_0000

  datatype Flags = Flags(writable: bool, noExecute: bool, noCache: bool, writeThrough: bool)

  /** A memory map descriptor, and an attributes table entry. */
  datatype Descriptor = Descriptor(kind: u32, start: u64, count: u64, attr: u64)

  datatype Attribute = Attribute(start: u64, count: u64, attr: u64)

  type Pages = map<nat, Flags>

  predicate Runtime(d: Descriptor) {
    Bit(d.attr, EFI_MEMORY_RUNTIME) && d.count <= MOST_PAGES
  }

  function FlagsFor(d: Descriptor, nx: bool): Flags {
    if d.kind == RUNTIME_SERVICES_CODE then Flags(true, false, false, false)
    else if d.kind == MEMORY_MAPPED_IO || d.kind == MEMORY_MAPPED_IO_PORT_SPACE then Flags(true, nx, true, true)
    else if Bit(d.attr, EFI_MEMORY_UC) then Flags(true, nx, true, false)
    else Flags(true, nx, false, false)
  }

  function Capped(count: nat): nat {
    if count < MOST_PAGES then count else MOST_PAGES
  }

  /** Page address `p` is one of the `count` pages from `start`. */
  predicate Covers(start: nat, count: nat, p: nat) {
    start <= p < start + count * PAGE && (p - start) % PAGE == 0
  }

  // ---- What the flags should be ----

  /** The flags of the last runtime descriptor, of the first `n`, that covers `p`. */
  function LastFlags(ds: seq<Descriptor>, n: nat, nx: bool, p: nat): Option<Flags>
    requires n <= |ds|
  {
    if n == 0 then None
    else if Runtime(ds[n - 1]) && Covers(ds[n - 1].start, ds[n - 1].count, p) then Some(FlagsFor(ds[n - 1], nx))
    else LastFlags(ds, n - 1, nx, p)
  }

  /** Some entry covers `p` and has attribute bit `bit`. */
  predicate Says(attrs: seq<Attribute>, bit: nat, p: nat) {
    exists a :: a in attrs && Covers(a.start, Capped(a.count), p) && Bit(a.attr, bit)
  }

  function Narrowed(f: Flags, readOnly: bool, noExecute: bool, nx: bool): Flags {
    f.(writable := f.writable && !readOnly, noExecute := f.noExecute || (noExecute && nx))
  }

  function FinalFlags(ds: seq<Descriptor>, attrs: seq<Attribute>, nx: bool, p: nat): Option<Flags> {
    match LastFlags(ds, |ds|, nx, p)
    case None => None
    case Some(f) => Some(Narrowed(f, Says(attrs, EFI_MEMORY_RO, p), Says(attrs, EFI_MEMORY_XP, p), nx))
  }

  // ---- The loops ----

  /** The addresses of `count` pages from `start` don't overflow. */
  predicate Addressable(start: nat, count: nat) {
    count > 0 ==> start + (count - 1) * PAGE < TWO_64
  }

  lemma {:induction false} CoversNext(start: nat, i: nat, p: nat)
    ensures Covers(start, i + 1, p) <==> Covers(start, i, p) || p == start + i * PAGE
  {
    if start <= p && (p - start) % PAGE == 0 {
      var k := (p - start) / PAGE;
      assert p == start + k * PAGE;
    }
  }

  /** The pages of one descriptor; `None` where an address overflows. */
  method MapDescriptor(pages: Pages, d: Descriptor, flags: Flags) returns (r: Option<Pages>)
    ensures r.Some? <==> Addressable(d.start, d.count)
    ensures r.Some? ==> forall p: nat :: (p in r.value <==> p in pages || Covers(d.start, d.count, p))
                                         && (p in r.value ==>
                                              r.value[p] == if Covers(d.start, d.count, p) then flags else pages[p])
  {
    var out: Pages := pages;
    for i: nat := 0 to d.count
      invariant Addressable(d.start, i)
      invariant forall p: nat :: (p in out <==> p in pages || Covers(d.start, i, p))
                                 && (p in out ==> out[p] == if Covers(d.start, i, p) then flags else pages[p])
    {
      var p: nat := d.start + i * PAGE;
      if p >= TWO_64 {
        return None;
      }
      out := out[p := flags];
      forall q: nat
        ensures Covers(d.start, i + 1, q) <==> Covers(d.start, i, q) || q == p
      {
        CoversNext(d.start, i, q);
      }
    }
    return Some(out);
  }

  /** What one attributes entry does to a page's flags. */
  function Refine(f: Flags, a: Attribute, nx: bool): Flags {
    Narrowed(f, Bit(a.attr, EFI_MEMORY_RO), Bit(a.attr, EFI_MEMORY_XP), nx)
  }

  /** The pages of one attributes entry; `None` where an address overflows. */
  method RefineEntry(pages: Pages, a: Attribute, nx: bool) returns (r: Option<Pages>)
    ensures r.Some? <==> Addressable(a.start, Capped(a.count))
    ensures r.Some? ==> r.value.Keys == pages.Keys
    ensures r.Some? ==> forall p: nat :: p in pages ==>
                          r.value[p] == if Covers(a.start, Capped(a.count), p) then Refine(pages[p], a, nx)
                                        else pages[p]
  {
    var out: Pages := pages;
    for i: nat := 0 to Capped(a.count)
      invariant Addressable(a.start, i) && out.Keys == pages.Keys
      invariant forall p: nat :: p in pages ==>
                  out[p] == if Covers(a.start, i, p) then Refine(pages[p], a, nx) else pages[p]
    {
      var p: nat := a.start + i * PAGE;
      if p >= TWO_64 {
        return None;
      }
      if p in out {
        assert !Covers(a.start, i, p);
        var f := out[p];
        if Bit(a.attr, EFI_MEMORY_RO) {
          f := f.(writable := false);
        }
        if Bit(a.attr, EFI_MEMORY_XP) {
          f := f.(noExecute := f.noExecute || nx);
        }
        out := out[p := f];
      }
      forall q: nat
        ensures Covers(a.start, i + 1, q) <==> Covers(a.start, i, q) || q == p
      {
        CoversNext(a.start, i, q);
      }
    }
    return Some(out);
  }

  /** The page writable and executable. */
  predicate Rwx(f: Flags) {
    f.writable && !f.noExecute
  }

  ghost function RwxPages(pages: Pages): set<nat> {
    set p | p in pages && Rwx(pages[p])
  }

  method CountRwx(pages: Pages) returns (rwx: nat)
    ensures rwx == |RwxPages(pages)|
  {
    rwx := 0;
    var rest := pages.Keys;
    ghost var counted: set<nat> := {};
    while rest != {}
      invariant rest <= pages.Keys && rwx == |counted|
      invariant forall p :: p in counted <==> p in pages && p !in rest && Rwx(pages[p])
      decreases |rest|
    {
      var p :| p in rest;
      rest := rest - {p};
      if Rwx(pages[p]) {
        rwx := rwx + 1;
        counted := counted + {p};
      }
    }
    assert RwxPages(pages) == counted;
  }

  // ---- The whole map ----

  ghost predicate Mapped(pages: Pages, ds: seq<Descriptor>, n: nat, nx: bool)
    requires n <= |ds|
  {
    forall p: nat :: (p in pages <==> LastFlags(ds, n, nx, p).Some?)
                     && (p in pages ==> LastFlags(ds, n, nx, p) == Some(pages[p]))
  }

  method MapAll(ds: seq<Descriptor>, nx: bool) returns (r: Option<Pages>)
    ensures r.Some? <==> forall k :: 0 <= k < |ds| && Runtime(ds[k]) ==> Addressable(ds[k].start, ds[k].count)
    ensures r.Some? ==> Mapped(r.value, ds, |ds|, nx)
  {
    var pages: Pages := map[];
    for n := 0 to |ds|
      invariant forall k :: 0 <= k < n && Runtime(ds[k]) ==> Addressable(ds[k].start, ds[k].count)
      invariant Mapped(pages, ds, n, nx)
    {
      if !Runtime(ds[n]) {
        continue;
      }
      var next := MapDescriptor(pages, ds[n], FlagsFor(ds[n], nx));
      if next.None? {
        return None;
      }
      pages := next.value;
    }
    return Some(pages);
  }

  /** Refined by the first `n` entries. */
  ghost predicate RefinedBy(pages: Pages, base: Pages, attrs: seq<Attribute>, n: nat, nx: bool)
    requires n <= |attrs|
  {
    && pages.Keys == base.Keys
    && forall p: nat :: p in base ==>
         pages[p] == Narrowed(base[p], Says(attrs[..n], EFI_MEMORY_RO, p), Says(attrs[..n], EFI_MEMORY_XP, p), nx)
  }

  lemma {:induction false} SaysNext(attrs: seq<Attribute>, n: nat, bit: nat, p: nat)
    requires n < |attrs|
    ensures Says(attrs[..n + 1], bit, p) <==>
              Says(attrs[..n], bit, p) || (Covers(attrs[n].start, Capped(attrs[n].count), p) && Bit(attrs[n].attr, bit))
  {
    assert attrs[..n + 1] == attrs[..n] + [attrs[n]];
  }

  method RefineAll(base: Pages, attrs: seq<Attribute>, nx: bool) returns (r: Option<Pages>)
    ensures r.Some? <==> forall k :: 0 <= k < |attrs| ==> Addressable(attrs[k].start, Capped(attrs[k].count))
    ensures r.Some? ==> RefinedBy(r.value, base, attrs, |attrs|, nx)
  {
    var pages: Pages := base;
    for n := 0 to |attrs|
      invariant forall k :: 0 <= k < n ==> Addressable(attrs[k].start, Capped(attrs[k].count))
      invariant RefinedBy(pages, base, attrs, n, nx)
    {
      var next := RefineEntry(pages, attrs[n], nx);
      if next.None? {
        return None;
      }
      forall p: nat | p in base
        ensures next.value[p]
                == Narrowed(base[p], Says(attrs[..n + 1], EFI_MEMORY_RO, p), Says(attrs[..n + 1], EFI_MEMORY_XP, p), nx)
      {
        SaysNext(attrs, n, EFI_MEMORY_RO, p);
        SaysNext(attrs, n, EFI_MEMORY_XP, p);
      }
      pages := next.value;
    }
    return Some(pages);
  }

  /** The flags of every page, and how many are writable and executable; `None` where an address
      overflows. */
  method PageFlags(ds: seq<Descriptor>, attrs: seq<Attribute>, nx: bool) returns (r: Option<(Pages, nat)>)
    ensures r.Some? ==> forall p: nat :: p in r.value.0 <==> FinalFlags(ds, attrs, nx, p).Some?
    ensures r.Some? ==> forall p: nat :: p in r.value.0 ==> FinalFlags(ds, attrs, nx, p) == Some(r.value.0[p])
    ensures r.Some? ==> r.value.1 == |RwxPages(r.value.0)|
    ensures r.Some? <==>
              && (forall k :: 0 <= k < |ds| && Runtime(ds[k]) ==> Addressable(ds[k].start, ds[k].count))
              && (forall k :: 0 <= k < |attrs| ==> Addressable(attrs[k].start, Capped(attrs[k].count)))
  {
    var base := MapAll(ds, nx);
    if base.None? {
      return None;
    }
    var pages := RefineAll(base.value, attrs, nx);
    if pages.None? {
      return None;
    }
    assert attrs[..|attrs|] == attrs;
    var rwx := CountRwx(pages.value);
    return Some((pages.value, rwx));
  }

  // ---- What the flags mean ----

  /** The order of the attributes entries, and repeating one, makes no difference. */
  lemma {:induction false} AttributeOrderIrrelevant(ds: seq<Descriptor>, attrs: seq<Attribute>, attrs': seq<Attribute>,
                                                    nx: bool, p: nat)
    requires forall a :: a in attrs <==> a in attrs'
    ensures FinalFlags(ds, attrs, nx, p) == FinalFlags(ds, attrs', nx, p)
  {
    assert Says(attrs, EFI_MEMORY_RO, p) <==> Says(attrs', EFI_MEMORY_RO, p);
    assert Says(attrs, EFI_MEMORY_XP, p) <==> Says(attrs', EFI_MEMORY_XP, p);
  }

  /** Attributes add no page and no permission. */
  lemma {:induction false} AttributesOnlyNarrow(ds: seq<Descriptor>, attrs: seq<Attribute>, nx: bool, p: nat)
    ensures FinalFlags(ds, attrs, nx, p).Some? <==> FinalFlags(ds, [], nx, p).Some?
    ensures FinalFlags(ds, attrs, nx, p).Some? ==>
              var f, g := FinalFlags(ds, attrs, nx, p).value, FinalFlags(ds, [], nx, p).value;
              (f.writable ==> g.writable) && (g.noExecute ==> f.noExecute) && f.noCache == g.noCache
              && f.writeThrough == g.writeThrough
  {
  }

  /** The last descriptor to cover a page decides: a later one that doesn't is no matter. */
  lemma {:induction false} LastDescriptorDecides(ds: seq<Descriptor>, n: nat, k: nat, nx: bool, p: nat)
    requires k < n <= |ds| && Runtime(ds[k]) && Covers(ds[k].start, ds[k].count, p)
    requires forall j :: k < j < n ==> !(Runtime(ds[j]) && Covers(ds[j].start, ds[j].count, p))
    ensures LastFlags(ds, n, nx, p) == Some(FlagsFor(ds[k], nx))
  {
    if k < n - 1 {
      LastDescriptorDecides(ds, n - 1, k, nx, p);
    }
  }
}
