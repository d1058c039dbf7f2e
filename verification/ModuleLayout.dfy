/** Where a module's sections go: pass 1 of the loader. */
module ModuleLayout {
  import opened Words
  import opened ElfObject

  const PAGE_SIZE: u64 := 4096
  const SHF_WRITE := 0  // bit numbers of `sh_flags`
  const SHF_ALLOC := 1
  const SHF_EXECINSTR := 2
  const GROUP_TEXT: nat := 0
  const GROUP_RODATA: nat := 1
  const GROUP_DATA: nat := 2
  const R_X86_64_GOTPCREL: u32 := 9

  // ---- Arithmetic with the build's overflow checks ----

  function CheckedAdd(a: nat, b: nat): Result<nat> {
    if a + b < TWO_64 then Ok(a + b) else Stopped(Panic)
  }

  function CheckedMul(a: nat, b: nat): Result<nat> {
    if a * b < TWO_64 then Ok(a * b) else Stopped(Panic)
  }

  function CheckedSub(a: nat, b: nat): Result<nat> {
    if b <= a then Ok(a - b) else Stopped(Panic)
  }

  /** `align_up`, mask and all. */
  function AlignUp(value: nat, align: u64): Result<nat> {
    if align <= 1 then Ok(value)
    else
      var x :- CheckedAdd(value, align);
      Ok(And(x - 1, TWO_64 - align))
  }

  ghost predicate GoodAlign(align: u64) {
    align == 0 || IsPow2(align)
  }

  /** `x` is the least multiple of `align` from `value` up. */
  predicate IsCeiling(x: nat, value: nat, align: nat) {
    if align <= 1 then x == value else value <= x < value + align && x % align == 0
  }

  lemma {:induction false} SubModIsMultiple(x: nat, a: nat)
    requires a > 0
    ensures (x - x % a) % a == 0
  {
    var q := x / a;
    assert x - x % a == a * q;
    ModUnique(a * q, a, q, 0);
  }

  lemma {:induction false} MaskClears(x: nat, align: u64)
    requires IsPow2(align) && x < TWO_64
    ensures And(x, TWO_64 - align) == x - x % align
  {
    var k: nat :| align == Pow2(k);
    Pow2_64();
    if k > 64 {
      Pow2Monotone(64, k);
    }
    AndClearsLowBits(x, k, 64);
  }

  /** The mask computes the ceiling, for 0, 1 and every power of two. */
  lemma {:induction false} AlignUpIsCeiling(value: nat, align: u64)
    requires GoodAlign(align)
    ensures AlignUp(value, align).Ok? ==> IsCeiling(AlignUp(value, align).value, value, align)
    ensures AlignUp(value, align).Stopped? <==> align > 1 && value + align >= TWO_64
  {
    var x := value + align - 1;
    if align > 1 && value + align < TWO_64 {
      MaskClears(x, align);
      SubModIsMultiple(x, align);
    }
  }

  lemma PageIsPow2()
    ensures GoodAlign(PAGE_SIZE) && GoodAlign(8)
  {
    assert Pow2(8) == 256;
    assert Pow2(12) == PAGE_SIZE;
    assert Pow2(3) == 8;
  }

  function PageCeil(x: nat): (r: nat)
    ensures r >= x && r % PAGE_SIZE == 0
  {
    (x + PAGE_SIZE - 1) / PAGE_SIZE * PAGE_SIZE
  }

  lemma {:induction false} PageAlignUp(value: nat)
    ensures AlignUp(value, PAGE_SIZE).Ok? ==> AlignUp(value, PAGE_SIZE).value == PageCeil(value)
    ensures AlignUp(value, PAGE_SIZE).Ok? <==> value + PAGE_SIZE < TWO_64
  {
    PageIsPow2();
    AlignUpIsCeiling(value, PAGE_SIZE);
  }

  // ---- The layout ----

  predicate Placeable(s: Section) {
    Bit(s.flags, SHF_ALLOC) && s.size != 0
  }

  /** `section_group`. */
  function SectionGroup(flags: nat): nat {
    if Bit(flags, SHF_EXECINSTR) then GROUP_TEXT
    else if Bit(flags, SHF_WRITE) then GROUP_DATA
    else GROUP_RODATA
  }

  predicate InGroup(s: Section, g: nat) {
    Placeable(s) && SectionGroup(s.flags) == g
  }

  datatype Cursor = Cursor(at: map<nat, nat>, end: nat)

  /** The sections of group `g` among the first `n`, placed one after another from `start`. */
  function PlaceGroup(sections: seq<Section>, g: nat, n: nat, start: Cursor): Result<Cursor>
    requires n <= |sections|
  {
    if n == 0 then Ok(start)
    else
      var c :- PlaceGroup(sections, g, n - 1, start);
      var s := sections[n - 1];
      if !InGroup(s, g) then Ok(c)
      else
        var a :- AlignUp(c.end, s.addralign);
        var end :- CheckedAdd(a, s.size);
        Ok(Cursor(c.at[n - 1 := a], end))
  }

  function CountGot(relocs: seq<Relocation>): nat {
    if relocs == [] then 0
    else CountGot(relocs[..|relocs| - 1]) + if relocs[|relocs| - 1].kind == R_X86_64_GOTPCREL then 1 else 0
  }

  /** The slots one RELA section needs. */
  function SlotsIn(o: Object, meta: RelaMeta): (r: Result<nat>)
    ensures r.Stopped? ==> r.why.Error?
  {
    var relocs :- Relocations(o, meta);
    Ok(CountGot(relocs))
  }

  /** GOT slots the first `k` RELA sections need. */
  function GotSlots(o: Object, k: nat): (r: Result<nat>)
    requires k <= |o.relaSections|
    ensures r.Stopped? ==> r.why.Error?
  {
    if k == 0 then Ok(0)
    else
      var slots :- GotSlots(o, k - 1);
      var more :- SlotsIn(o, o.relaSections[k - 1]);
      Ok(slots + more)
  }

  datatype Pass = Pass(cursor: Cursor, ends: seq<nat>, gotBase: nat)

  function GroupPass(o: Object, g: nat, p: Pass): Result<Pass>
  {
    var start :- AlignUp(p.cursor.end, PAGE_SIZE);
    var c :- PlaceGroup(o.sections, g, |o.sections|, p.cursor.(end := start));
    if g != GROUP_RODATA then Ok(Pass(c, p.ends + [c.end], p.gotBase))
    else
      var got :- AlignUp(c.end, 8);
      var slots :- GotSlots(o, |o.relaSections|);
      var room :- CheckedMul(slots, 8);
      var end :- CheckedAdd(got, room);
      Ok(Pass(c.(end := end), p.ends + [end], got))
  }

  function Passes(o: Object, n: nat): (r: Result<Pass>)
    ensures r.Ok? ==> |r.value.ends| == n
  {
    if n == 0 then Ok(Pass(Cursor(map[], 0), [], 0))
    else
      var p :- Passes(o, n - 1);
      GroupPass(o, n - 1, p)
  }

  /** `at`: each placed section's offset; `ends`: each group's end; the region's size in bytes. */
  datatype Layout = Layout(at: map<nat, nat>, ends: seq<nat>, gotBase: nat, size: nat)

  function LayOut(o: Object): (r: Result<Layout>)
    ensures r.Ok? ==> |r.value.ends| == 3
  {
    var p :- Passes(o, 3);
    var size :- AlignUp(p.cursor.end, PAGE_SIZE);
    Ok(Layout(p.cursor.at, p.ends, p.gotBase, size))
  }

  method CountGotRelocations(relocs: seq<Relocation>) returns (slots: nat)
    ensures slots == CountGot(relocs)
  {
    slots := 0;
    for j := 0 to |relocs|
      invariant slots == CountGot(relocs[..j])
    {
      assert relocs[..j + 1][..j] == relocs[..j];
      if relocs[j].kind == R_X86_64_GOTPCREL {
        slots := slots + 1;
      }
    }
    assert relocs[..|relocs|] == relocs;
  }

  /** One turn of the counting loop. */
  method CountNext(o: Object, k: nat, slots: nat) returns (r: Result<nat>)
    requires k < |o.relaSections| && GotSlots(o, k) == Ok(slots)
    ensures r == GotSlots(o, k + 1) && (r.Stopped? ==> r == GotSlots(o, |o.relaSections|))
  {
    var relocs := Relocations(o, o.relaSections[k]);
    if relocs.Stopped? {
      GotSlotsStop(o, k + 1, |o.relaSections|);
      return Stopped(relocs.why);
    }
    var more := CountGotRelocations(relocs.value);
    return Ok(slots + more);
  }

  /** `got_slots_needed`. */
  method GotSlotsNeeded(o: Object) returns (r: Result<nat>)
    ensures r == GotSlots(o, |o.relaSections|) && (r.Stopped? ==> r.why.Error?)
  {
    var slots: nat := 0;
    for k := 0 to |o.relaSections|
      invariant GotSlots(o, k) == Ok(slots)
    {
      var next := CountNext(o, k, slots);
      if next.Stopped? { return next; }
      slots := next.value;
    }
    return Ok(slots);
  }

  lemma {:induction false} GotSlotsStop(o: Object, k: nat, n: nat)
    requires k <= n <= |o.relaSections| && GotSlots(o, k).Stopped?
    ensures GotSlots(o, n) == GotSlots(o, k)
    decreases n - k
  {
    if k < n {
      GotSlotsStop(o, k + 1, n);
    }
  }

  /** Counting the GOT slots checks every RELA section's bounds. */
  lemma {:induction false} CountedRelocations(o: Object, k: nat, n: nat)
    requires k < n <= |o.relaSections| && GotSlots(o, n).Ok?
    ensures Relocations(o, o.relaSections[k]).Ok?
  {
    if k < n - 1 {
      CountedRelocations(o, k, n - 1);
    }
  }

  lemma {:induction false} PlaceGroupStop(sections: seq<Section>, g: nat, k: nat, n: nat, start: Cursor)
    requires k <= n <= |sections| && PlaceGroup(sections, g, k, start).Stopped?
    ensures PlaceGroup(sections, g, n, start) == PlaceGroup(sections, g, k, start)
    decreases n - k
  {
    if k < n {
      PlaceGroupStop(sections, g, k + 1, n, start);
    }
  }

  /** The inner loop: one group's sections. */
  method PlaceOneGroup(sections: seq<Section>, g: nat, start: Cursor) returns (r: Result<Cursor>)
    ensures r == PlaceGroup(sections, g, |sections|, start) && (r.Stopped? ==> r.why == Panic)
  {
    var placements: map<nat, nat>, cursor: nat := start.at, start.end;
    for i := 0 to |sections|
      invariant PlaceGroup(sections, g, i, start) == Ok(Cursor(placements, cursor))
    {
      var s := sections[i];
      if !Bit(s.flags, SHF_ALLOC) || s.size == 0 || SectionGroup(s.flags) != g {
        continue;
      }
      var a := AlignUp(cursor, s.addralign);
      if a.Stopped? || CheckedAdd(a.value, s.size).Stopped? {
        PlaceGroupStop(sections, g, i + 1, |sections|, start);
        return Stopped(Panic);
      }
      cursor := a.value;
      placements := placements[i := cursor];
      cursor := cursor + s.size;
    }
    return Ok(Cursor(placements, cursor));
  }

  /** Pass 1 of `load`. */
  method ComputeLayout(o: Object) returns (r: Result<Layout>)
    ensures r == LayOut(o) && (r.Stopped? ==> r.why != PageFault)
  {
    var cursor, ends, gotBase := Cursor(map[], 0), [], 0;
    for g := 0 to 3
      invariant Passes(o, g) == Ok(Pass(cursor, ends, gotBase))
    {
      assert Passes(o, g + 1) == GroupPass(o, g, Pass(cursor, ends, gotBase));
      assert Passes(o, g + 1).Stopped? ==> LayOut(o) == Stopped(Passes(o, g + 1).why) by { PassesStop(o, g + 1, 3); }
      var start :- AlignUp(cursor.end, PAGE_SIZE);
      var placed := PlaceOneGroup(o.sections, g, cursor.(end := start));
      cursor :- placed;
      if g == GROUP_RODATA {
        gotBase :- AlignUp(cursor.end, 8);
        var counted := GotSlotsNeeded(o);
        var slots :- counted;
        var room :- CheckedMul(slots, 8);
        var end :- CheckedAdd(gotBase, room);
        cursor := cursor.(end := end);
      }
      ends := ends + [cursor.end];
    }
    var size :- AlignUp(cursor.end, PAGE_SIZE);
    return Ok(Layout(cursor.at, ends, gotBase, size));
  }

  lemma {:induction false} PassesStop(o: Object, k: nat, n: nat)
    requires k <= n
    ensures Passes(o, k).Stopped? ==> Passes(o, n) == Passes(o, k)
    decreases n - k
  {
    if k < n {
      PassesStop(o, k + 1, n);
    }
  }
}
