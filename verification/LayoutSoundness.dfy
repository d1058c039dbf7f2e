/** Every layout the loader computes keeps its sections apart and its permission groups on pages of
    their own. */
module LayoutSoundness {
  import opened Words
  import opened ElfObject
  import opened ModuleLayout

  ghost predicate GoodAligns(sections: seq<Section>) {
    forall i :: 0 <= i < |sections| && Placeable(sections[i]) ==> GoodAlign(sections[i].addralign)
  }

  predicate Aligned(a: nat, align: nat) {
    align <= 1 || a % align == 0
  }

  /** `c` is `start` with the sections of group `g` among the first `n` added: in order, aligned,
      between `start.end` and `c.end`. */
  ghost predicate Extends(sections: seq<Section>, g: nat, n: nat, start: Cursor, c: Cursor)
    requires n <= |sections|
  {
    && start.end <= c.end
    && (forall i :: i in c.at <==> i in start.at || (0 <= i < n && InGroup(sections[i], g)))
    && (forall i :: i in start.at ==> c.at[i] == start.at[i])
    && Between(sections, g, n, c.at, start.end, c.end) && InOrder(sections, g, n, c.at)
  }

  /** The sections of group `g` among the first `n` lie aligned in `[from, to)`. */
  ghost predicate Between(sections: seq<Section>, g: nat, n: nat, at: map<nat, nat>, from: nat, to: nat)
    requires n <= |sections|
  {
    forall i :: 0 <= i < n && InGroup(sections[i], g) ==>
      i in at && from <= at[i] <= at[i] + sections[i].size <= to && Aligned(at[i], sections[i].addralign)
  }

  ghost predicate InOrder(sections: seq<Section>, g: nat, n: nat, at: map<nat, nat>)
    requires n <= |sections|
  {
    forall i, j :: 0 <= i < j < n && InGroup(sections[i], g) && InGroup(sections[j], g) ==>
      i in at && j in at && at[i] + sections[i].size <= at[j]
  }

  lemma {:induction false} BetweenByOne(sections: seq<Section>, g: nat, n: nat, at: map<nat, nat>, from: nat, end: nat,
                                        a: nat)
    requires n < |sections| && from <= end && Between(sections, g, n, at, from, end) && InOrder(sections, g, n, at)
    requires IsCeiling(a, end, sections[n].addralign)
    ensures Between(sections, g, n + 1, at[n := a], from, a + sections[n].size)
            && InOrder(sections, g, n + 1, at[n := a])
  {
  }

  lemma {:induction false} BetweenByNone(sections: seq<Section>, g: nat, n: nat, at: map<nat, nat>, from: nat, to: nat)
    requires n < |sections| && !InGroup(sections[n], g) && Between(sections, g, n, at, from, to)
             && InOrder(sections, g, n, at)
    ensures Between(sections, g, n + 1, at, from, to) && InOrder(sections, g, n + 1, at)
  {
  }

  lemma {:induction false} ExtendsByOne(sections: seq<Section>, g: nat, n: nat, start: Cursor, c: Cursor, a: nat)
    requires n < |sections| && Extends(sections, g, n, start, c) && InGroup(sections[n], g) && n !in start.at
    requires IsCeiling(a, c.end, sections[n].addralign)
    ensures Extends(sections, g, n + 1, start, Cursor(c.at[n := a], a + sections[n].size))
  {
    BetweenByOne(sections, g, n, c.at, start.end, c.end, a);
  }

  lemma {:induction false} ExtendsByNone(sections: seq<Section>, g: nat, n: nat, start: Cursor, c: Cursor)
    requires n < |sections| && Extends(sections, g, n, start, c) && !InGroup(sections[n], g)
    ensures Extends(sections, g, n + 1, start, c)
  {
    BetweenByNone(sections, g, n, c.at, start.end, c.end);
  }

  lemma {:induction false} PlaceOne(sections: seq<Section>, g: nat, n: nat, start: Cursor, c: Cursor) returns (a: nat)
    requires n < |sections| && InGroup(sections[n], g) && GoodAlign(sections[n].addralign)
    requires PlaceGroup(sections, g, n, start) == Ok(c) && PlaceGroup(sections, g, n + 1, start).Ok?
    ensures IsCeiling(a, c.end, sections[n].addralign)
    ensures PlaceGroup(sections, g, n + 1, start) == Ok(Cursor(c.at[n := a], a + sections[n].size))
  {
    AlignUpIsCeiling(c.end, sections[n].addralign);
    a := AlignUp(c.end, sections[n].addralign).value;
  }

  lemma {:induction false} PlaceStep(sections: seq<Section>, g: nat, n: nat, start: Cursor, c: Cursor)
    requires n < |sections| && PlaceGroup(sections, g, n, start) == Ok(c) && PlaceGroup(sections, g, n + 1, start).Ok?
    requires Extends(sections, g, n, start, c)
    requires InGroup(sections[n], g) ==> n !in start.at && GoodAlign(sections[n].addralign)
    ensures Extends(sections, g, n + 1, start, PlaceGroup(sections, g, n + 1, start).value)
  {
    if InGroup(sections[n], g) {
      var a := PlaceOne(sections, g, n, start, c);
      ExtendsByOne(sections, g, n, start, c, a);
    } else {
      ExtendsByNone(sections, g, n, start, c);
    }
  }

  lemma {:induction false} PlaceGroupExtends(sections: seq<Section>, g: nat, n: nat, start: Cursor)
    requires n <= |sections| && GoodAligns(sections) && PlaceGroup(sections, g, n, start).Ok?
    requires forall i :: i in start.at ==> i < |sections| && !InGroup(sections[i], g)
    ensures Extends(sections, g, n, start, PlaceGroup(sections, g, n, start).value)
  {
    if n > 0 {
      PlaceGroupExtends(sections, g, n - 1, start);
      PlaceStep(sections, g, n - 1, start, PlaceGroup(sections, g, n - 1, start).value);
    }
  }

  /** A group starts on the first page boundary after the one before it. */
  function StartOf(ends: seq<nat>, g: nat): nat
    requires g <= |ends|
  {
    if g == 0 then 0 else PageCeil(ends[g - 1])
  }

  /** Where a group's sections end; in the read-only group the GOT follows. */
  function SectionsEnd(ends: seq<nat>, gotBase: nat, g: nat): nat
    requires g < |ends|
  {
    if g == GROUP_RODATA then gotBase else ends[g]
  }

  ghost predicate PlacedWell(s: Section, a: nat, ends: seq<nat>, gotBase: nat)
    requires SectionGroup(s.flags) < |ends|
  {
    var g := SectionGroup(s.flags);
    StartOf(ends, g) <= a && a + s.size <= SectionsEnd(ends, gotBase, g) && Aligned(a, s.addralign)
  }

  ghost predicate Apart(sections: seq<Section>, at: map<nat, nat>)
    requires forall i :: i in at ==> i < |sections|
  {
    forall i, j :: i in at && j in at && i != j ==>
      at[i] + sections[i].size <= at[j] || at[j] + sections[j].size <= at[i]
  }

  /** What holds once the first `|ends|` groups are placed. */
  ghost predicate SoundSoFar(o: Object, at: map<nat, nat>, ends: seq<nat>, gotBase: nat, slots: nat) {
    && (forall i :: i in at <==>
          0 <= i < |o.sections| && Placeable(o.sections[i]) && SectionGroup(o.sections[i].flags) < |ends|)
    && (forall i :: i in at ==> PlacedWell(o.sections[i], at[i], ends, gotBase))
    && Apart(o.sections, at)
    && Ordered(ends, gotBase)
    && (GROUP_RODATA < |ends| ==> gotBase % 8 == 0 && gotBase + 8 * slots == ends[GROUP_RODATA])
  }

  ghost predicate Sound(o: Object, l: Layout, slots: nat) {
    && |l.ends| == 3
    && SoundSoFar(o, l.at, l.ends, l.gotBase, slots)
    && l.size == PageCeil(l.ends[GROUP_DATA]) < TWO_64
  }

  /** One turn of the outer loop. */
  lemma {:induction false} GroupPassExtends(o: Object, g: nat, p: Pass) returns (end: nat)
    requires GoodAligns(o.sections) && GroupPass(o, g, p).Ok?
    requires forall i :: i in p.cursor.at ==> i < |o.sections| && !InGroup(o.sections[i], g)
    ensures var q := GroupPass(o, g, p).value;
            && Extends(o.sections, g, |o.sections|, p.cursor.(end := PageCeil(p.cursor.end)), q.cursor.(end := end))
            && q.ends == p.ends + [q.cursor.end]
            && (g != GROUP_RODATA ==> end == q.cursor.end && q.gotBase == p.gotBase)
            && (g == GROUP_RODATA ==>
                  && end <= q.gotBase && q.gotBase % 8 == 0
                  && GotSlots(o, |o.relaSections|).Ok?
                  && q.gotBase + 8 * GotSlots(o, |o.relaSections|).value == q.cursor.end)
  {
    PageAlignUp(p.cursor.end);
    var start := p.cursor.(end := PageCeil(p.cursor.end));
    PlaceGroupExtends(o.sections, g, |o.sections|, start);
    end := PlaceGroup(o.sections, g, |o.sections|, start).value.end;
    PageIsPow2();
    AlignUpIsCeiling(end, 8);
  }

  /** The ends and the GOT's place after group `g` joins the groups before it. */
  ghost predicate NextEnds(g: nat, gotBase: nat, sectionsEnd: nat, end: nat, gotBase': nat, slots: nat) {
    if g == GROUP_RODATA then sectionsEnd <= gotBase' && gotBase' % 8 == 0 && gotBase' + 8 * slots == end
    else sectionsEnd == end && gotBase' == gotBase
  }

  lemma {:induction false} OldStayPlaced(o: Object, at: map<nat, nat>, ends: seq<nat>, gotBase: nat, slots: nat,
                                         end: nat, gotBase': nat)
    requires SoundSoFar(o, at, ends, gotBase, slots)
    requires |ends| != GROUP_RODATA ==> gotBase' == gotBase
    ensures forall i :: i in at ==> PlacedWell(o.sections[i], at[i], ends + [end], gotBase')
    ensures forall i :: i in at ==> at[i] + o.sections[i].size <= StartOf(ends, |ends|)
  {
    var ends' := ends + [end];
    forall i | i in at
      ensures PlacedWell(o.sections[i], at[i], ends', gotBase')
      ensures at[i] + o.sections[i].size <= StartOf(ends, |ends|)
    {
      var g := SectionGroup(o.sections[i].flags);
      assert PlacedWell(o.sections[i], at[i], ends, gotBase);
      BelowStart(ends, gotBase, g, |ends|);
      assert StartOf(ends', g) == StartOf(ends, g);
      assert SectionsEnd(ends', gotBase', g) == SectionsEnd(ends, gotBase, g);
    }
  }

  lemma {:induction false} NextGroupApart(sections: seq<Section>, g: nat, start: Cursor, c: Cursor)
    requires forall i :: i in start.at ==> i < |sections| && !InGroup(sections[i], g)
    requires forall i :: i in start.at ==> start.at[i] + sections[i].size <= start.end
    requires Apart(sections, start.at) && Extends(sections, g, |sections|, start, c)
    ensures forall i :: i in c.at ==> i < |sections|
    ensures Apart(sections, c.at)
  {
  }

  lemma {:induction false} NextGroupSound(o: Object, g: nat, start: Cursor, ends: seq<nat>, gotBase: nat, slots: nat,
                                          c: Cursor, end: nat, gotBase': nat)
    requires g == |ends| && SoundSoFar(o, start.at, ends, gotBase, slots)
    requires start.end == StartOf(ends, g)
    requires Extends(o.sections, g, |o.sections|, start, c) && NextEnds(g, gotBase, c.end, end, gotBase', slots)
    ensures SoundSoFar(o, c.at, ends + [end], gotBase', slots)
  {
    var ends' := ends + [end];
    OldStayPlaced(o, start.at, ends, gotBase, slots, end, gotBase');
    NextGroupApart(o.sections, g, start, c);
    assert StartOf(ends', g) == StartOf(ends, g);
    forall i | i in c.at
      ensures PlacedWell(o.sections[i], c.at[i], ends', gotBase')
    {
      if i !in start.at {
        assert InGroup(o.sections[i], g);
      }
    }
    StaysOrdered(ends, gotBase, c.end, end, gotBase', slots);
  }

  lemma {:induction false} StaysOrdered(ends: seq<nat>, gotBase: nat, sectionsEnd: nat, end: nat, gotBase': nat,
                                        slots: nat)
    requires Ordered(ends, gotBase) && StartOf(ends, |ends|) <= sectionsEnd
    requires NextEnds(|ends|, gotBase, sectionsEnd, end, gotBase', slots)
    ensures Ordered(ends + [end], gotBase')
  {
    var ends' := ends + [end];
    forall h | 0 <= h < |ends'|
      ensures OrderedAt(ends', gotBase', h)
    {
      SameStart(ends, end, h);
      if h < |ends| {
        assert OrderedAt(ends, gotBase, h);
        StaysOrderedAt(ends, ends', gotBase, gotBase', h);
      }
    }
  }

  lemma {:induction false} SameStart(ends: seq<nat>, end: nat, h: nat)
    requires h <= |ends|
    ensures StartOf(ends + [end], h) == StartOf(ends, h)
  {
  }

  lemma {:induction false} StaysOrderedAt(ends: seq<nat>, ends': seq<nat>, gotBase: nat, gotBase': nat, h: nat)
    requires h < |ends| <= |ends'| && OrderedAt(ends, gotBase, h)
    requires ends'[h] == ends[h] && StartOf(ends', h) == StartOf(ends, h) && (h == GROUP_RODATA ==> gotBase' == gotBase)
    ensures OrderedAt(ends', gotBase', h)
  {
  }

  predicate OrderedAt(ends: seq<nat>, gotBase: nat, h: nat)
    requires h < |ends|
  {
    StartOf(ends, h) <= SectionsEnd(ends, gotBase, h) <= ends[h]
  }

  ghost predicate Ordered(ends: seq<nat>, gotBase: nat) {
    forall h :: 0 <= h < |ends| ==> OrderedAt(ends, gotBase, h)
  }

  /** A group's sections lie below every later group's start. */
  lemma {:induction false} BelowStart(ends: seq<nat>, gotBase: nat, h: nat, g: nat)
    requires h < g <= |ends| && Ordered(ends, gotBase)
    ensures SectionsEnd(ends, gotBase, h) <= ends[h] <= StartOf(ends, g)
  {
    assert ends[g - 1] <= StartOf(ends, g);
    assert OrderedAt(ends, gotBase, h) && OrderedAt(ends, gotBase, g - 1);
    if h < g - 1 {
      BelowStart(ends, gotBase, h, g - 1);
    }
  }

  lemma {:induction false} PageCeilMonotone(x: nat, y: nat)
    requires x <= y
    ensures PageCeil(x) <= PageCeil(y)
  {
  }

  lemma {:induction false} GroupEnds(ends: seq<nat>, gotBase: nat)
    requires |ends| == 3 && Ordered(ends, gotBase)
    ensures ends[0] <= gotBase <= ends[1] <= ends[2]
    ensures PageCeil(ends[0]) <= PageCeil(ends[1]) <= PageCeil(ends[2])
    ensures PageCeil(ends[0]) <= gotBase && PageCeil(ends[1]) <= ends[2]
  {
    assert OrderedAt(ends, gotBase, 1) && OrderedAt(ends, gotBase, 2);
    PageCeilMonotone(ends[0], ends[1]);
    PageCeilMonotone(ends[1], ends[2]);
  }

  lemma {:induction false} GroupStart(ends: seq<nat>, end: nat)
    requires end == if ends == [] then 0 else ends[|ends| - 1]
    ensures PageCeil(end) == StartOf(ends, |ends|)
  {
  }

  lemma {:induction false} PassSound(o: Object, g: nat, p: Pass, slots: nat)
    requires g == |p.ends| && GoodAligns(o.sections) && GroupPass(o, g, p).Ok?
    requires p.cursor.end == if g == 0 then 0 else p.ends[g - 1]
    requires SoundSoFar(o, p.cursor.at, p.ends, p.gotBase, slots)
    requires GotSlots(o, |o.relaSections|).Ok? ==> slots == GotSlots(o, |o.relaSections|).value
    ensures var q := GroupPass(o, g, p).value;
            && |q.ends| == g + 1 && q.cursor.end == q.ends[g]
            && SoundSoFar(o, q.cursor.at, q.ends, q.gotBase, slots)
  {
    var sectionsEnd := GroupPassExtends(o, g, p);
    var q := GroupPass(o, g, p).value;
    var start := p.cursor.(end := PageCeil(p.cursor.end));
    GroupStart(p.ends, p.cursor.end);
    NextGroupSound(o, g, start, p.ends, p.gotBase, slots, q.cursor.(end := sectionsEnd), q.cursor.end, q.gotBase);
  }

  /** Layout soundness, for any number of sections. */
  lemma {:induction false} LayoutIsSound(o: Object)
    requires GoodAligns(o.sections) && LayOut(o).Ok?
    ensures GotSlots(o, |o.relaSections|).Ok?
    ensures Sound(o, LayOut(o).value, GotSlots(o, |o.relaSections|).value)
  {
    assert Passes(o, 3).Ok? && Passes(o, 2).Ok? && Passes(o, 1).Ok?;
    var p0 := Pass(Cursor(map[], 0), [], 0);
    var p1, p2, p3 := Passes(o, 1).value, Passes(o, 2).value, Passes(o, 3).value;
    assert Passes(o, 0) == Ok(p0);
    assert GroupPass(o, 1, p1) == Ok(p2);
    var slots := GotSlots(o, |o.relaSections|).value;
    PassSound(o, 0, p0, slots);
    PassSound(o, 1, p1, slots);
    PassSound(o, 2, p2, slots);
    PageAlignUp(p3.cursor.end);
  }

  // ---- What soundness means for pages ----

  /** No page holds bytes of two permission groups. */
  lemma {:induction false} GroupsShareNoPage(o: Object, l: Layout, slots: nat, i: nat, j: nat, x: nat, y: nat)
    requires Sound(o, l, slots) && i in l.at && j in l.at
    requires SectionGroup(o.sections[i].flags) < SectionGroup(o.sections[j].flags)
    requires l.at[i] <= x < l.at[i] + o.sections[i].size
    requires l.at[j] <= y < l.at[j] + o.sections[j].size
    ensures x / PAGE_SIZE < y / PAGE_SIZE
  {
    var h := SectionGroup(o.sections[j].flags);
    BelowStart(l.ends, l.gotBase, SectionGroup(o.sections[i].flags), h);
    assert PlacedWell(o.sections[i], l.at[i], l.ends, l.gotBase);
    assert PlacedWell(o.sections[j], l.at[j], l.ends, l.gotBase);
    BoundarySeparates(x, y, StartOf(l.ends, h));
  }

  lemma BoundarySeparates(x: nat, y: nat, boundary: nat)
    requires boundary % PAGE_SIZE == 0 && x < boundary <= y
    ensures x / PAGE_SIZE < boundary / PAGE_SIZE <= y / PAGE_SIZE
  {
  }

  // ---- Addresses ----

  /** `base + offset` is aligned exactly when `base` is, for an aligned offset. */
  lemma {:induction false} SumAligned(base: nat, offset: nat, align: nat)
    requires align > 0 && offset % align == 0
    ensures (base + offset) % align == 0 <==> base % align == 0
  {
    var q := offset / align;
    assert offset == align * q;
    assert base + offset == align * (q + base / align) + base % align by {
      assert base == align * (base / align) + base % align;
      assert align * (q + base / align) == align * q + align * (base / align);
    }
    ModUnique(base + offset, align, q + base / align, base % align);
  }

  lemma {:induction false} PageBaseAligned(base: nat, align: nat)
    requires base % PAGE_SIZE == 0 && align > 0 && PAGE_SIZE % align == 0
    ensures base % align == 0
  {
    var b, k := base / PAGE_SIZE, PAGE_SIZE / align;
    assert base == PAGE_SIZE * b && PAGE_SIZE == align * k;
    assert align * k * b == align * (k * b);
    ModUnique(base, align, k * b, 0);
  }

  /** What loading at `base` makes of a section's alignment: its address has it if and only if `base` does,
      so always when it divides the page size. */
  predicate AddressAligned(base: nat, offset: nat, align: nat) {
    align > 0 ==>
      && ((base + offset) % align == 0 <==> base % align == 0)
      && (base % PAGE_SIZE == 0 && PAGE_SIZE % align == 0 ==> (base + offset) % align == 0)
  }

  /** The layout keeps alignments relative to the region. */
  lemma {:induction false} SectionAddressAligned(o: Object, l: Layout, slots: nat, base: nat, i: nat)
    requires Sound(o, l, slots) && i in l.at
    ensures AddressAligned(base, l.at[i], o.sections[i].addralign)
  {
    var align := o.sections[i].addralign;
    assert PlacedWell(o.sections[i], l.at[i], l.ends, l.gotBase);
    if align > 0 {
      SumAligned(base, l.at[i], align);
      if base % PAGE_SIZE == 0 && PAGE_SIZE % align == 0 {
        PageBaseAligned(base, align);
      }
    }
  }
}
