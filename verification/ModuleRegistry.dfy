/** The state modules share: where regions come from, which module an address belongs to, which are
    serialized. */
module ModuleRegistry {
  import opened Words
  import opened ModuleLayout
  import opened RelocationArithmetic
  import opened LinkPlan
  import opened ModuleLoader

  const MODULE_DATA_BASE: nat := 0xffff_c000_0000_0000
  const MODULE_DATA_CEILING: nat := 0xffff_c010_0000_0000
  const MAX_SERIALIZED: nat := 8

  datatype Region = Region(base: nat, size: nat) {
    predicate Holds(a: nat) {
      base <= a < base + size
    }

    predicate Beside(other: Region) {
      base + size <= other.base || other.base + other.size <= base
    }
  }

  function RegionOf(m: LoadedModule): Region {
    Region(m.base, m.size)
  }

  /** A layout's size: whole pages. */
  type Pages = n: u64 | n % PAGE_SIZE == 0

  datatype State = State(nextCode: nat, nextData: nat, modules: seq<LoadedModule>, serialized: seq<Region>,
                         inInit: bool, fatalNow: bool)

  const BOOT: State := State(MODULE_VA_BASE, MODULE_DATA_BASE, [], [], false, true)

  /** What happens to the state. A load claims its region, and either fails after that or records the
      module and calls its `module_init`, which returns later. */
  datatype Event =
    | LoadFails(size: Pages)
    | LoadStarts(name: string, size: Pages, fatal: bool)
    | InitReturns
    | AllocZeroed(bytes: u64)
    | Serialize(caller: nat)  // the index of the module whose code makes the call
    | CallByAddress(address: u64)

  /** Claims `size` bytes from `next`, below `ceiling`. */
  function Claim(next: nat, size: nat, ceiling: nat): Option<Region> {
    if next + size > ceiling then None else Some(Region(next, size))
  }

  /** The fatal flag of the first module whose range holds `a`; fatal if none does. */
  function FatalAt(modules: seq<LoadedModule>, a: nat): bool {
    if modules == [] then true
    else if RegionOf(modules[0]).Holds(a) then modules[0].fatalOnPanic
    else FatalAt(modules[1..], a)
  }

  /** The state after an event, and the region it claimed, if any. */
  datatype Outcome = Outcome(s: State, claimed: Option<Region>)

  function LoadStep(s: State, size: Pages, m: Option<LoadedModule>): Outcome {
    var r := Claim(s.nextCode, size, MODULE_REGION_CEILING);
    if r.None? then Outcome(s, None)
    else
      var s' := s.(nextCode := s.nextCode + size);
      Outcome(if m.None? then s'
              else s'.(modules := s.modules + [m.value], inInit := true, fatalNow := m.value.fatalOnPanic), r)
  }

  function AllocStep(s: State, bytes: u64): Option<Outcome> {
    if !s.inInit then Some(Outcome(s, None))
    else match AlignUp(bytes, PAGE_SIZE)
      case Stopped(_) => None
      case Ok(size) =>
        var r := Claim(s.nextData, size, MODULE_DATA_CEILING);
        Some(Outcome(if r.Some? then s.(nextData := s.nextData + size) else s, r))
  }

  function SerializeStep(s: State): Option<Outcome> {
    if s.modules == [] then Some(Outcome(s, None))
    else if |s.serialized| >= MAX_SERIALIZED then None
    else Some(Outcome(s.(serialized := s.serialized + [RegionOf(s.modules[|s.modules| - 1])]), None))
  }

  /** One event; `None` where the kernel panics. */
  function Step(s: State, e: Event): Option<Outcome> {
    match e
    case LoadFails(size) => Some(LoadStep(s, size, None))
    case LoadStarts(name, size, fatal) => Some(LoadStep(s, size, Some(LoadedModule(name, s.nextCode, size, fatal))))
    case InitReturns => Some(Outcome(s.(inInit := false), None))
    case AllocZeroed(bytes) => AllocStep(s, bytes)
    case Serialize(_) => SerializeStep(s)
    case CallByAddress(a) => Some(Outcome(s.(fatalNow := FatalAt(s.modules, a)), None))
  }

  /** The state and every region claimed, after a run from boot. */
  datatype History = History(s: State, regions: seq<Region>)

  function Run(events: seq<Event>, n: nat): Option<History>
    requires n <= |events|
  {
    if n == 0 then Some(History(BOOT, []))
    else match Run(events, n - 1)
      case None => None
      case Some(h) => Next(h, events[n - 1])
  }

  function Next(h: History, e: Event): Option<History> {
    match Step(h.s, e)
    case None => None
    case Some(o) => Some(After(h, o))
  }

  function After(h: History, o: Outcome): History {
    History(o.s, if o.claimed.Some? then h.regions + [o.claimed.value] else h.regions)
  }

  // ---- Regions ----

  /** A claimed region: whole pages, inside its window, below what the window claims next. */
  predicate Placed(r: Region, s: State) {
    && r.base % PAGE_SIZE == 0 && r.size % PAGE_SIZE == 0
    && ( || (MODULE_VA_BASE <= r.base && r.base + r.size <= s.nextCode)
         || (MODULE_DATA_BASE <= r.base && r.base + r.size <= s.nextData))
  }

  ghost predicate AllBeside(rs: seq<Region>) {
    forall i, j :: 0 <= i < j < |rs| ==> rs[i].Beside(rs[j])
  }

  /** Modules' ranges are claimed regions, in claiming order. */
  ghost predicate ModulesPlaced(modules: seq<LoadedModule>, s: State) {
    && (forall i :: 0 <= i < |modules| ==>
         MODULE_VA_BASE <= modules[i].base && modules[i].base + modules[i].size <= s.nextCode)
    && (forall i, j :: 0 <= i < j < |modules| ==> modules[i].base + modules[i].size <= modules[j].base)
  }

  ghost predicate Invariant(h: History) {
    && h.s.nextCode % PAGE_SIZE == 0 && MODULE_VA_BASE <= h.s.nextCode <= MODULE_REGION_CEILING
    && h.s.nextData % PAGE_SIZE == 0 && MODULE_DATA_BASE <= h.s.nextData <= MODULE_DATA_CEILING
    && (forall k :: 0 <= k < |h.regions| ==> Placed(h.regions[k], h.s)) && AllBeside(h.regions)
    && ModulesPlaced(h.s.modules, h.s)
  }

  lemma {:induction false} ClaimKeeps(regions: seq<Region>, s: State, s': State, r: Region)
    requires (forall k :: 0 <= k < |regions| ==> Placed(regions[k], s)) && AllBeside(regions)
    requires s.nextCode <= MODULE_REGION_CEILING && s.nextData <= MODULE_DATA_CEILING
    requires s.nextCode <= s'.nextCode && s.nextData <= s'.nextData && r.size % PAGE_SIZE == 0
    requires || (r.base == s.nextCode && s.nextCode % PAGE_SIZE == 0 && MODULE_VA_BASE <= s.nextCode
                 && s'.nextCode == s.nextCode + r.size)
             || (r.base == s.nextData && s.nextData % PAGE_SIZE == 0 && MODULE_DATA_BASE <= s.nextData
                 && s'.nextData == s.nextData + r.size <= MODULE_DATA_CEILING)
    ensures (forall k :: 0 <= k < |regions + [r]| ==> Placed((regions + [r])[k], s')) && AllBeside(regions + [r])
  {
    forall k | 0 <= k < |regions|
      ensures Placed(regions[k], s') && regions[k].Beside(r)
    {
      assert Placed(regions[k], s);
    }
  }

  lemma {:induction false} LoadKeeps(h: History, size: Pages, m: Option<LoadedModule>)
    requires Invariant(h) && (m.Some? ==> m.value.base == h.s.nextCode && m.value.size == size)
    ensures Invariant(After(h, LoadStep(h.s, size, m)))
  {
    var o := LoadStep(h.s, size, m);
    if o.claimed.Some? {
      ClaimKeeps(h.regions, h.s, o.s, o.claimed.value);
    }
  }

  lemma {:induction false} AllocKeeps(h: History, bytes: u64)
    requires Invariant(h) && AllocStep(h.s, bytes).Some?
    ensures Invariant(After(h, AllocStep(h.s, bytes).value))
  {
    PageAlignUp(bytes);
    var o := AllocStep(h.s, bytes).value;
    if o.claimed.Some? {
      ClaimKeeps(h.regions, h.s, o.s, o.claimed.value);
    }
  }

  lemma {:induction false} StepKeeps(h: History, e: Event)
    requires Invariant(h) && Next(h, e).Some?
    ensures Invariant(Next(h, e).value)
  {
    match e
    case LoadFails(size) => LoadKeeps(h, size, None);
    case LoadStarts(name, size, fatal) => LoadKeeps(h, size, Some(LoadedModule(name, h.s.nextCode, size, fatal)));
    case AllocZeroed(bytes) => AllocKeeps(h, bytes);
    case _ =>
  }

  /** Over every run, failed loads and all: regions are whole pages inside their window and never overlap. */
  lemma {:induction false} RegionsNeverOverlap(events: seq<Event>, n: nat)
    requires n <= |events| && Run(events, n).Some?
    ensures Invariant(Run(events, n).value)
  {
    if n > 0 {
      RegionsNeverOverlap(events, n - 1);
      StepKeeps(Run(events, n - 1).value, events[n - 1]);
    }
  }

  // ---- Which module an address belongs to ----

  /** With ranges in order, the first module found is the only one. */
  lemma {:induction false} FirstMatchIsOwner(modules: seq<LoadedModule>, s: State, a: nat, i: nat)
    requires ModulesPlaced(modules, s) && i < |modules| && RegionOf(modules[i]).Holds(a)
    ensures FatalAt(modules, a) == modules[i].fatalOnPanic
  {
    if i > 0 {
      assert modules[0].base + modules[0].size <= modules[i].base;
      var rest := modules[1..];
      assert rest[i - 1] == modules[i];
      FirstMatchIsOwner(rest, s, a, i - 1);
    }
  }

  lemma {:induction false} OwnerIsUnique(modules: seq<LoadedModule>, s: State, a: nat, i: nat, j: nat)
    requires ModulesPlaced(modules, s) && i < |modules| && j < |modules|
    requires RegionOf(modules[i]).Holds(a) && RegionOf(modules[j]).Holds(a)
    ensures i == j
  {
    if i < j {
      LaterOwnsNot(modules, s, a, i, j);
    } else if j < i {
      LaterOwnsNot(modules, s, a, j, i);
    }
  }

  lemma {:induction false} LaterOwnsNot(modules: seq<LoadedModule>, s: State, a: nat, i: nat, j: nat)
    requires ModulesPlaced(modules, s) && i < j < |modules| && RegionOf(modules[i]).Holds(a)
    ensures !RegionOf(modules[j]).Holds(a)
  {
    assert modules[i].base + modules[i].size <= modules[j].base;
  }

  lemma {:induction false} NoOwnerIsFatal(modules: seq<LoadedModule>, a: nat)
    requires forall i :: 0 <= i < |modules| ==> !RegionOf(modules[i]).Holds(a)
    ensures FatalAt(modules, a)
  {
    if modules != [] {
      NoOwnerIsFatal(modules[1..], a);
    }
  }

  // ---- Serialization ----

  predicate IsSerialized(s: State, a: nat) {
    exists k :: 0 <= k < |s.serialized| && s.serialized[k].Holds(a)
  }

  /** Event `k` was a call to serialize, made while module `i` was the last one loaded. */
  ghost predicate Serializes(events: seq<Event>, k: nat, i: nat) {
    && k < |events| && events[k].Serialize? && Run(events, k).Some? && |Run(events, k).value.s.modules| == i + 1
  }

  lemma {:induction false} StepGrows(h: History, e: Event)
    requires Next(h, e).Some?
    ensures h.s.modules <= Next(h, e).value.s.modules
  {
  }

  lemma {:induction false} ModulesGrow(events: seq<Event>, k: nat, n: nat)
    requires k <= n <= |events| && Run(events, n).Some?
    ensures Run(events, k).Some? && Run(events, k).value.s.modules <= Run(events, n).value.s.modules
  {
    if k < n {
      ModulesGrow(events, k, n - 1);
      StepGrows(Run(events, n - 1).value, events[n - 1]);
    }
  }

  /** Some call before event `n` was made while a module whose range holds `a` was the last loaded. */
  ghost predicate CalledFor(events: seq<Event>, n: nat, modules: seq<LoadedModule>, a: nat) {
    exists k, i :: 0 <= k < n && 0 <= i < |modules| && Serializes(events, k, i) && RegionOf(modules[i]).Holds(a)
  }

  lemma {:induction false} CallsRemain(events: seq<Event>, n: nat, before: seq<LoadedModule>, after: seq<LoadedModule>,
                                       a: nat)
    requires before <= after && CalledFor(events, n, before, a)
    ensures CalledFor(events, n + 1, after, a)
  {
    var k, i :| 0 <= k < n && 0 <= i < |before| && Serializes(events, k, i) && RegionOf(before[i]).Holds(a);
    assert after[i] == before[i];
  }

  lemma {:induction false} CallCounts(events: seq<Event>, n: nat, before: seq<LoadedModule>, after: seq<LoadedModule>,
                                      a: nat)
    requires before <= after && before != [] && RegionOf(before[|before| - 1]).Holds(a)
             && Serializes(events, n, |before| - 1)
    ensures CalledFor(events, n + 1, after, a)
  {
    assert after[|before| - 1] == before[|before| - 1];
  }

  /** The module of an earlier call was there before event `n`. */
  lemma {:induction false} CallerThere(events: seq<Event>, k: nat, n: nat, i: nat)
    requires k <= n <= |events| && Run(events, n).Some? && Serializes(events, k, i)
    ensures i < |Run(events, n).value.s.modules|
  {
    ModulesGrow(events, k, n);
  }

  lemma {:induction false} CallsSplit(events: seq<Event>, n: nat, before: seq<LoadedModule>, after: seq<LoadedModule>,
                                      a: nat)
    requires n < |events| && Run(events, n).Some? && Run(events, n).value.s.modules == before <= after
    requires CalledFor(events, n + 1, after, a)
    ensures CalledFor(events, n, before, a)
            || (events[n].Serialize? && before != [] && RegionOf(before[|before| - 1]).Holds(a))
  {
    var k, i :| 0 <= k < n + 1 && 0 <= i < |after| && Serializes(events, k, i) && RegionOf(after[i]).Holds(a);
    CallerThere(events, k, n, i);
    assert before[i] == after[i];
  }

  lemma {:induction false} CallsBefore(events: seq<Event>, n: nat, a: nat)
    requires n < |events| && Run(events, n + 1).Some?
    ensures Run(events, n).Some?
    ensures var before, after := Run(events, n).value.s.modules, Run(events, n + 1).value.s.modules;
            CalledFor(events, n + 1, after, a) <==>
              || CalledFor(events, n, before, a)
              || (events[n].Serialize? && before != [] && RegionOf(before[|before| - 1]).Holds(a))
  {
    ModulesGrow(events, n, n + 1);
    var before, after := Run(events, n).value.s.modules, Run(events, n + 1).value.s.modules;
    if CalledFor(events, n + 1, after, a) {
      CallsSplit(events, n, before, after, a);
    }
    if CalledFor(events, n, before, a) {
      CallsRemain(events, n, before, after, a);
    }
    if events[n].Serialize? && before != [] && RegionOf(before[|before| - 1]).Holds(a) {
      CallCounts(events, n, before, after, a);
    }
  }

  lemma {:induction false} SerializeAdds(s: State, a: nat)
    requires s.modules != [] && SerializeStep(s).Some?
    ensures IsSerialized(SerializeStep(s).value.s, a) <==>
              IsSerialized(s, a) || RegionOf(s.modules[|s.modules| - 1]).Holds(a)
  {
    var s' := SerializeStep(s).value.s;
    if IsSerialized(s, a) {
      var k :| 0 <= k < |s.serialized| && s.serialized[k].Holds(a);
      assert s'.serialized[k].Holds(a);
    }
    if RegionOf(s.modules[|s.modules| - 1]).Holds(a) {
      assert s'.serialized[|s.serialized|].Holds(a);
    }
  }

  lemma {:induction false} SerializedNext(s: State, e: Event, a: nat)
    requires Step(s, e).Some?
    ensures IsSerialized(Step(s, e).value.s, a) <==>
              IsSerialized(s, a) || (e.Serialize? && s.modules != [] && RegionOf(s.modules[|s.modules| - 1]).Holds(a))
  {
    if e.Serialize? && s.modules != [] {
      SerializeAdds(s, a);
    }
  }

  /** In every run, the serialized addresses are those of the modules last loaded at each call. */
  lemma {:induction false} SerializedRanges(events: seq<Event>, n: nat, a: nat)
    requires n <= |events| && Run(events, n).Some?
    ensures var s := Run(events, n).value.s; IsSerialized(s, a) <==> CalledFor(events, n, s.modules, a)
  {
    if n > 0 {
      var m := n - 1;
      CallsBefore(events, m, a);
      SerializedRanges(events, m, a);
      SerializedNext(Run(events, m).value.s, events[m], a);
    }
  }

  /** A call serializes its caller if and only if the caller is the module loaded last. */
  lemma {:induction false} SerializesCaller(h: History, caller: nat)
    requires Invariant(h) && caller < |h.s.modules| && h.s.modules[caller].size > 0
    requires Step(h.s, Serialize(caller)).Some?
    ensures Step(h.s, Serialize(caller)).value.s.serialized == h.s.serialized + [RegionOf(h.s.modules[caller])]
            <==> caller + 1 == |h.s.modules|
  {
    var last := |h.s.modules| - 1;
    var after := h.s.serialized + [RegionOf(h.s.modules[last])];
    assert after[|h.s.serialized|] == RegionOf(h.s.modules[last]);
    if caller < last {
      assert h.s.modules[caller].base + h.s.modules[caller].size <= h.s.modules[last].base;
      assert (h.s.serialized + [RegionOf(h.s.modules[caller])])[|h.s.serialized|] == RegionOf(h.s.modules[caller]);
    }
  }

  /** Event `k` is a call to serialize by the module loaded last. */
  ghost predicate FromLastLoaded(events: seq<Event>, k: nat) {
    && k < |events| && events[k].Serialize? && Run(events, k).Some?
    && |Run(events, k).value.s.modules| == events[k].caller + 1
  }

  /** Where every call is made by the module then loaded last, as from its own `module_init`: exactly the
      callers are serialized. */
  lemma {:induction false} CallersAreSerialized(events: seq<Event>, n: nat, a: nat)
    requires n <= |events| && Run(events, n).Some?
    requires forall k :: 0 <= k < n && events[k].Serialize? ==> FromLastLoaded(events, k)
    ensures var s := Run(events, n).value.s;
            IsSerialized(s, a) <==>
              exists k :: 0 <= k < n && events[k].Serialize? && events[k].caller < |s.modules|
                          && RegionOf(s.modules[events[k].caller]).Holds(a)
  {
    SerializedRanges(events, n, a);
    var s := Run(events, n).value.s;
    if k, i :| 0 <= k < n && 0 <= i < |s.modules| && Serializes(events, k, i) && RegionOf(s.modules[i]).Holds(a) {
      assert FromLastLoaded(events, k);
    }
    if k :| 0 <= k < n && events[k].Serialize? && events[k].caller < |s.modules|
            && RegionOf(s.modules[events[k].caller]).Holds(a) {
      assert FromLastLoaded(events, k);
      assert Serializes(events, k, events[k].caller);
    }
  }

  /** Called after another module has loaded, it serializes that one instead of the caller. */
  lemma {:induction false} LateCallMisses()
    ensures var events := [LoadStarts("a", 4096, false), InitReturns, LoadStarts("b", 4096, false), InitReturns,
                           Serialize(0)];
            && Run(events, 5).Some?
            && var s := Run(events, 5).value.s;
               && |s.modules| == 2 && RegionOf(s.modules[0]).Holds(MODULE_VA_BASE) && !IsSerialized(s, MODULE_VA_BASE)
               && RegionOf(s.modules[1]).Holds(MODULE_VA_BASE + 4096) && IsSerialized(s, MODULE_VA_BASE + 4096)
  {
    var events := [LoadStarts("a", 4096, false), InitReturns, LoadStarts("b", 4096, false), InitReturns, Serialize(0)];
    var a, b := LoadedModule("a", MODULE_VA_BASE, 4096, false), LoadedModule("b", MODULE_VA_BASE + 4096, 4096, false);
    var s1 := State(MODULE_VA_BASE + 4096, MODULE_DATA_BASE, [a], [], true, false);
    assert Run(events, 1).value.s == s1;
    assert Run(events, 2).value.s == s1.(inInit := false);
    var s3 := State(MODULE_VA_BASE + 8192, MODULE_DATA_BASE, [a, b], [], true, false);
    assert Run(events, 3).value.s == s3;
    assert Run(events, 4).value.s == s3.(inInit := false);
    var s5 := s3.(inInit := false, serialized := [RegionOf(b)]);
    assert Run(events, 5).value.s == s5;
    assert s5.serialized[0].Holds(MODULE_VA_BASE + 4096);
  }

  // ---- The kernel's statics ----

  /** Every page of the region can be had. */
  predicate Granted(r: Region, pages: PageTable, answer: nat -> Answer) {
    MapOutcome(pages, r.base / PAGE_SIZE, r.size / PAGE_SIZE, answer).Ok?
  }

  class Statics {
    var nextCode: nat
    var nextData: nat
    var modules: seq<LoadedModule>
    var serialized: seq<Region>
    var inInit: bool
    var fatalNow: bool

    constructor ()
      ensures Now() == BOOT
    {
      nextCode, nextData, modules, serialized := MODULE_VA_BASE, MODULE_DATA_BASE, [], [];
      inInit, fatalNow := false, true;
    }

    function Now(): State
      reads this
    {
      State(nextCode, nextData, modules, serialized, inInit, fatalNow)
    }

    /** The end of a load: where regions start next and the modules there are, and if one `starts`, its init
        is running. */
    method EndLoad(next: nat, loaded: seq<LoadedModule>, starts: bool, fatal: bool)
      modifies this
      ensures Now() == old(Now()).(nextCode := next, modules := loaded, inInit := starts || old(inInit),
                                   fatalNow := if starts then fatal else old(fatalNow))
    {
      nextCode, modules := next, loaded;
      if starts {
        fatalNow, inInit := fatal, true;
      }
    }

    method FinishInit()
      modifies this`inInit
      ensures Step(old(Now()), InitReturns) == Some(Outcome(Now(), None))
    {
      inInit := false;
    }

    /** `oxidebsd_module_alloc_zeroed`: the address of zeroed pages of `k`, or 0; `None` where it panics.
        A region claimed and not wholly mapped stays claimed. */
    method ModuleAllocZeroed(bytes: u64, k: Kernel, answer: nat -> Answer)
      returns (r: Option<u64>, ghost claimed: Option<Region>, ghost done: nat)
      requires nextData <= MODULE_DATA_CEILING && nextData % PAGE_SIZE == 0 && k.Valid()
      modifies this`nextData, k`mem, k`pages, k`history
      ensures k.Valid()
      ensures r.None? <==> Step(old(Now()), AllocZeroed(bytes)).None?
      ensures r.Some? ==> Step(old(Now()), AllocZeroed(bytes)) == Some(Outcome(Now(), claimed))
      ensures claimed.None? ==> done == 0 && (r.Some? ==> r.value == 0)
      ensures claimed.Some? ==>
                r == Some(if Granted(claimed.value, old(k.pages), answer) then claimed.value.base else 0)
      ensures claimed.Some? ==>
                (done == claimed.value.size / PAGE_SIZE <==> Granted(claimed.value, old(k.pages), answer))
      ensures var first := old(nextData) / PAGE_SIZE;
              && k.mem == ZeroRegion(old(k.mem), first, done)
              && k.pages == SetPages(old(k.pages), first, done, k.DataFlags())
    {
      claimed, done := None, 0;
      if !inInit {
        return Some(0), None, 0;
      }
      PageAlignUp(bytes);
      var size := AlignUp(bytes, PAGE_SIZE);
      if size.Stopped? {
        return None, None, 0;
      }
      var base := nextData;
      if base + size.value > MODULE_DATA_CEILING {
        return Some(0), None, 0;
      }
      nextData := base + size.value;
      var mapped;
      mapped, done := k.MapRegion(base, size.value, answer);
      TablesStayClean(old(k.pages), base / PAGE_SIZE, done, k.DataFlags(), old(k.history));
      if k.nx {
        StaysCleanOn(k.boot, old(k.pages), old(k.history), 0, k.pages, k.history);
      }
      return Some(if mapped.Ok? then base else 0), Some(Region(base, size.value)), done;
    }

    /** `oxidebsd_module_serialize`; false where it panics. */
    method ModuleSerialize(ghost caller: nat) returns (ok: bool)
      modifies this`serialized
      ensures ok <==> Step(old(Now()), Serialize(caller)).Some?
      ensures ok ==> Step(old(Now()), Serialize(caller)) == Some(Outcome(Now(), None))
    {
      if modules != [] {
        var m := modules[|modules| - 1];
        if |serialized| >= MAX_SERIALIZED {
          return false;
        }
        serialized := serialized + [Region(m.base, m.size)];
      }
      return true;
    }

    /** `is_serialized`. */
    method Serialized(a: u64) returns (r: bool)
      ensures r == IsSerialized(Now(), a)
    {
      for k := 0 to |serialized|
        invariant forall i :: 0 <= i < k ==> !serialized[i].Holds(a)
      {
        if serialized[k].Holds(a) {
          return true;
        }
      }
      return false;
    }

    /** `mark_active_module_by_address`. */
    method MarkActiveModule(a: u64)
      modifies this`fatalNow
      ensures Step(old(Now()), CallByAddress(a)) == Some(Outcome(Now(), None))
    {
      var i := 0;
      while i < |modules| && !RegionOf(modules[i]).Holds(a)
        invariant i <= |modules| && FatalAt(modules, a) == FatalAt(modules[i..], a)
      {
        i := i + 1;
      }
      fatalNow := if i < |modules| then modules[i].fatalOnPanic else true;
    }
  }
}
