/** What modules hold from the kernel heap, charged by id. */
module HeapCharges {
  import opened Words
  import opened ModuleLoader

  /** What one id holds. */
  datatype Stats = Stats(bytes: u64, count: u64)

  type Counters = s: seq<Stats> | |s| == MAX_CHARGED_MODULES + 1 witness seq(MAX_CHARGED_MODULES + 1, i => Stats(0, 0))

  /** `Layout::from_size_align`: a power of two, and a size that stays below 2^63 rounded up to it. */
  predicate ValidLayout(size: u64, align: u64) {
    PowerOfTwo(align) && size <= TWO_63 - align
  }

  predicate PowerOfTwo(a: nat) {
    a == 1 || (a > 0 && a % 2 == 0 && PowerOfTwo(a / 2))
  }

  /** The test finds exactly the powers of two. */
  lemma {:induction false} PowerOfTwoMeaning(a: nat)
    ensures PowerOfTwo(a) <==> IsPow2(a)
  {
    if a == 1 {
      assert a == Pow2(0);
    } else if a > 1 && a % 2 == 0 {
      PowerOfTwoMeaning(a / 2);
      if k: nat :| a / 2 == Pow2(k) {
        assert a == Pow2(k + 1);
      }
      if k: nat :| a == Pow2(k) {
        assert k > 0 && a / 2 == Pow2(k - 1);
      }
    } else if k: nat :| a == Pow2(k) {
      OneOrEven(k);
    }
  }

  lemma {:induction false} OneOrEven(k: nat)
    ensures Pow2(k) == 1 || Pow2(k) % 2 == 0
  {
  }

  function Charged(c: Counters, id: nat, size: u64): Counters {
    if id < |c| then c[id := Stats((c[id].bytes + size) % TWO_64, (c[id].count + 1) % TWO_64)] else c
  }

  function Minus(a: u64, b: nat): u64 {
    if a < b then 0 else a - b
  }

  function Released(c: Counters, id: nat, size: u64): Counters {
    if id < |c| then c[id := Stats(Minus(c[id].bytes, size), Minus(c[id].count, 1))] else c
  }

  function Alloc(c: Counters, size: u64, align: u64, id: u32, answer: u64): (u64, Counters) {
    if !ValidLayout(size, align) || size == 0 then (0, c)
    else if answer == 0 then (0, c)
    else (answer, Charged(c, id, size))
  }

  function Free(c: Counters, ptr: u64, size: u64, align: u64, id: u32): Counters {
    if !ValidLayout(size, align) || ptr == 0 then c else Released(c, id, size)
  }

  function StatsById(c: Counters, id: nat): Option<Stats> {
    if id != 0 && id < |c| then Some(c[id]) else None
  }

  /** The first module named `name`, from index `i` on. */
  function Named(modules: seq<LoadedModule>, name: string, i: nat): (r: Option<nat>)
    requires i <= |modules|
    ensures r.Some? ==> i <= r.value < |modules| && modules[r.value].name == name
    decreases |modules| - i
  {
    if i == |modules| then None else if modules[i].name == name then Some(i) else Named(modules, name, i + 1)
  }

  function StatsOf(c: Counters, modules: seq<LoadedModule>, name: string): Option<Stats> {
    match Named(modules, name, 0)
    case None => None
    case Some(i) => StatsById(c, i + 1)
  }

  // ---- Runs ----

  datatype Block = Block(ptr: u64, size: u64, align: u64, id: u32)

  datatype Event =
    | Allocates(size: u64, align: u64, id: u32, answer: u64)
    | Frees(ptr: u64, size: u64, align: u64, id: u32)

  /** The counters, and the blocks handed out and not given back. */
  datatype State = State(stats: Counters, live: seq<Block>)

  function Index(live: seq<Block>, b: Block): (r: Option<nat>)
    ensures r.Some? ==> r.value < |live| && live[r.value] == b
    ensures r.None? ==> b !in live
  {
    if live == [] then None
    else if live[0] == b then Some(0)
    else match Index(live[1..], b) case None => None case Some(i) => Some(i + 1)
  }

  function Without(live: seq<Block>, i: nat): seq<Block>
    requires i < |live|
  {
    live[..i] + live[i + 1..]
  }

  function Step(s: State, e: Event): State {
    match e
    case Allocates(size, align, id, answer) =>
      var (ptr, stats) := Alloc(s.stats, size, align, id, answer);
      State(stats, if ptr == 0 then s.live else s.live + [Block(ptr, size, align, id)])
    case Frees(ptr, size, align, id) =>
      var i := Index(s.live, Block(ptr, size, align, id));
      State(Free(s.stats, ptr, size, align, id), if i.Some? then Without(s.live, i.value) else s.live)
  }

  function NoCharges(): (c: Counters)
    ensures forall i :: 0 <= i < |c| ==> c[i] == Stats(0, 0)
  {
    seq(MAX_CHARGED_MODULES + 1, i => Stats(0, 0))
  }

  function Run(events: seq<Event>, n: nat): State
    requires n <= |events|
  {
    if n == 0 then State(NoCharges(), []) else Step(Run(events, n - 1), events[n - 1])
  }

  /** What `id` holds, counted over the live blocks. */
  function Held(live: seq<Block>, id: nat): nat {
    if live == [] then 0
    else Held(live[..|live| - 1], id) + if live[|live| - 1].id == id then live[|live| - 1].size else 0
  }

  function HeldBlocks(live: seq<Block>, id: nat): nat {
    if live == [] then 0 else HeldBlocks(live[..|live| - 1], id) + if live[|live| - 1].id == id then 1 else 0
  }

  /** An allocation the heap has room for, or a free of a live block (or of null, or with a layout no
      allocation has). */
  ghost predicate Allowed(s: State, e: Event) {
    match e
    case Allocates(size, align, id, answer) => Held(s.live, id) + size < TWO_64
    case Frees(ptr, size, align, id) => ptr == 0 || !ValidLayout(size, align) || Block(ptr, size, align, id) in s.live
  }

  ghost predicate Behaved(events: seq<Event>, n: nat)
    requires n <= |events|
  {
    n > 0 ==> Behaved(events, n - 1) && Allowed(Run(events, n - 1), events[n - 1])
  }

  /** Each counter is what its id's live blocks add up to. */
  ghost predicate Exact(s: State) {
    && (forall b :: b in s.live ==> b.size > 0 && b.ptr != 0 && ValidLayout(b.size, b.align))
    && Match(s.stats, s.live)
  }

  ghost predicate Match(c: Counters, live: seq<Block>) {
    forall id :: 0 <= id < |c| ==> c[id].bytes == Held(live, id) && c[id].count == HeldBlocks(live, id)
  }

  lemma {:induction false} HeldSnoc(live: seq<Block>, b: Block, id: nat)
    ensures Held(live + [b], id) == Held(live, id) + (if b.id == id then b.size else 0)
    ensures HeldBlocks(live + [b], id) == HeldBlocks(live, id) + (if b.id == id then 1 else 0)
  {
    assert (live + [b])[..|live|] == live;
  }

  /** Taking a block away takes its size, and one, from its id alone. */
  lemma {:induction false} HeldWithout(live: seq<Block>, i: nat, id: nat)
    requires i < |live|
    ensures Held(live, id) == Held(Without(live, i), id) + (if live[i].id == id then live[i].size else 0)
    ensures HeldBlocks(live, id) == HeldBlocks(Without(live, i), id) + (if live[i].id == id then 1 else 0)
  {
    var n := |live| - 1;
    if i == n {
      assert Without(live, i) == live[..n];
    } else {
      HeldWithout(live[..n], i, id);
      assert Without(live, i) == Without(live[..n], i) + [live[n]];
      HeldSnoc(Without(live[..n], i), live[n], id);
    }
  }

  /** Every block is at least a byte, so counts stay below byte totals. */
  lemma {:induction false} CountAtMostBytes(live: seq<Block>, id: nat)
    requires forall b :: b in live ==> b.size > 0
    ensures HeldBlocks(live, id) <= Held(live, id)
  {
    if live != [] {
      assert live[|live| - 1] in live;
      CountAtMostBytes(live[..|live| - 1], id);
    }
  }

  lemma {:induction false} ChargeMatches(c: Counters, live: seq<Block>, b: Block)
    requires Match(c, live) && (forall x :: x in live ==> x.size > 0) && b.size > 0
             && Held(live, b.id) + b.size < TWO_64
    ensures Match(Charged(c, b.id, b.size), live + [b])
  {
    var c' := Charged(c, b.id, b.size);
    CountAtMostBytes(live, b.id);
    forall id | 0 <= id < |c|
      ensures c'[id].bytes == Held(live + [b], id) && c'[id].count == HeldBlocks(live + [b], id)
    {
      HeldSnoc(live, b, id);
    }
  }

  lemma {:induction false} ReleaseMatches(c: Counters, live: seq<Block>, i: nat)
    requires Match(c, live) && i < |live|
    ensures Match(Released(c, live[i].id, live[i].size), Without(live, i))
  {
    var c' := Released(c, live[i].id, live[i].size);
    forall id | 0 <= id < |c|
      ensures c'[id].bytes == Held(Without(live, i), id) && c'[id].count == HeldBlocks(Without(live, i), id)
    {
      HeldWithout(live, i, id);
    }
  }

  lemma {:induction false} AllocKeepsExact(s: State, e: Event)
    requires Exact(s) && e.Allocates? && Allowed(s, e)
    ensures Exact(Step(s, e))
  {
    if ValidLayout(e.size, e.align) && e.size > 0 && e.answer != 0 {
      ChargeMatches(s.stats, s.live, Block(e.answer, e.size, e.align, e.id));
    }
  }

  lemma {:induction false} FreeKeepsExact(s: State, e: Event)
    requires Exact(s) && e.Frees? && Allowed(s, e)
    ensures Exact(Step(s, e))
  {
    var i := Index(s.live, Block(e.ptr, e.size, e.align, e.id));
    if i.Some? {
      assert s.live[i.value] in s.live;
      ReleaseMatches(s.stats, s.live, i.value);
    }
  }

  /** In every run where frees match live blocks, the counters are exact. */
  lemma {:induction false} CountersExact(events: seq<Event>, n: nat)
    requires n <= |events| && Behaved(events, n)
    ensures Exact(Run(events, n))
  {
    if n > 0 {
      CountersExact(events, n - 1);
      EventKeepsExact(Run(events, n - 1), events[n - 1]);
    } else {
      assert Exact(State(NoCharges(), []));
    }
  }

  lemma {:induction false} EventKeepsExact(s: State, e: Event)
    requires Exact(s) && Allowed(s, e)
    ensures Exact(Step(s, e))
  {
    if e.Allocates? {
      AllocKeepsExact(s, e);
    } else {
      FreeKeepsExact(s, e);
    }
  }

  lemma {:induction false} StepTouchesOwn(s: State, e: Event, id: nat)
    requires id < |s.stats| && (e.Frees? || id != e.id)
    ensures var t := Step(s, e).stats[id];
            if id != e.id then t == s.stats[id] else t.bytes <= s.stats[id].bytes && t.count <= s.stats[id].count
  {
  }

  /** In any run at all, whatever the other ids allocate and free, an id's counters move only by its own events. */
  lemma {:induction false} OthersUntouched(events: seq<Event>, k: nat, n: nat, id: nat)
    requires k <= n <= |events| && id <= MAX_CHARGED_MODULES
    requires forall j :: k <= j < n ==> events[j].id != id
    ensures Run(events, n).stats[id] == Run(events, k).stats[id]
  {
    if k < n {
      OthersUntouched(events, k, n - 1, id);
      StepTouchesOwn(Run(events, n - 1), events[n - 1], id);
    }
  }

  /** And they rise only by its own allocations: a free, even of a block that was never handed out, never
      wraps them round. */
  lemma {:induction false} FreesNeverRaise(events: seq<Event>, k: nat, n: nat, id: nat)
    requires k <= n <= |events| && id <= MAX_CHARGED_MODULES
    requires forall j :: k <= j < n && events[j].id == id ==> events[j].Frees?
    ensures Run(events, n).stats[id].bytes <= Run(events, k).stats[id].bytes
    ensures Run(events, n).stats[id].count <= Run(events, k).stats[id].count
  {
    if k < n {
      FreesNeverRaise(events, k, n - 1, id);
      StepTouchesOwn(Run(events, n - 1), events[n - 1], id);
    }
  }

  // ---- Ids ----

  /** `charged_modules`: the first 64 modules' names and ids. */
  method ChargedModules(modules: seq<LoadedModule>) returns (r: seq<(string, u32)>)
    ensures |r| == if |modules| < MAX_CHARGED_MODULES then |modules| else MAX_CHARGED_MODULES
    ensures forall i :: 0 <= i < |r| ==> r[i] == (modules[i].name, i + 1)
  {
    r := [];
    for i := 0 to |modules|
      invariant |r| == if i < MAX_CHARGED_MODULES then i else MAX_CHARGED_MODULES
      invariant forall k :: 0 <= k < |r| ==> r[k] == (modules[k].name, k + 1)
    {
      if i < MAX_CHARGED_MODULES {
        r := r + [(modules[i].name, i + 1)];
      }
    }
  }

  lemma {:induction false} NamedFrom(modules: seq<LoadedModule>, i: nat, k: nat)
    requires k <= i < |modules| && forall j :: 0 <= j < i ==> modules[j].name != modules[i].name
    ensures Named(modules, modules[i].name, k) == Some(i)
    decreases i - k
  {
    if k < i {
      NamedFrom(modules, i, k + 1);
    }
  }

  /** With distinct names, the id stamped at load, the id listed and the counters reported agree: module
      `i`'s id is `i + 1` up to the 64th, and later modules have none. */
  lemma {:induction false} IdsAgree(c: Counters, modules: seq<LoadedModule>, i: nat)
    requires i < |modules| && forall j, k :: 0 <= j < k < |modules| ==> modules[j].name != modules[k].name
    ensures ChargeId(|modules[..i + 1]|) == if i < MAX_CHARGED_MODULES then i + 1 else 0
    ensures StatsOf(c, modules, modules[i].name) == if i < MAX_CHARGED_MODULES then Some(c[i + 1]) else None
  {
    NamedFrom(modules, i, 0);
  }

  // ---- The heap ----

  class Heap {
    var stats: Counters

    constructor ()
      ensures stats == NoCharges()
    {
      stats := NoCharges();
    }

    /** `oxidebsd_kmalloc`, given what the heap answers for a valid layout (0 for null). */
    method Kmalloc(size: u64, align: u64, id: u32, answer: u64) returns (ptr: u64)
      modifies this
      ensures (ptr, stats) == Alloc(old(stats), size, align, id, answer)
    {
      if !ValidLayout(size, align) || size == 0 {
        return 0;
      }
      ptr := answer;
      if ptr != 0 && id < |stats| {
        stats := stats[id := Stats((stats[id].bytes + size) % TWO_64, (stats[id].count + 1) % TWO_64)];
      }
    }

    /** `oxidebsd_kfree`. */
    method Kfree(ptr: u64, size: u64, align: u64, id: u32)
      modifies this
      ensures stats == Free(old(stats), ptr, size, align, id)
    {
      if !ValidLayout(size, align) || ptr == 0 {
        return;
      }
      if id < |stats| {
        stats := stats[id := Stats(Minus(stats[id].bytes, size), Minus(stats[id].count, 1))];
      }
    }

    /** `alloc_stats_by_id`. */
    method AllocStatsById(id: u32) returns (r: Option<Stats>)
      ensures r == StatsById(stats, id)
    {
      return if id != 0 && id < |stats| then Some(stats[id]) else None;
    }

    /** `alloc_stats`. */
    method AllocStats(modules: seq<LoadedModule>, name: string) returns (r: Option<Stats>)
      requires |modules| < TWO_32 - 1
      ensures r == StatsOf(stats, modules, name)
    {
      for i := 0 to |modules|
        invariant Named(modules, name, 0) == Named(modules, name, i)
      {
        if modules[i].name == name {
          r := AllocStatsById(i + 1);
          return;
        }
      }
      return None;
    }
  }
}
