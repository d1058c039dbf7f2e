/** Memory as a map from address to byte, and what stores leave in it. */
module Stores {
  import opened Words

  /** The bytes of mapped memory. */
  datatype Memory = Memory(bytes: map<nat, byte>) {
    function Get(a: nat): Option<byte> {
      if a in bytes then Some(bytes[a]) else None
    }

    function Set(a: nat, b: byte): Memory {
      Memory(bytes[a := b])
    }
  }

  datatype Write = Write(addr: nat, bytes: seq<byte>) {
    predicate Covers(a: nat) {
      addr <= a < addr + |bytes|
    }

    function At(a: nat): byte
      requires Covers(a)
    {
      bytes[a - addr]
    }
  }

  /** A store, byte by byte. */
  function Store(m: Memory, w: Write): Memory
    decreases |w.bytes|
  {
    if w.bytes == [] then m
    else
      var n := |w.bytes| - 1;
      Store(m, Write(w.addr, w.bytes[..n])).Set(w.addr + n, w.bytes[n])
  }

  lemma {:induction false} StoreAt(m: Memory, w: Write, a: nat)
    ensures Store(m, w).Get(a) == if w.Covers(a) then Some(w.At(a)) else m.Get(a)
    decreases |w.bytes|
  {
    if w.bytes != [] {
      StoreAt(m, Write(w.addr, w.bytes[..|w.bytes| - 1]), a);
    }
  }

  function StoreAll(m: Memory, ws: seq<Write>): Memory {
    if ws == [] then m else Store(StoreAll(m, ws[..|ws| - 1]), ws[|ws| - 1])
  }

  /** A relocation's stores: its field, and for one that goes through the GOT first its slot. */
  datatype Patch = Direct(field: Write) | ViaGot(slot: Write, field: Write)

  function Apply(m: Memory, p: Patch): Memory {
    match p
    case Direct(field) => Store(m, field)
    case ViaGot(slot, field) => Store(Store(m, slot), field)
  }

  function ApplyAll(m: Memory, ps: seq<Patch>): Memory {
    if ps == [] then m else Apply(ApplyAll(m, ps[..|ps| - 1]), ps[|ps| - 1])
  }

  function BytesAt(m: Memory, a: nat, n: nat): (s: seq<byte>)
    ensures |s| == n
  {
    seq<byte>(n, i requires 0 <= i < n => ByteAt(m, a + i))
  }

  function ByteAt(m: Memory, a: nat): byte {
    match m.Get(a)
    case Some(b) => b
    case None => 0
  }

  lemma {:induction false} StoreAllSnoc(m: Memory, ws: seq<Write>, w: Write)
    ensures StoreAll(m, ws + [w]) == Store(StoreAll(m, ws), w)
  {
    assert (ws + [w])[..|ws|] == ws;
  }

  lemma {:induction false} ApplyAllSnoc(m: Memory, ps: seq<Patch>, p: Patch)
    ensures ApplyAll(m, ps + [p]) == Apply(ApplyAll(m, ps), p)
  {
    assert (ps + [p])[..|ps|] == ps;
  }

  predicate Disjoint(a: nat, n: nat, b: nat, m: nat) {
    a + n <= b || b + m <= a
  }

  predicate Beside(v: Write, w: Write) {
    Disjoint(v.addr, |v.bytes|, w.addr, |w.bytes|)
  }

  ghost predicate Holds(m: Memory, w: Write) {
    BytesAt(m, w.addr, |w.bytes|) == w.bytes
  }

  lemma {:induction false} StoreHolds(m: Memory, w: Write)
    ensures Holds(Store(m, w), w)
  {
    var read := BytesAt(Store(m, w), w.addr, |w.bytes|);
    forall i | 0 <= i < |w.bytes|
      ensures read[i] == w.bytes[i]
    {
      StoreAt(m, w, w.addr + i);
    }
  }

  lemma {:induction false} StoreBeside(m: Memory, v: Write, w: Write)
    requires Beside(v, w) && Holds(m, v)
    ensures Holds(Store(m, w), v)
  {
    var before, after := BytesAt(m, v.addr, |v.bytes|), BytesAt(Store(m, w), v.addr, |v.bytes|);
    forall i | 0 <= i < |v.bytes|
      ensures after[i] == before[i]
    {
      StoreAt(m, w, v.addr + i);
    }
  }

  lemma {:induction false} StoreAllElsewhere(m: Memory, ws: seq<Write>, a: nat)
    requires forall k :: 0 <= k < |ws| ==> !ws[k].Covers(a)
    ensures StoreAll(m, ws).Get(a) == m.Get(a)
  {
    if ws != [] {
      StoreAllElsewhere(m, ws[..|ws| - 1], a);
      StoreAt(StoreAll(m, ws[..|ws| - 1]), ws[|ws| - 1], a);
    }
  }

  // ---- Patches ----

  ghost predicate PatchBeside(p: Patch, w: Write) {
    Beside(p.field, w) && (p.ViaGot? ==> Beside(p.slot, w))
  }

  ghost predicate PatchHolds(m: Memory, p: Patch) {
    Holds(m, p.field) && (p.ViaGot? ==> Holds(m, p.slot))
  }

  /** No patch overlaps another, nor its own slot. */
  ghost predicate PatchesApart(ps: seq<Patch>) {
    && (forall k :: 0 <= k < |ps| && ps[k].ViaGot? ==> Beside(ps[k].slot, ps[k].field))
    && (forall j, k :: 0 <= j < k < |ps| ==>
          PatchBeside(ps[j], ps[k].field) && (ps[k].ViaGot? ==> PatchBeside(ps[j], ps[k].slot)))
  }

  lemma {:induction false} PatchSurvivesStore(m: Memory, p: Patch, w: Write)
    requires PatchHolds(m, p) && PatchBeside(p, w)
    ensures PatchHolds(Store(m, w), p)
  {
    StoreBeside(m, p.field, w);
    if p.ViaGot? {
      StoreBeside(m, p.slot, w);
    }
  }

  lemma {:induction false} PatchSurvives(m: Memory, p: Patch, q: Patch)
    requires PatchHolds(m, p) && PatchBeside(p, q.field) && (q.ViaGot? ==> PatchBeside(p, q.slot))
    ensures PatchHolds(Apply(m, q), p)
  {
    match q
    case Direct(field) => PatchSurvivesStore(m, p, field);
    case ViaGot(slot, field) =>
      PatchSurvivesStore(m, p, slot);
      PatchSurvivesStore(Store(m, slot), p, field);
  }

  lemma {:induction false} ApplyHolds(m: Memory, p: Patch)
    requires p.ViaGot? ==> Beside(p.slot, p.field)
    ensures PatchHolds(Apply(m, p), p)
  {
    match p
    case Direct(field) => StoreHolds(m, field);
    case ViaGot(slot, field) =>
      StoreHolds(m, slot);
      StoreHolds(Store(m, slot), field);
      StoreBeside(Store(m, slot), slot, field);
  }

  /** Patches that keep apart are all there at the end. */
  lemma {:induction false} AllPatchesHold(m: Memory, ps: seq<Patch>)
    requires PatchesApart(ps)
    ensures forall k :: 0 <= k < |ps| ==> PatchHolds(ApplyAll(m, ps), ps[k])
  {
    if ps != [] {
      var init, last := ps[..|ps| - 1], ps[|ps| - 1];
      assert PatchesApart(init);
      AllPatchesHold(m, init);
      ApplyHolds(ApplyAll(m, init), last);
      forall k | 0 <= k < |ps|
        ensures PatchHolds(ApplyAll(m, ps), ps[k])
      {
        if k < |init| {
          PatchSurvives(ApplyAll(m, init), init[k], last);
        }
      }
    }
  }

  predicate PatchCovers(p: Patch, a: nat) {
    p.field.Covers(a) || (p.ViaGot? && p.slot.Covers(a))
  }

  lemma {:induction false} ApplyElsewhere(m: Memory, p: Patch, a: nat)
    requires !PatchCovers(p, a)
    ensures Apply(m, p).Get(a) == m.Get(a)
  {
    match p
    case Direct(field) => StoreAt(m, field, a);
    case ViaGot(slot, field) =>
      StoreAt(m, slot, a);
      StoreAt(Store(m, slot), field, a);
  }

  lemma {:induction false} ApplyAllElsewhere(m: Memory, ps: seq<Patch>, a: nat)
    requires forall k :: 0 <= k < |ps| ==> !PatchCovers(ps[k], a)
    ensures ApplyAll(m, ps).Get(a) == m.Get(a)
  {
    if ps != [] {
      ApplyAllElsewhere(m, ps[..|ps| - 1], a);
      ApplyElsewhere(ApplyAll(m, ps[..|ps| - 1]), ps[|ps| - 1], a);
    }
  }
}
