/** x86-64 relocation arithmetic (section 4.4 of the System V ABI AMD64 supplement). */
module RelocationArithmetic {
  import opened Words
  import opened ElfObject

  const R_X86_64_64: u32 := 1
  const R_X86_64_PC32: u32 := 2
  const R_X86_64_PLT32: u32 := 4
  const R_X86_64_32: u32 := 10
  const R_X86_64_32S: u32 := 11

  const KERNEL_BASE: nat := 0xffff_ffff_8000_0000
  const MODULE_VA_BASE: nat := 0xffff_ffff_a000_0000
  const MODULE_REGION_CEILING: nat := 0xffff_ffff_ff00_0000

  /** `i32::try_from` and the store that follows it. */
  function Signed32(value: i64): Result<seq<byte>> {
    if -TWO_31 <= value < TWO_31 then Ok(LeBytes(value % TWO_32, 4)) else Fail(RelocationOverflow)
  }

  /** The bytes `apply_relocation` stores at `site`. */
  function RelocBytes(site: u64, kind: u32, symbolAddr: u64, addend: i64): (r: Result<seq<byte>>)
    ensures r.Ok? ==> |r.value| == 4 || |r.value| == 8
  {
    var value := WrapSigned(ToSigned(symbolAddr) + addend);
    if kind == R_X86_64_64 then Ok(LeBytes(value % TWO_64, 8))
    else if kind == R_X86_64_32 then
      if value % TWO_64 >= TWO_32 then Fail(RelocationOverflow) else Ok(LeBytes(value % TWO_64, 4))
    else if kind == R_X86_64_32S then Signed32(value)
    else if kind == R_X86_64_PC32 || kind == R_X86_64_PLT32 then Signed32(WrapSigned(value - ToSigned(site)))
    else Fail(UnsupportedRelocation(kind))
  }

  predicate Supported(kind: u32) {
    kind in {R_X86_64_64, R_X86_64_PC32, R_X86_64_PLT32, R_X86_64_32, R_X86_64_32S}
  }

  /** The value the CPU takes from a field of this kind: 64 bits, or 32 zero- or sign-extended. */
  function FieldValue(kind: u32, field: seq<byte>): (v: int)
    requires |field| == if kind == R_X86_64_64 then 8 else 4
    ensures kind == R_X86_64_64 ==> 0 <= v < TWO_64
    ensures kind == R_X86_64_32 ==> 0 <= v < TWO_32
    ensures kind != R_X86_64_64 && kind != R_X86_64_32 ==> -TWO_31 <= v < TWO_31
  {
    LeValueInjective(field);
    Pow256Values();
    if kind == R_X86_64_64 || kind == R_X86_64_32 then LeValue(field) else SignExtend32(LeValue(field))
  }

  /** The ABI's formula for the field: S + A, or S + A - P for the PC-relative kinds, modulo 2^64. */
  function AbiFormula(kind: u32, s: int, a: int, p: int): int {
    if kind == R_X86_64_PC32 || kind == R_X86_64_PLT32 then s + a - p else s + a
  }

  ghost predicate MeetsAbi(kind: u32, s: u64, a: i64, p: u64, field: seq<byte>) {
    && |field| == (if kind == R_X86_64_64 then 8 else 4)
    && (FieldValue(kind, field) - AbiFormula(kind, s, a, p)) % TWO_64 == 0
  }

  lemma {:induction false} ValueCongruent(site: u64, symbolAddr: u64, addend: i64)
    ensures var value := WrapSigned(ToSigned(symbolAddr) + addend);
            && (value - (symbolAddr + addend)) % TWO_64 == 0
            && (WrapSigned(value - ToSigned(site)) - (symbolAddr + addend - site)) % TWO_64 == 0
  {
    var sum := ToSigned(symbolAddr) + addend;
    WrapCongruent(sum, symbolAddr + addend);
    DifferenceCongruent(WrapSigned(sum), symbolAddr + addend, site);
    WrapCongruent(WrapSigned(sum) - ToSigned(site), symbolAddr + addend - site);
  }

  /** Wrapping keeps what a number is modulo 2^64. */
  lemma {:induction false} WrapCongruent(x: int, y: int)
    requires (x - y) % TWO_64 == 0
    ensures (WrapSigned(x) - y) % TWO_64 == 0
  {
    SumCongruent(WrapSigned(x) - x, x - y);
  }

  lemma {:induction false} DifferenceCongruent(x: int, y: int, site: u64)
    requires (x - y) % TWO_64 == 0
    ensures (x - ToSigned(site) - (y - site)) % TWO_64 == 0
  {
    if site >= TWO_63 {
      SumCongruent(x - y, TWO_64);
    }
  }

  lemma {:induction false} SumCongruent(x: int, y: int)
    requires x % TWO_64 == 0 && y % TWO_64 == 0
    ensures (x + y) % TWO_64 == 0
  {
    ModUnique(x + y, TWO_64, x / TWO_64 + y / TWO_64, 0);
  }

  /** Two numbers in a window of 2^64 that differ by a multiple of 2^64 are the same. */
  lemma CongruentInRange(x: int, y: int)
    requires (x - y) % TWO_64 == 0 && -TWO_64 < x - y < TWO_64
    ensures x == y
  {
  }

  /** What a signed 32-bit store of `value` leaves reads back as `value`, and no other field does. */
  lemma {:induction false} Signed32Exact(value: i64, field: seq<byte>)
    requires |field| == 4
    ensures LeValue(field) < TWO_32
    ensures Signed32(value) == Ok(field) <==> (LeValue(field) < TWO_32 && SignExtend32(LeValue(field)) == value)
  {
    LeValueInjective(field);
    Pow256Values();
    UnsignedExact(value % TWO_32, 4, field);
    LowHalf(value, LeValue(field));
  }

  lemma {:induction false} LowHalf(value: i64, low: u32)
    ensures -TWO_31 <= value < TWO_31 && low == value % TWO_32 <==> SignExtend32(low) == value
  {
  }

  lemma {:induction false} UnsignedExact(value: nat, n: nat, field: seq<byte>)
    requires |field| == n && value < Pow256(n)
    ensures LeBytes(value, n) == field <==> LeValue(field) == value
  {
    LeRoundTrip(value, n);
    LeValueInjective(field);
  }

  lemma {:induction false} AbsoluteMeetsAbi(site: u64, kind: u32, s: u64, a: i64, field: seq<byte>)
    requires kind == R_X86_64_64 || kind == R_X86_64_32
    requires |field| == if kind == R_X86_64_64 then 8 else 4
    ensures RelocBytes(site, kind, s, a) == Ok(field) <==> MeetsAbi(kind, s, a, site, field)
  {
    Pow256Values();
    ValueCongruent(site, s, a);
    var value := WrapSigned(ToSigned(s) + a);
    AbsoluteExact(FieldValue(kind, field), value, s + a);
    if kind == R_X86_64_64 {
      UnsignedExact(value % TWO_64, 8, field);
    } else if value % TWO_64 < TWO_32 {
      UnsignedExact(value % TWO_64, 4, field);
    }
  }

  lemma {:induction false} SignedMeetsAbi(site: u64, kind: u32, s: u64, a: i64, field: seq<byte>)
    requires kind in {R_X86_64_32S, R_X86_64_PC32, R_X86_64_PLT32} && |field| == 4
    ensures RelocBytes(site, kind, s, a) == Ok(field) <==> MeetsAbi(kind, s, a, site, field)
  {
    ValueCongruent(site, s, a);
    var value := WrapSigned(ToSigned(s) + a);
    if kind == R_X86_64_32S {
      Signed32Exact(value, field);
      SignedExact(FieldValue(kind, field), value, s + a);
    } else {
      var pc := WrapSigned(value - ToSigned(site));
      Signed32Exact(pc, field);
      SignedExact(FieldValue(kind, field), pc, s + a - site);
    }
  }

  /** `apply_relocation` stores `field` exactly when `field` is what the ABI's formula asks for; so it
      reports an overflow exactly when no field does. */
  lemma {:induction false} RelocationMeetsAbi(site: u64, kind: u32, s: u64, a: i64, field: seq<byte>)
    requires Supported(kind)
    ensures RelocBytes(site, kind, s, a) == Ok(field) <==> MeetsAbi(kind, s, a, site, field)
  {
    if |field| == (if kind == R_X86_64_64 then 8 else 4) {
      if kind == R_X86_64_64 || kind == R_X86_64_32 {
        AbsoluteMeetsAbi(site, kind, s, a, field);
      } else {
        SignedMeetsAbi(site, kind, s, a, field);
      }
    }
  }

  lemma AbsoluteExact(f: int, value: i64, target: int)
    requires 0 <= f < TWO_64 && (value - target) % TWO_64 == 0
    ensures f == value % TWO_64 <==> (f - target) % TWO_64 == 0
  {
  }

  lemma SignedExact(f: int, value: i64, target: int)
    requires -TWO_63 <= f < TWO_63 && (value - target) % TWO_64 == 0
    ensures f == value <==> (f - target) % TWO_64 == 0
  {
  }

  // ---- Reach over the module window ----

  predicate InWindow(a: nat) {
    MODULE_VA_BASE <= a < MODULE_REGION_CEILING
  }

  lemma {:induction false} DistanceFits(site: u64, target: u64, addend: i64)
    requires InWindow(site) && KERNEL_BASE <= target <= MODULE_REGION_CEILING && -0x100_0000 <= addend <= 0x100_0000
    ensures WrapSigned(WrapSigned(ToSigned(target) + addend) - ToSigned(site)) == target + addend - site
    ensures -TWO_31 <= target + addend - site < TWO_31
  {
    ValueCongruent(site, target, addend);
    CongruentInRange(WrapSigned(WrapSigned(ToSigned(target) + addend) - ToSigned(site)), target + addend - site);
  }

  /** From any site in the module window, a PC-relative field reaches every kernel and module address. */
  lemma {:induction false} PcRelativeReaches(site: u64, kind: u32, target: u64, addend: i64)
    requires kind == R_X86_64_PC32 || kind == R_X86_64_PLT32
    requires InWindow(site) && KERNEL_BASE <= target <= MODULE_REGION_CEILING && -0x100_0000 <= addend <= 0x100_0000
    ensures RelocBytes(site, kind, target, addend).Ok?
    ensures site + FieldValue(kind, RelocBytes(site, kind, target, addend).value) == target + addend
  {
    DistanceFits(site, target, addend);
    Signed32Exact(target + addend - site, RelocBytes(site, kind, target, addend).value);
  }

  /** A sign-extended absolute field holds any module address; a zero-extended one holds none. */
  lemma {:induction false} AbsoluteReach(site: u64, target: u64, addend: i64)
    requires InWindow(target) && -0x100_0000 <= addend <= 0x100_0000
    ensures RelocBytes(site, R_X86_64_32S, target, addend).Ok?
    ensures FieldValue(R_X86_64_32S, RelocBytes(site, R_X86_64_32S, target, addend).value) + TWO_64 == target + addend
    ensures RelocBytes(site, R_X86_64_32, target, addend) == Fail(RelocationOverflow)
  {
    var field := RelocBytes(site, R_X86_64_32S, target, addend).value;
    RelocationMeetsAbi(site, R_X86_64_32S, target, addend, field);
    CongruentInRange(FieldValue(R_X86_64_32S, field), target + addend - TWO_64);
  }
}
