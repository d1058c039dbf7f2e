/** The assembly that calls firmware: System V in, Microsoft x64 out, and a way back from a fault. */
module EfiThunk {
  import opened Words

  datatype Reg = RAX | RBX | RCX | RDX | RSI | RDI | RBP | RSP | R8 | R9 | R10 | R11 | R12 | R13 | R14 | R15

  /** Registers, eight-byte words of memory, `EFIRT_RECOVER_RSP`, the direction flag, and where a
      `ret` has gone. */
  datatype Machine = Machine(regs: map<Reg, u64>, mem: map<nat, u64>, recover: u64, direction: bool,
                             returnedTo: Option<u64>)
  {
    function Get(r: Reg): u64 {
      if r in regs then regs[r] else 0
    }

    function Word(a: nat): u64 {
      if a in mem then mem[a] else 0
    }

    function SetReg(r: Reg, v: u64): Machine {
      this.(regs := regs[r := v])
    }

    function SetWord(a: nat, v: u64): Machine {
      this.(mem := mem[a := v])
    }
  }

  // ---- Instructions ----

  ghost predicate OtherRegs(m: Machine, n: Machine, r: Reg) {
    forall q :: q != r ==> n.Get(q) == m.Get(q)
  }

  ghost predicate OtherWords(m: Machine, n: Machine, at: nat) {
    forall a :: a != at ==> n.Word(a) == m.Word(a)
  }

  method Mov(m: Machine, dst: Reg, v: u64) returns (n: Machine)
    ensures n == m.SetReg(dst, v)
  {
    n := m.SetReg(dst, v);
  }

  method Store(m: Machine, a: u64, v: u64) returns (n: Machine)
    ensures n.recover == m.recover && n.direction == m.direction && n.returnedTo == m.returnedTo
    ensures forall r :: n.Get(r) == m.Get(r)
    ensures n.Word(a) == v && OtherWords(m, n, a)
  {
    n := m.SetWord(a, v);
  }

  method Push(m: Machine, r: Reg) returns (n: Machine)
    requires m.Get(RSP) >= 8 && r != RSP
    ensures n.recover == m.recover && n.direction == m.direction && n.returnedTo == m.returnedTo
    ensures n.Get(RSP) == m.Get(RSP) - 8 && OtherRegs(m, n, RSP)
    ensures n.Word(m.Get(RSP) - 8) == m.Get(r) && OtherWords(m, n, m.Get(RSP) - 8)
  {
    var sp := m.Get(RSP) - 8;
    n := m.SetWord(sp, m.Get(r)).SetReg(RSP, sp);
  }

  method Pop(m: Machine, r: Reg) returns (n: Machine)
    requires m.Get(RSP) + 8 < TWO_64 && r != RSP
    ensures n.mem == m.mem && n.recover == m.recover && n.returnedTo == m.returnedTo
    ensures n.Get(RSP) == m.Get(RSP) + 8 && n.Get(r) == m.Word(m.Get(RSP))
    ensures forall q :: q != r && q != RSP ==> n.Get(q) == m.Get(q)
  {
    n := m.SetReg(RSP, m.Get(RSP) + 8).SetReg(r, m.Word(m.Get(RSP)));
  }

  // ---- In ----

  /** A System V call of `efirt_call`: seven arguments, the last on the stack above the return address. */
  predicate Entered(m: Machine) {
    104 <= m.Get(RSP) && m.Get(RSP) + 8 < TWO_64 && m.Get(RSP) % 16 == 8
  }

  /** The registers pushed, in the order they lie on the stack. */
  const SAVED: seq<Reg> := [R15, R14, R13, R12, RBX, RBP]

  /** The last `k` of the saved registers and the return address, on the stack of the call that entered
      as `entry`. */
  ghost predicate Framed(m: Machine, entry: Machine, k: nat) {
    && k <= 6 && entry.Get(RSP) >= 48
    && (forall i :: 6 - k <= i < 6 ==> m.Word(entry.Get(RSP) - 48 + 8 * i) == entry.Get(SAVED[i]))
    && m.Word(entry.Get(RSP)) == entry.Word(entry.Get(RSP))
  }

  /** `k` registers pushed, and nothing above the return address touched. */
  ghost predicate Pushed(m: Machine, entry: Machine, k: nat) {
    && Framed(m, entry, k) && m.Get(RSP) == entry.Get(RSP) - 8 * k && OtherRegs(entry, m, RSP)
    && forall a :: a > entry.Get(RSP) ==> m.Word(a) == entry.Word(a)
  }

  method PushNext(m: Machine, r: Reg, ghost entry: Machine, ghost k: nat) returns (n: Machine)
    requires k < 6 && SAVED[5 - k] == r && Pushed(m, entry, k)
    ensures Pushed(n, entry, k + 1)
  {
    n := Push(m, r);
  }

  method PushThree(m: Machine, r0: Reg, r1: Reg, r2: Reg, ghost entry: Machine, ghost k: nat) returns (n: Machine)
    requires k <= 3 && SAVED[5 - k] == r0 && SAVED[4 - k] == r1 && SAVED[3 - k] == r2 && Pushed(m, entry, k)
    ensures Pushed(n, entry, k + 3)
  {
    n := PushNext(m, r0, entry, k);
    n := PushNext(n, r1, entry, k + 1);
    n := PushNext(n, r2, entry, k + 2);
  }

  /** `efirt_call`, up to its first move: the six registers and the recovery point saved. */
  method SaveRegisters(entry: Machine) returns (n: Machine)
    requires Entered(entry)
    ensures Framed(n, entry, 6) && n.Get(RSP) == entry.Get(RSP) - 48 == n.recover && OtherRegs(entry, n, RSP)
    ensures n.Word(entry.Get(RSP) + 8) == entry.Word(entry.Get(RSP) + 8)
  {
    n := PushThree(entry, RBP, RBX, R12, entry, 0);
    n := PushThree(n, R13, R14, R15, entry, 3);
    n := n.(recover := n.Get(RSP));
  }

  /** The register moves. */
  method MoveArguments(m: Machine) returns (n: Machine)
    ensures n.mem == m.mem && n.recover == m.recover && n.Get(RSP) == m.Get(RSP)
    ensures n.Get(RAX) == m.Get(RDI) && n.Get(RCX) == m.Get(RSI) && n.Get(RDX) == m.Get(RDX)
    ensures n.Get(R8) == m.Get(RCX) && n.Get(R9) == m.Get(R8) && n.Get(R10) == m.Get(R9)
  {
    n := Mov(m, RAX, m.Get(RDI));
    n := Mov(n, R11, n.Get(RCX));
    n := Mov(n, RCX, n.Get(RSI));
    n := Mov(n, R10, n.Get(R9));
    n := Mov(n, R9, n.Get(R8));
    n := Mov(n, R8, n.Get(R11));
  }

  /** The stack arguments, and `cld`. */
  method StackArguments(m: Machine) returns (n: Machine)
    requires 56 <= m.Get(RSP) && m.Get(RSP) + 56 < TWO_64
    ensures n.Get(RSP) == m.Get(RSP) - 56 && n.recover == m.recover && !n.direction
    ensures n.Word(n.Get(RSP) + 32) == m.Get(R10) && n.Word(n.Get(RSP) + 40) == m.Word(m.Get(RSP) + 56)
    ensures forall a :: a >= m.Get(RSP) ==> n.Word(a) == m.Word(a)
    ensures forall r :: r != RSP && r != R11 ==> n.Get(r) == m.Get(r)
  {
    n := Mov(m, R11, m.Word(m.Get(RSP) + 56));
    n := Mov(n, RSP, n.Get(RSP) - 56);
    n := Store(n, n.Get(RSP) + 32, n.Get(R10));
    n := Store(n, n.Get(RSP) + 40, n.Get(R11));
    assert forall a :: a >= m.Get(RSP) ==> n.Word(a) == m.Word(a);
    n := n.(direction := false);
  }

  /** At the call: the firmware's function in RAX, its arguments as the Microsoft convention has them,
      the stack aligned. */
  predicate MicrosoftCall(n: Machine, entry: Machine) {
    && n.Get(RAX) == entry.Get(RDI)
    && n.Get(RCX) == entry.Get(RSI) && n.Get(RDX) == entry.Get(RDX) && n.Get(R8) == entry.Get(RCX)
    && n.Get(R9) == entry.Get(R8)
    && n.Word(n.Get(RSP) + 32) == entry.Get(R9) && n.Word(n.Get(RSP) + 40) == entry.Word(entry.Get(RSP) + 8)
    && n.Get(RSP) % 16 == 0 && !n.direction
  }

  /** `efirt_call`, up to its `call rax`. */
  method EnterFirmware(entry: Machine) returns (n: Machine)
    requires Entered(entry)
    ensures MicrosoftCall(n, entry) && Framed(n, entry, 6)
    ensures n.Get(RSP) == entry.Get(RSP) - 104 && n.recover == entry.Get(RSP) - 48
  {
    n := SaveRegisters(entry);
    n := MoveArguments(n);
    n := StackArguments(n);
  }

  // ---- Out ----

  /** Back in the caller: its stack pointer, its return address, and every System V callee-saved register. */
  predicate Returned(m: Machine, entry: Machine) {
    && m.returnedTo == Some(entry.Word(entry.Get(RSP))) && m.Get(RSP) == entry.Get(RSP) + 8
    && m.Get(RBX) == entry.Get(RBX) && m.Get(RBP) == entry.Get(RBP) && m.Get(R12) == entry.Get(R12)
    && m.Get(R13) == entry.Get(R13) && m.Get(R14) == entry.Get(R14) && m.Get(R15) == entry.Get(R15)
  }

  method PopThree(m: Machine, r0: Reg, r1: Reg, r2: Reg) returns (n: Machine)
    requires m.Get(RSP) + 24 < TWO_64 && r0 != RSP && r1 != RSP && r2 != RSP && r0 != r1 && r0 != r2 && r1 != r2
    ensures n.mem == m.mem && n.Get(RSP) == m.Get(RSP) + 24
    ensures n.Get(r0) == m.Word(m.Get(RSP)) && n.Get(r1) == m.Word(m.Get(RSP) + 8)
            && n.Get(r2) == m.Word(m.Get(RSP) + 16)
    ensures forall q :: q != r0 && q != r1 && q != r2 && q != RSP ==> n.Get(q) == m.Get(q)
  {
    n := Pop(m, r0);
    n := Pop(n, r1);
    n := Pop(n, r2);
  }

  /** Label 2. */
  method RestoreAndReturn(m: Machine, ghost entry: Machine) returns (n: Machine)
    requires Entered(entry) && Framed(m, entry, 6) && m.Get(RSP) == entry.Get(RSP) - 48
    ensures Returned(n, entry) && n.Get(RAX) == m.Get(RAX)
  {
    FrameWords(m, entry);
    n := PopAll(m);
    n := n.SetReg(RSP, n.Get(RSP) + 8).(returnedTo := Some(n.Word(n.Get(RSP))));
  }

  method PopAll(m: Machine) returns (n: Machine)
    requires m.Get(RSP) + 48 < TWO_64
    ensures n.mem == m.mem && n.Get(RSP) == m.Get(RSP) + 48 && n.Get(RAX) == m.Get(RAX)
    ensures var sp := m.Get(RSP);
            && n.Get(R15) == m.Word(sp) && n.Get(R14) == m.Word(sp + 8) && n.Get(R13) == m.Word(sp + 16)
            && n.Get(R12) == m.Word(sp + 24) && n.Get(RBX) == m.Word(sp + 32) && n.Get(RBP) == m.Word(sp + 40)
  {
    n := PopThree(m, R15, R14, R13);
    n := PopThree(n, R12, RBX, RBP);
  }

  lemma {:induction false} FrameWords(m: Machine, entry: Machine)
    requires Framed(m, entry, 6)
    ensures var top := entry.Get(RSP);
            && m.Word(top - 48) == entry.Get(R15) && m.Word(top - 40) == entry.Get(R14)
            && m.Word(top - 32) == entry.Get(R13)
            && m.Word(top - 24) == entry.Get(R12) && m.Word(top - 16) == entry.Get(RBX)
            && m.Word(top - 8) == entry.Get(RBP)
  {
    assert SAVED[0] == R15 && SAVED[1] == R14 && SAVED[2] == R13 && SAVED[3] == R12 && SAVED[4] == RBX
           && SAVED[5] == RBP;
  }

  /** What the firmware does once called: it comes back, or a fault resumes at `efirt_fault`. */
  datatype Firmware = Returns(m: Machine) | Faults(m: Machine)

  /** The firmware keeps the caller's frame; coming back, the stack pointer; faulting, the recovery point
      (kernel data it doesn't know of). Every other register and word may be anything. */
  ghost predicate Spares(f: Firmware, called: Machine, entry: Machine) {
    && Framed(f.m, entry, 6)
    && (f.Returns? ==> f.m.Get(RSP) == called.Get(RSP))
    && (f.Faults? ==> f.m.recover == called.recover)
  }

  /** The whole of `efirt_call`, with `efirt_fault` where a fault ends the call: `firmware` is what the
      function called does. */
  method CallFirmware(entry: Machine, firmware: Machine -> Firmware) returns (n: Machine, called: Machine)
    requires Entered(entry)
    requires forall m :: MicrosoftCall(m, entry) && Framed(m, entry, 6) && m.recover == entry.Get(RSP) - 48 ==>
                           Spares(firmware(m), m, entry)
    ensures MicrosoftCall(called, entry)
    ensures Returned(n, entry)
    ensures n.Get(RAX) == match firmware(called) case Returns(m) => m.Get(RAX) case Faults(_) => TWO_64 - 1
  {
    called := EnterFirmware(entry);
    match firmware(called)
    case Returns(back) =>
      n := Mov(back, RSP, back.Get(RSP) + 56);
      n := RestoreAndReturn(n, entry);
    case Faults(faulted) =>
      n := Mov(faulted, RSP, faulted.recover);
      n := Mov(n, RAX, 0xffff_ffff_ffff_ffff);
      n := RestoreAndReturn(n, entry);
  }
}
