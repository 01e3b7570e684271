/** The processor: sixteen 8-bit registers, a program counter, an index
    register and a fixed-size call stack with its stack pointer, driven by
    an opcode dispatcher that selects on the opcode's high nibble. Only the
    flow-control instructions (00E0, 00EE, 1nnn, 2nnn, Bnnn) do anything;
    every other instruction family is dispatched to nothing. Pure functions
    on `CpuState` values state what each instruction does; the class `CPU`
    performs it in place and is proved against them. */
module Cpu {
  import opened Common
  import opened Configs
  import Memory
  import Display

  /** The processor's own state as a value. */
  datatype CpuState = CpuState(registers: seq<byte>, pc: nat, i: nat, stack: seq<nat>, sp: nat)

  predicate WellFormed(s: CpuState)
  {
    |s.registers| == RegisterCount && |s.stack| == StackSize && s.sp <= StackSize
  }

  /** The state right after construction. */
  function PowerOn(): CpuState
  {
    CpuState(seq(RegisterCount, _ => 0), RomStart, 0, seq(StackSize, _ => 0), 0)
  }

  /** `(opcode & 0xF000) >> 12`, the instruction family. */
  function HighNibble(opcode: nat): (n: nat)
    ensures n < 16
  {
    (opcode / 0x1000) % 0x10
  }

  /** `opcode & 0x0FFF`, the 12-bit address operand. */
  function Nnn(opcode: nat): (a: nat)
    ensures a < 0x1000
    ensures opcode % 0x10000 == HighNibble(opcode) * 0x1000 + a
  {
    opcode % 0x1000
  }

  /** Whether two states agree on everything but the program counter and the
      stack pointer. */
  predicate SameDataAndStack(s: CpuState, t: CpuState)
  {
    t.registers == s.registers && t.i == s.i && t.stack == s.stack
  }

  /** 1nnn and Bnnn. Any other family raises, which the dispatcher never lets
      happen. */
  function JumpEffect(s: CpuState, opcode: nat): (r: Result<CpuState>)
    requires WellFormed(s)
    ensures r.Ok? <==> HighNibble(opcode) == 0x1 || HighNibble(opcode) == 0xB
    ensures r.Ok? ==> WellFormed(r.value) && SameDataAndStack(s, r.value) && r.value.sp == s.sp
    ensures HighNibble(opcode) == 0x1 ==> r.Ok? && r.value.pc == Nnn(opcode)
    ensures HighNibble(opcode) == 0xB ==> r.Ok? && r.value.pc == Nnn(opcode) + s.registers[0]
  {
    var destination := Nnn(opcode);
    if HighNibble(opcode) == 0x1 then Ok(s.(pc := destination))
    else if HighNibble(opcode) == 0xB then Ok(s.(pc := destination + s.registers[0]))
    else Err(RuntimeError)
  }

  /** 2nnn: the current program counter goes onto the stack and control
      moves to nnn. With the stack full, the store into the stack list
      raises before anything changes. */
  function CallEffect(s: CpuState, opcode: nat): (r: Result<CpuState>)
    requires WellFormed(s)
    ensures r.Ok? <==> s.sp < StackSize
    ensures r.Err? ==> r.error == IndexError
    ensures r.Ok? ==> (
      && WellFormed(r.value)
      && r.value.stack[s.sp] == s.pc && r.value.sp == s.sp + 1 && r.value.pc == Nnn(opcode)
      && r.value.registers == s.registers && r.value.i == s.i
      && forall k :: 0 <= k < StackSize && k != s.sp ==> r.value.stack[k] == s.stack[k])
  {
    if s.sp >= StackSize then Err(IndexError)
    else Ok(s.(stack := s.stack[s.sp := s.pc], sp := s.sp + 1, pc := Nnn(opcode)))
  }

  /** 00EE: control returns to the address on top of the stack. Returning
      with an empty stack is an error (see `ReturnAsWritten` for what the
      source does instead). */
  function ReturnEffect(s: CpuState): (r: Result<CpuState>)
    requires WellFormed(s)
    ensures r.Ok? <==> s.sp > 0
    ensures r.Err? ==> r.error == RuntimeError
    ensures r.Ok? ==> (
      && WellFormed(r.value) && SameDataAndStack(s, r.value)
      && r.value.sp == s.sp - 1 && r.value.pc == s.stack[s.sp - 1])
  {
    if s.sp == 0 then Err(RuntimeError)
    else Ok(s.(sp := s.sp - 1, pc := s.stack[s.sp - 1]))
  }

  /** `return_from_subroutine` as the source has it, on the stack and a
      stack pointer that may go negative: the pointer is decremented first
      and the list is indexed Python-style, a negative index counting from
      the end. Gives the new program counter and stack pointer. */
  function ReturnAsWritten(stack: seq<nat>, sp: int): (nat, int)
    requires |stack| == StackSize && -(StackSize as int) < sp <= StackSize
  {
    var sp' := sp - 1;
    (if sp' < 0 then stack[|stack| + sp'] else stack[sp'], sp')
  }

  /** The effect of one dispatched instruction: the new processor state and
      whether the screen is cleared. */
  datatype Step = Step(next: CpuState, clearsScreen: bool)

  /** The effect of a flow-control instruction that leaves the screen alone. */
  function Flow(r: Result<CpuState>): Result<Step>
  {
    match r
    case Ok(t) => Ok(Step(t, false))
    case Err(e) => Err(e)
  }

  /** Family 0: 00E0 clears the screen, 00EE returns, anything else raises. */
  function SysControlEffect(s: CpuState, opcode: nat): Result<Step>
    requires WellFormed(s)
  {
    if Nnn(opcode) == 0x0E0 then Ok(Step(s, true))
    else if Nnn(opcode) == 0x0EE then Flow(ReturnEffect(s))
    else Err(NotImplementedError)
  }

  /** `high_nibble_dispatch`. The families the source leaves unimplemented
      change nothing; the catch-all arm that would raise cannot be reached,
      as the sixteen families are all listed. */
  function DispatchEffect(s: CpuState, opcode: nat): Result<Step>
    requires WellFormed(s)
  {
    match HighNibble(opcode)
    case 0x0 => SysControlEffect(s, opcode)
    case 0x1 => Flow(JumpEffect(s, opcode))
    case 0xB => Flow(JumpEffect(s, opcode))
    case 0x2 => Flow(CallEffect(s, opcode))
    case 0x3 => Ok(Step(s, false))
    case 0x4 => Ok(Step(s, false))
    case 0x5 => Ok(Step(s, false))
    case 0x6 => Ok(Step(s, false))
    case 0x7 => Ok(Step(s, false))
    case 0x8 => Ok(Step(s, false))
    case 0x9 => Ok(Step(s, false))
    case 0xA => Ok(Step(s, false))
    case 0xC => Ok(Step(s, false))
    case 0xD => Ok(Step(s, false))
    case 0xE => Ok(Step(s, false))
    case 0xF => Ok(Step(s, false))
    case _ => assert false; Err(NotImplementedError)
  }

  // ---------------------------------------------------------------------
  // Properties of the instruction set as modelled.

  /** After construction every register and stack slot is 0, the program
      counter is at the program origin and the index and stack pointer are 0. */
  lemma PowerOnState()
    ensures WellFormed(PowerOn())
    ensures PowerOn().pc == RomStart && PowerOn().i == 0 && PowerOn().sp == 0
    ensures forall r :: 0 <= r < RegisterCount ==> PowerOn().registers[r] == 0
    ensures forall k :: 0 <= k < StackSize ==> PowerOn().stack[k] == 0
  {
  }

  /** The unimplemented families (3 to 9, A and C to F) leave the processor
      and the screen as they are. */
  lemma UnimplementedFamiliesChangeNothing(s: CpuState, opcode: nat)
    requires WellFormed(s)
    requires HighNibble(opcode) !in {0x0, 0x1, 0x2, 0xB}
    ensures DispatchEffect(s, opcode) == Ok(Step(s, false))
  {
  }

  /** A dispatched instruction fails exactly in three cases: a family-0
      opcode other than 00E0 and 00EE, a return with an empty stack, and a
      call with a full stack. Only 00E0 clears the screen, and every
      successful step keeps the state well-formed. */
  lemma DispatchOutcome(s: CpuState, opcode: nat)
    requires WellFormed(s)
    ensures DispatchEffect(s, opcode).Err? <==>
      || (HighNibble(opcode) == 0x0 && Nnn(opcode) != 0x0E0 && Nnn(opcode) != 0x0EE)
      || (HighNibble(opcode) == 0x0 && Nnn(opcode) == 0x0EE && s.sp == 0)
      || (HighNibble(opcode) == 0x2 && s.sp == StackSize)
    ensures DispatchEffect(s, opcode).Ok? ==> WellFormed(DispatchEffect(s, opcode).value.next)
    ensures DispatchEffect(s, opcode).Ok? ==>
      (DispatchEffect(s, opcode).value.clearsScreen <==> HighNibble(opcode) == 0x0 && Nnn(opcode) == 0x0E0)
  {
  }

  /** Bnnn adds register 0 to nnn without wrapping the sum to 12 bits, so
      the program counter can leave the 4 KiB address space. */
  lemma JumpWithOffsetUnmasked(s: CpuState)
    requires WellFormed(s) && s.registers[0] == 0xFF
    ensures JumpEffect(s, 0xBFFF) == Ok(s.(pc := 0x10FE))
    ensures JumpEffect(s, 0xBFFF).value.pc >= 0x1000
  {
  }

  /** A call followed by a return comes back to the caller's program
      counter and stack pointer, with the registers and index untouched. */
  lemma CallThenReturn(s: CpuState, opcode: nat)
    requires WellFormed(s) && s.sp < StackSize
    ensures CallEffect(s, opcode).Ok?
    ensures ReturnEffect(CallEffect(s, opcode).value).Ok?
    ensures var t := ReturnEffect(CallEffect(s, opcode).value).value;
      t.pc == s.pc && t.sp == s.sp && t.registers == s.registers && t.i == s.i
  {
  }

  /** The calls `opcodes` made one after another. */
  function CallAll(s: CpuState, opcodes: seq<nat>): Result<CpuState>
    requires WellFormed(s)
    decreases |opcodes|
  {
    if opcodes == [] then Ok(s)
    else match CallEffect(s, opcodes[0])
      case Ok(t) => CallAll(t, opcodes[1..])
      case Err(e) => Err(e)
  }

  /** `n` returns made one after another. */
  function ReturnN(s: CpuState, n: nat): Result<CpuState>
    requires WellFormed(s)
  {
    if n == 0 then Ok(s)
    else match ReturnN(s, n - 1)
      case Ok(t) => ReturnEffect(t)
      case Err(e) => Err(e)
  }

  /** Nested calls unwind: as long as the stack has room for them, any
      sequence of calls followed by as many returns restores the program
      counter, the stack pointer, the registers, the index and the stack
      slots below the starting pointer. */
  lemma {:induction false} NestedCallsUnwind(s: CpuState, opcodes: seq<nat>)
    requires WellFormed(s) && s.sp + |opcodes| <= StackSize
    ensures CallAll(s, opcodes).Ok?
    ensures WellFormed(CallAll(s, opcodes).value) && ReturnN(CallAll(s, opcodes).value, |opcodes|).Ok?
    ensures var t := ReturnN(CallAll(s, opcodes).value, |opcodes|).value;
      && t.pc == s.pc && t.sp == s.sp && t.registers == s.registers && t.i == s.i
      && forall k :: 0 <= k < s.sp ==> t.stack[k] == s.stack[k]
    decreases |opcodes|
  {
    if opcodes != [] {
      var s1 := CallEffect(s, opcodes[0]).value;
      NestedCallsUnwind(s1, opcodes[1..]);
      var top := CallAll(s1, opcodes[1..]).value;
      var n := |opcodes|;
      assert CallAll(s, opcodes) == CallAll(s1, opcodes[1..]);
      ReturnNSplit(top, n);
      var t1 := ReturnN(top, n - 1).value;
      assert t1.sp == s1.sp && t1.stack[s.sp] == s.pc;
    }
  }

  /** `ReturnN` keeps every state well-formed and is `n - 1` returns followed
      by one more. */
  lemma {:induction false} ReturnNSplit(s: CpuState, n: nat)
    requires WellFormed(s) && n > 0
    ensures ReturnN(s, n) == match ReturnN(s, n - 1) case Ok(t) => ReturnEffect(t) case Err(e) => Err(e)
    ensures ReturnN(s, n - 1).Ok? ==> WellFormed(ReturnN(s, n - 1).value)
  {
    ReturnNWellFormed(s, n - 1);
  }

  lemma {:induction false} ReturnNWellFormed(s: CpuState, n: nat)
    requires WellFormed(s)
    ensures ReturnN(s, n).Ok? ==> WellFormed(ReturnN(s, n).value)
  {
    if n > 0 {
      ReturnNWellFormed(s, n - 1);
    }
  }

  /** As the source has it, a return with an empty stack raises nothing: the
      stack pointer becomes -1, outside 0..StackSize, and control jumps to
      whatever the last stack slot holds. `ReturnEffect` raises `RuntimeError` instead. */
  lemma EmptyReturnAsWritten(s: CpuState)
    requires WellFormed(s) && s.sp == 0
    ensures ReturnAsWritten(s.stack, s.sp) == (s.stack[StackSize - 1], -1)
    ensures ReturnEffect(s) == Err(RuntimeError)
  {
  }

  // ---------------------------------------------------------------------
  // The processor component.

  /** The processor. It constructs its own memory and display. */
  class CPU {
    var memory: Memory.Memory
    var display: Display.Display
    var registers: array<byte>
    var pc: nat
    var i: nat
    var stack: array<nat>
    var sp: nat

    ghost predicate Valid()
      reads this, memory, display
    {
      memory.Valid() && display.Valid()
      && registers.Length == RegisterCount && stack.Length == StackSize && sp <= StackSize
    }

    /** The processor's own state as a value. */
    ghost function View(): CpuState
      reads this, registers, stack
    {
      CpuState(registers[..], pc, i, stack[..], sp)
    }

    constructor()
      ensures Valid() && WellFormed(View())
      ensures fresh(memory) && fresh(display) && fresh(registers) && fresh(stack)
      ensures View() == PowerOn()
      ensures memory.cells[..] == Memory.PowerOnImage() && display.screen == Display.Blank()
    {
      memory := new Memory.Memory();
      display := new Display.Display();
      registers := new byte[RegisterCount](_ => 0);
      pc := RomStart;
      i := 0;
      stack := new nat[StackSize](_ => 0);
      sp := 0;
    }

    /** 00EE. */
    method ReturnFromSubroutine() returns (outcome: Outcome)
      requires Valid()
      modifies this`pc, this`sp
      ensures Valid()
      ensures match ReturnEffect(old(View()))
        case Ok(t) => outcome == Pass && View() == t
        case Err(e) => outcome == Fail(e) && View() == old(View())
    {
      if sp == 0 {
        return Fail(RuntimeError);
      }
      sp := sp - 1;
      pc := stack[sp];
      outcome := Pass;
    }

    /** 1nnn and Bnnn. */
    method Jump(opcode: nat) returns (outcome: Outcome)
      requires Valid()
      modifies this`pc
      ensures Valid()
      ensures match JumpEffect(old(View()), opcode)
        case Ok(t) => outcome == Pass && View() == t
        case Err(e) => outcome == Fail(e) && View() == old(View())
    {
      var destination := opcode % 0x1000;
      match (opcode / 0x1000) % 0x10
      case 0x1 =>
        pc := destination;
        outcome := Pass;
      case 0xB =>
        pc := destination + registers[0];
        outcome := Pass;
      case _ =>
        outcome := Fail(RuntimeError);
    }

    /** 2nnn. */
    method Call(opcode: nat) returns (outcome: Outcome)
      requires Valid()
      modifies this`pc, this`sp, stack
      ensures Valid()
      ensures match CallEffect(old(View()), opcode)
        case Ok(t) => outcome == Pass && View() == t
        case Err(e) => outcome == Fail(e) && View() == old(View())
    {
      if sp >= StackSize {
        return Fail(IndexError);
      }
      stack[sp] := pc;
      sp := sp + 1;
      pc := opcode % 0x1000;
      outcome := Pass;
    }

    /** Family 0. */
    method SysControl(opcode: nat) returns (outcome: Outcome)
      requires Valid()
      modifies this`pc, this`sp, display
      ensures Valid()
      ensures match SysControlEffect(old(View()), opcode)
        case Ok(step) => outcome == Pass && View() == step.next
          && display.screen == if step.clearsScreen then Display.Blank() else old(display.screen)
        case Err(e) => outcome == Fail(e) && View() == old(View()) && display.screen == old(display.screen)
    {
      match opcode % 0x1000
      case 0x0E0 =>
        display.ClearScreen();
        outcome := Pass;
      case 0x0EE =>
        outcome := ReturnFromSubroutine();
      case _ =>
        outcome := Fail(NotImplementedError);
    }

    /** Executes one opcode, chosen by its high nibble. */
    method HighNibbleDispatch(opcode: nat) returns (outcome: Outcome)
      requires Valid()
      modifies this`pc, this`sp, stack, display
      ensures Valid()
      ensures match DispatchEffect(old(View()), opcode)
        case Ok(step) => outcome == Pass && View() == step.next
          && display.screen == if step.clearsScreen then Display.Blank() else old(display.screen)
        case Err(e) => outcome == Fail(e) && View() == old(View()) && display.screen == old(display.screen)
    {
      match (opcode / 0x1000) % 0x10
      case 0x0 =>
        outcome := SysControl(opcode);
      case 0x1 =>
        outcome := Jump(opcode);
      case 0xB =>
        outcome := Jump(opcode);
      case 0x2 =>
        outcome := Call(opcode);
      case 0x3 => outcome := Pass;
      case 0x4 => outcome := Pass;
      case 0x5 => outcome := Pass;
      case 0x6 => outcome := Pass;
      case 0x7 => outcome := Pass;
      case 0x8 => outcome := Pass;
      case 0x9 => outcome := Pass;
      case 0xA => outcome := Pass;
      case 0xC => outcome := Pass;
      case 0xD => outcome := Pass;
      case 0xE => outcome := Pass;
      case 0xF => outcome := Pass;
      case _ =>
        assert false;
    }
  }
}
