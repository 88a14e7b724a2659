/** The opcode handlers of cpu.c and the fetch-decode-execute cycle.

    Program counter convention: executing an instruction computes the next
    `pc` itself. Ordinary instructions move on by 2, skips by 4 or 2, JP,
    CALL, RET and JP V0 go to their target, and LD Vx, K leaves `pc` where it
    is while no key is down. Nothing is added afterwards.

    Accesses the C code performs without a bounds check stop the machine with
    a `Fault`: fetching past the end of memory, reading or writing memory at
    `I + k` past the end, a CALL with all 16 stack slots in use, a RET with
    none, and a key index `Vx` above 0xF.
 */
module Cpu {
  import opened Machine
  import opened Decoder
  import opened Display
  import opened Bits

  /** The state with `pc` moved to the next instruction. */
  function Next(s: State): State
  {
    s.(pc := Advance(s.pc, 2))
  }

  function SetReg(s: State, i: Nibble, v: Byte): State
  {
    s.(V := s.V[i := v])
  }

  /** A condition as the flag value 1 or 0. */
  function Flag(b: bool): Byte
  {
    if b then 1 else 0
  }

  /** `count` bytes from `base` lie inside memory (no byte is read when
      `count` is 0). */
  predicate InMemory(base: int, count: nat)
  {
    count == 0 || (0 <= base && base + count <= MemorySize)
  }

  /** The first address of `base .. base + count - 1` outside memory. */
  function FirstOutside(base: int, count: nat): int
    requires !InMemory(base, count)
  {
    if base >= MemorySize then base else MemorySize
  }

  /** The `count` bytes of memory from `base`. */
  function Block(m: Memory, base: int, count: nat): (b: seq<Byte>)
    requires InMemory(base, count)
    ensures |b| == count && forall k :: 0 <= k < count ==> b[k] == m[base + k]
  {
    if count == 0 then [] else m[base..base + count]
  }

  /** The C operators `&`, `|`, `^` on two bytes. */
  function ByteOp(op: Op, a: Byte, b: Byte): (r: Byte)
    ensures forall k :: 0 <= k < 8 ==> Bit(r, k) == Combine(op, Bit(a, k), Bit(b, k))
  {
    Pow2Byte();
    var r := Bitwise(op, a, b, 8);
    forall k | 0 <= k < 8
      ensures Bit(r, k) == Combine(op, Bit(a, k), Bit(b, k))
    {
      BitwiseBit(op, a, b, 8, k);
    }
    r
  }

  // ---------------------------------------------------------------- 00E0, 00EE, 2nnn

  /** CLS: every pixel off, nothing else changes. */
  function ClearScreen(s: State): (r: State)
    ensures forall p :: 0 <= p < ScreenSize ==> !r.gfx[p]
    ensures r == Next(s).(gfx := r.gfx)
  {
    Next(s).(gfx := BlankScreen())
  }

  /** RET: pop the return address into `pc`. */
  function ReturnFromSub(s: State): (r: Outcome)
    ensures r.Halted? <==> s.sp == 0
    ensures r.Halted? ==> r.fault == StackUnderflow(s.pc)
    ensures r.Running? ==> r.next.sp + 1 == s.sp && r.next.pc == s.stack[r.next.sp]
    ensures r.Running? ==> r.next == s.(sp := r.next.sp, pc := r.next.pc)
  {
    if s.sp == 0 then Halted(StackUnderflow(s.pc))
    else Running(s.(sp := s.sp - 1, pc := s.stack[s.sp - 1]))
  }

  /** CALL nnn: push the address of the next instruction, go to `nnn`. */
  function CallSub(s: State, nnn: Addr): (r: Outcome)
    ensures r.Halted? <==> s.sp == StackDepth
    ensures r.Halted? ==> r.fault == StackOverflow(s.pc)
    ensures r.Running? ==> r.next.pc == nnn && r.next.sp == s.sp + 1
    ensures r.Running? ==> r.next.stack[s.sp] == Advance(s.pc, 2)
    ensures r.Running? ==> forall k :: 0 <= k < StackDepth && k != s.sp ==> r.next.stack[k] == s.stack[k]
    ensures r.Running? ==> r.next == s.(stack := r.next.stack, sp := r.next.sp, pc := r.next.pc)
  {
    if s.sp == StackDepth then Halted(StackOverflow(s.pc))
    else Running(s.(stack := s.stack[s.sp := Advance(s.pc, 2)], sp := s.sp + 1, pc := nnn))
  }

  // ---------------------------------------------------------------- skips

  /** Skip the next instruction when `cond` holds. */
  function SkipIf(s: State, cond: bool): (r: State)
    ensures r == s.(pc := r.pc)
    ensures s.pc + 4 < 0x1_0000 ==> r.pc == s.pc + (if cond then 4 else 2)
  {
    s.(pc := Advance(s.pc, if cond then 4 else 2))
  }

  /** SKP Vx / SKNP Vx: skip when key Vx is down (`down`) or up (`!down`). */
  function SkipOnKey(s: State, x: Nibble, down: bool): (r: Outcome)
    ensures r.Halted? <==> s.V[x] >= KeyCount
    ensures r.Halted? ==> r.fault == KeyOutOfRange(s.V[x])
    ensures r.Running? ==> r.next == SkipIf(s, s.keypad[s.V[x]] == down)
  {
    if s.V[x] >= KeyCount then Halted(KeyOutOfRange(s.V[x]))
    else Running(SkipIf(s, s.keypad[s.V[x]] == down))
  }

  // ---------------------------------------------------------------- 8xyN arithmetic

  /** ADD Vx, Vy: the result is written first and VF last, so VF holds the
      carry even when x is F. */
  function AddCarry(s: State, x: Nibble, y: Nibble): (r: State)
    ensures x != VF ==> r.V[x] as int + 0x100 * (r.V[VF] as int) == s.V[x] as int + s.V[y]
    ensures r.V[VF] == Flag(s.V[x] as int + s.V[y] > 0xFF)
    ensures forall i :: 0 <= i < RegisterCount && i != x && i != VF ==> r.V[i] == s.V[i]
    ensures r == Next(s).(V := r.V)
  {
    var sum := s.V[x] as int + s.V[y];
    Next(SetReg(SetReg(s, x, sum % 0x100), VF, Flag(sum > 0xFF)))
  }

  /** SUB Vx, Vy: VF is written first (NOT borrow), then Vx - Vy into Vx. */
  function SubBorrow(s: State, x: Nibble, y: Nibble): (r: State)
    ensures x != VF && y != VF ==> (r.V[x] as int + s.V[y]) % 0x100 == s.V[x]
    ensures x != VF ==> r.V[VF] == Flag(s.V[x] > s.V[y])
    ensures forall i :: 0 <= i < RegisterCount && i != x && i != VF ==> r.V[i] == s.V[i]
    ensures r == Next(s).(V := r.V)
  {
    var t := SetReg(s, VF, Flag(s.V[x] > s.V[y]));
    Next(SetReg(t, x, (t.V[x] as int - t.V[y]) % 0x100))
  }

  /** SUBN Vx, Vy: VF is written first (NOT borrow), then Vy - Vx into Vx. */
  function SubReverse(s: State, x: Nibble, y: Nibble): (r: State)
    ensures x != VF && y != VF ==> (r.V[x] as int + s.V[x]) % 0x100 == s.V[y]
    ensures x != VF ==> r.V[VF] == Flag(s.V[y] > s.V[x])
    ensures forall i :: 0 <= i < RegisterCount && i != x && i != VF ==> r.V[i] == s.V[i]
    ensures r == Next(s).(V := r.V)
  {
    var t := SetReg(s, VF, Flag(s.V[y] > s.V[x]));
    Next(SetReg(t, x, (t.V[y] as int - t.V[x]) % 0x100))
  }

  /** SHR Vx: VF takes the bit shifted out, then Vx is halved. */
  function ShiftRight(s: State, x: Nibble): (r: State)
    ensures x != VF ==> 2 * (r.V[x] as int) + r.V[VF] == s.V[x] && r.V[VF] <= 1
    ensures forall i :: 0 <= i < RegisterCount && i != x && i != VF ==> r.V[i] == s.V[i]
    ensures r == Next(s).(V := r.V)
  {
    var t := SetReg(s, VF, s.V[x] % 2);
    Next(SetReg(t, x, t.V[x] / 2))
  }

  /** SHL Vx: VF takes the bit shifted out, then Vx is doubled. */
  function ShiftLeft(s: State, x: Nibble): (r: State)
    ensures x != VF ==> r.V[x] as int + 0x100 * (r.V[VF] as int) == 2 * (s.V[x] as int) && r.V[VF] <= 1
    ensures forall i :: 0 <= i < RegisterCount && i != x && i != VF ==> r.V[i] == s.V[i]
    ensures r == Next(s).(V := r.V)
  {
    var t := SetReg(s, VF, s.V[x] / 0x80);
    Next(SetReg(t, x, (t.V[x] as int * 2) % 0x100))
  }

  // ---------------------------------------------------------------- Dxyn

  /** DRW Vx, Vy, n: XOR the `n` bytes at `I` onto the screen at (Vx, Vy);
      VF reports a collision, the draw flag is raised. */
  function DrawAt(s: State, x: Nibble, y: Nibble, n: Nibble): (r: Outcome)
    ensures r.Halted? <==> !InMemory(s.I, n)
    ensures r.Running? ==> (
      var sprite := Block(s.memory, s.I, n);
      && r.next.gfx == DrawScreen(s.gfx, sprite, s.V[x], s.V[y])
      && r.next.V[VF] == Flag(Collides(s.gfx, sprite, s.V[x], s.V[y]))
      && r.next.drawFlag
      && (forall i :: 0 <= i < VF ==> r.next.V[i] == s.V[i])
      && r.next == Next(s).(gfx := r.next.gfx, V := r.next.V, drawFlag := true))
  {
    if !InMemory(s.I, n) then Halted(AddressOutOfRange(FirstOutside(s.I, n)))
    else
      var sprite := Block(s.memory, s.I, n);
      var vx, vy := s.V[x], s.V[y];
      Running(Next(s).(
        gfx := DrawScreen(s.gfx, sprite, vx, vy),
        V := s.V[VF := Flag(Collides(s.gfx, sprite, vx, vy))],
        drawFlag := true))
  }

  // ---------------------------------------------------------------- Fx0A

  /** The lowest key index at or above `from` whose key is down. */
  function LowestKey(keys: Keypad, from: nat): (k: Option<Nibble>)
    requires from <= KeyCount
    ensures k.Some? ==>
      && from <= k.value && keys[k.value]
      && forall j :: from <= j < k.value ==> !keys[j]
    ensures k.None? <==> forall j :: from <= j < KeyCount ==> !keys[j]
    decreases KeyCount - from
  {
    if from == KeyCount then None
    else if keys[from] then Some(from)
    else LowestKey(keys, from + 1)
  }

  /** LD Vx, K: take the lowest key that is down, or wait on the same
      instruction. */
  function WaitForKey(s: State, x: Nibble): (r: State)
    ensures r.pc == s.pc <==> forall j :: 0 <= j < KeyCount ==> !s.keypad[j]
    ensures r.pc == s.pc ==> r == s
    ensures r.pc != s.pc ==>
      && r == Next(s).(V := r.V) && r.V == s.V[x := r.V[x]]
      && r.V[x] < KeyCount && s.keypad[r.V[x]]
      && forall j :: 0 <= j < r.V[x] ==> !s.keypad[j]
  {
    match LowestKey(s.keypad, 0)
    case None => s
    case Some(k) => Next(SetReg(s, x, k))
  }

  // ---------------------------------------------------------------- Fx33, Fx55, Fx65

  /** The hundreds, tens and ones digits of a byte, computed as the C code
      computes them. */
  function Bcd(v: Byte): (d: (Byte, Byte, Byte))
    ensures d.0 <= 9 && d.1 <= 9 && d.2 <= 9
    ensures 100 * (d.0 as int) + 10 * (d.1 as int) + d.2 as int == v
  {
    var h, t, o := v / 100, (v / 10) % 10, (v % 100) % 10;
    DivMod(v, 100, h, v % 100);
    DivMod(v % 100, 10, (v % 100) / 10, o);
    DivMod(v, 10, 10 * h + (v % 100) / 10, o);
    DivMod(10 * h + (v % 100) / 10, 10, h, t);
    (h, t, o)
  }

  /** LD B, Vx: hundreds, tens and ones digits of Vx at I, I+1, I+2. */
  function StoreBcd(s: State, x: Nibble): (r: Outcome)
    ensures r.Halted? <==> !InMemory(s.I, 3)
    ensures r.Running? ==> (
      var m := r.next.memory;
      && m[s.I] <= 9 && m[s.I + 1] <= 9 && m[s.I + 2] <= 9
      && 100 * (m[s.I] as int) + 10 * (m[s.I + 1] as int) + m[s.I + 2] as int == s.V[x]
      && (forall a :: 0 <= a < MemorySize && !(s.I <= a < s.I + 3) ==> m[a] == s.memory[a])
      && r.next == Next(s).(memory := m))
  {
    if !InMemory(s.I, 3) then Halted(AddressOutOfRange(FirstOutside(s.I, 3)))
    else
      var d := Bcd(s.V[x]);
      Running(Next(s).(memory := s.memory[s.I := d.0][s.I + 1 := d.1][s.I + 2 := d.2]))
  }

  /** LD [I], Vx: V0..Vx into memory from I on. */
  function StoreRegisters(s: State, x: Nibble): (r: Outcome)
    ensures r.Halted? <==> !InMemory(s.I, x + 1)
    ensures r.Running? ==>
      && (forall k :: 0 <= k <= x ==> r.next.memory[s.I + k] == s.V[k])
      && (forall a :: 0 <= a < MemorySize && !(s.I <= a <= s.I + x) ==> r.next.memory[a] == s.memory[a])
      && r.next == Next(s).(memory := r.next.memory)
  {
    if !InMemory(s.I, x + 1) then Halted(AddressOutOfRange(FirstOutside(s.I, x + 1)))
    else
      Running(Next(s).(memory := seq(MemorySize, a requires 0 <= a < MemorySize =>
        if s.I <= a <= s.I + x then s.V[a - s.I] else s.memory[a])))
  }

  /** LD Vx, [I]: memory from I on into V0..Vx. */
  function LoadRegisters(s: State, x: Nibble): (r: Outcome)
    ensures r.Halted? <==> !InMemory(s.I, x + 1)
    ensures r.Running? ==>
      && (forall k :: 0 <= k <= x ==> r.next.V[k] == s.memory[s.I + k])
      && (forall k :: x < k < RegisterCount ==> r.next.V[k] == s.V[k])
      && r.next == Next(s).(V := r.next.V)
  {
    if !InMemory(s.I, x + 1) then Halted(AddressOutOfRange(FirstOutside(s.I, x + 1)))
    else
      Running(Next(s).(V := seq(RegisterCount, k requires 0 <= k < RegisterCount =>
        if k <= x then s.memory[s.I + k] else s.V[k])))
  }

  /** The loop of LD [I], Vx over k = 0..x, storing as its comment
      describes. */
  method StoreLoop(s: State, x: Nibble) returns (m: Memory)
    requires InMemory(s.I, x + 1)
    ensures StoreRegisters(s, x) == Running(Next(s).(memory := m))
  {
    m := s.memory;
    var k := 0;
    while k <= x
      invariant 0 <= k <= x + 1
      invariant forall a :: 0 <= a < MemorySize ==>
        m[a] == if s.I <= a < s.I + k then s.V[a - s.I] else s.memory[a]
    {
      m := m[s.I + k := s.V[k]];
      k := k + 1;
    }
  }

  /** The loop of LD Vx, [I] over k = 0..x. */
  method LoadLoop(s: State, x: Nibble) returns (v: Registers)
    requires InMemory(s.I, x + 1)
    ensures LoadRegisters(s, x) == Running(Next(s).(V := v))
    ensures forall k :: 0 <= k <= x ==> v[k] == s.memory[s.I + k]
    ensures forall k :: x < k < RegisterCount ==> v[k] == s.V[k]
  {
    v := s.V;
    var k := 0;
    while k <= x
      invariant 0 <= k <= x + 1
      invariant forall j :: 0 <= j < RegisterCount ==>
        v[j] == if j < k then s.memory[s.I + j] else s.V[j]
    {
      v := v[k := s.memory[s.I + k]];
      k := k + 1;
    }
  }

  // ---------------------------------------------------------------- dispatch

  /** The instructions that set `pc` to something other than `pc + 2`. */
  predicate ControlsPc(i: Instr)
  {
    || i.Ret? || i.Jp? || i.Call? || i.JpV0? || i.WaitKey?
    || i.SeImm? || i.SneImm? || i.SeReg? || i.SneReg? || i.Skp? || i.Sknp?
  }

  /** The instructions that touch the screen or memory. */
  predicate TouchesMemory(i: Instr)
  {
    i.Cls? || i.Drw? || i.LdBcd? || i.StoreRegs? || i.LoadRegs?
  }

  /** Jumps, calls, returns, skips and the key wait: besides `pc` they write
      only the stack, `sp` and, for the key wait, one register. */
  function Branch(s: State, i: Instr): (r: Outcome)
    requires ControlsPc(i)
    ensures r.Halted? ==> i.Ret? || i.Call? || i.Skp? || i.Sknp?
    ensures r.Running? ==> r.next == s.(pc := r.next.pc, V := r.next.V, stack := r.next.stack, sp := r.next.sp)
    ensures r.Running? && !i.WaitKey? ==> r.next.V == s.V
    ensures r.Running? && i.WaitKey? ==> r.next.V == s.V[i.x := r.next.V[i.x]]
    ensures r.Running? && !i.Call? && !i.Ret? ==> r.next.sp == s.sp && r.next.stack == s.stack
  {
    match i
    case Ret => ReturnFromSub(s)
    case Jp(nnn) => Running(s.(pc := nnn))
    case Call(nnn) => CallSub(s, nnn)
    case SeImm(x, kk) => Running(SkipIf(s, s.V[x] == kk))
    case SneImm(x, kk) => Running(SkipIf(s, s.V[x] != kk))
    case SeReg(x, y) => Running(SkipIf(s, s.V[x] == s.V[y]))
    case SneReg(x, y) => Running(SkipIf(s, s.V[x] != s.V[y]))
    case JpV0(nnn) => Running(s.(pc := nnn as int + s.V[0]))
    case Skp(x) => SkipOnKey(s, x, true)
    case Sknp(x) => SkipOnKey(s, x, false)
    case WaitKey(x) => Running(WaitForKey(s, x))
  }

  /** Every other instruction that leaves screen and memory alone moves data
      between registers, I and the timers, and moves on by 2. */
  function Transfer(s: State, i: Instr, rnd: Byte): (r: State)
    requires !ControlsPc(i) && !TouchesMemory(i)
    ensures r == Next(s).(V := r.V, I := r.I, delayTimer := r.delayTimer, soundTimer := r.soundTimer)
  {
    match i
    case LdImm(x, kk) => Next(SetReg(s, x, kk))
    case AddImm(x, kk) => Next(SetReg(s, x, (s.V[x] as int + kk) % 0x100))
    case LdReg(x, y) => Next(SetReg(s, x, s.V[y]))
    case Or(x, y) => Next(SetReg(s, x, ByteOp(OrOp, s.V[x], s.V[y])))
    case And(x, y) => Next(SetReg(s, x, ByteOp(AndOp, s.V[x], s.V[y])))
    case Xor(x, y) => Next(SetReg(s, x, ByteOp(XorOp, s.V[x], s.V[y])))
    case AddReg(x, y) => AddCarry(s, x, y)
    case Sub(x, y) => SubBorrow(s, x, y)
    case Shr(x, _) => ShiftRight(s, x)
    case Subn(x, y) => SubReverse(s, x, y)
    case Shl(x, _) => ShiftLeft(s, x)
    case LdI(nnn) => Next(s).(I := nnn)
    case Rnd(x, kk) => Next(SetReg(s, x, ByteOp(AndOp, rnd, kk)))
    case LdFromDelay(x) => Next(SetReg(s, x, s.delayTimer))
    case LdDelay(x) => Next(s).(delayTimer := s.V[x])
    case LdSound(x) => Next(s).(soundTimer := s.V[x])
    case LdFont(x) => Next(s).(I := s.V[x] as int * 5)
    case Unknown(_) => Next(s)
  }

  /** Execute one decoded instruction; `rnd` is the random byte RND uses.
      Each part of the state is written only by the instructions whose
      handlers write it, and only the unchecked accesses can fault. */
  function Execute(s: State, i: Instr, rnd: Byte): (r: Outcome)
    ensures r.Halted? ==>
      i.Ret? || i.Call? || i.Drw? || i.Skp? || i.Sknp? || i.LdBcd? || i.StoreRegs? || i.LoadRegs?
    ensures r.Running? && !ControlsPc(i) ==> r.next.pc == Advance(s.pc, 2)
    ensures r.Running? && !i.Call? && !i.Ret? ==> r.next.sp == s.sp && r.next.stack == s.stack
    ensures r.Running? && !i.LdBcd? && !i.StoreRegs? ==> r.next.memory == s.memory
    ensures r.Running? && !i.Cls? && !i.Drw? ==> r.next.gfx == s.gfx && r.next.drawFlag == s.drawFlag
    ensures r.Running? ==> r.next.keypad == s.keypad
    ensures i.Unknown? ==> r == Running(Next(s))
  {
    if ControlsPc(i) then Branch(s, i)
    else if !TouchesMemory(i) then Running(Transfer(s, i, rnd))
    else match i
      case Cls => Running(ClearScreen(s))
      case Drw(x, y, n) => DrawAt(s, x, y, n)
      case LdBcd(x) => StoreBcd(s, x)
      case StoreRegs(x) => StoreRegisters(s, x)
      case LoadRegs(x) => LoadRegisters(s, x)
  }

  /** One cycle (emulate_cycle): fetch the word at `pc`, decode it, execute
      it. A fetch past memory faults at the first missing byte; otherwise
      the cycle executes whatever instruction the two bytes at `pc` encode. */
  function Step(s: State, rnd: Byte): (r: Outcome)
    ensures !CanFetch(s) ==> r.Halted? && r.fault.AddressOutOfRange?
    ensures !CanFetch(s) ==>
      && r.fault.addr >= MemorySize
      && (r.fault.addr == s.pc || (r.fault.addr == s.pc + 1 && s.pc < MemorySize))
    ensures forall i | WellFormed(i) && CanFetch(s)
        && s.memory[s.pc] == Encode(i) / 0x100 && s.memory[s.pc + 1] == Encode(i) % 0x100 ::
      r == Execute(s, i, rnd)
  {
    if !CanFetch(s) then Halted(AddressOutOfRange(FirstOutside(s.pc, 2)))
    else
      assert forall i | WellFormed(i)
          && s.memory[s.pc] == Encode(i) / 0x100 && s.memory[s.pc + 1] == Encode(i) % 0x100 ::
        Decode(Fetch(s)) == i
      by {
        forall i | WellFormed(i)
            && s.memory[s.pc] == Encode(i) / 0x100 && s.memory[s.pc + 1] == Encode(i) % 0x100
          ensures Decode(Fetch(s)) == i
        {
          DivMod(Fetch(s), 0x100, s.memory[s.pc], s.memory[s.pc + 1]);
          DivMod(Encode(i), 0x100, Encode(i) / 0x100, Encode(i) % 0x100);
          DecodeEncode(i);
        }
      }
      Execute(s, Decode(Fetch(s)), rnd)
  }
}
