/** The CHIP-8 machine state (the `Chip8_t` record of cpu.c) and reset.

    Every fixed-size array of the record is a sequence whose length is part
    of its type, so no operation needs a separate well-formedness argument.
    Widths follow the C declarations: `unsigned char` is a Byte,
    `unsigned short` is a Word. The record's `opcode` field only caches the
    word being executed and is not kept here.
 */
module Machine {

  const MemorySize: nat := 4096
  const RegisterCount: nat := 16
  const StackDepth: nat := 16
  const Width: nat := 64
  const Height: nat := 32
  const ScreenSize: nat := 2048
  const KeyCount: nat := 16
  const FontSize: nat := 80
  /** Address at which programs are loaded and execution starts. */
  const ProgramStart: nat := 0x200
  /** Index of the flag register VF. */
  const VF: nat := 0xF

  type Byte = b: int | 0 <= b < 0x100
  type Word = w: int | 0 <= w < 0x1_0000
  type Nibble = n: int | 0 <= n < 0x10
  /** A 12-bit address operand `nnn`. */
  type Addr = a: int | 0 <= a < 0x1000

  type Memory = m: seq<Byte> | |m| == MemorySize witness seq(4096, _ => 0)
  type Registers = r: seq<Byte> | |r| == RegisterCount witness seq(16, _ => 0)
  type Stack = t: seq<Word> | |t| == StackDepth witness seq(16, _ => 0)
  type StackPointer = n: int | 0 <= n <= StackDepth
  type Screen = g: seq<bool> | |g| == ScreenSize witness seq(2048, _ => false)
  type Keypad = k: seq<bool> | |k| == KeyCount witness seq(16, _ => false)
  /** The 16 hexadecimal glyphs, five bytes each. */
  type FontTable = f: seq<Byte> | |f| == FontSize witness seq(80, _ => 0)

  datatype State = State(
    memory: Memory,
    V: Registers,
    stack: Stack,
    sp: StackPointer,
    gfx: Screen,
    delayTimer: Byte,
    soundTimer: Byte,
    I: Word,
    pc: Word,
    keypad: Keypad,
    drawFlag: bool)

  /** Conditions under which the machine stops: each is an access the C code
      performs without a bounds check. */
  datatype Fault =
    | StackOverflow(at: Word)
    | StackUnderflow(at: Word)
    | AddressOutOfRange(addr: int)
    | KeyOutOfRange(key: Byte)

  /** The result of executing one instruction. */
  datatype Outcome = Running(next: State) | Halted(fault: Fault)

  datatype Option<T> = None | Some(value: T)

  function BlankScreen(): (g: Screen)
    ensures forall p :: 0 <= p < ScreenSize ==> !g[p]
  {
    seq(ScreenSize, _ => false)
  }

  /** Machine reset (init_chip8): zero memory, registers, stack, screen and
      timers, copy the font into bytes 0..79, start at 0x200. The keypad and
      the draw flag are not touched by the reset. */
  function Reset(s: State, font: FontTable): (r: State)
    ensures r.pc == ProgramStart && r.I == 0 && r.sp == 0
    ensures forall i :: 0 <= i < RegisterCount ==> r.V[i] == 0
    ensures forall i :: 0 <= i < StackDepth ==> r.stack[i] == 0
    ensures forall p :: 0 <= p < ScreenSize ==> !r.gfx[p]
    ensures r.delayTimer == 0 && r.soundTimer == 0
    ensures forall a :: 0 <= a < FontSize ==> r.memory[a] == font[a]
    ensures forall a :: FontSize <= a < MemorySize ==> r.memory[a] == 0
    ensures r.keypad == s.keypad && r.drawFlag == s.drawFlag
  {
    State(
      memory := font + seq(MemorySize - FontSize, _ => 0),
      V := seq(RegisterCount, _ => 0),
      stack := seq(StackDepth, _ => 0),
      sp := 0,
      gfx := BlankScreen(),
      delayTimer := 0,
      soundTimer := 0,
      I := 0,
      pc := ProgramStart,
      keypad := s.keypad,
      drawFlag := s.drawFlag)
  }

  /** The 16-bit program counter after moving forward `k` bytes; the C field
      is an `unsigned short`, so the addition wraps. */
  function Advance(pc: Word, k: nat): (r: Word)
    ensures pc + k < 0x1_0000 ==> r == pc + k
  {
    (pc + k) % 0x1_0000
  }

  /** Both bytes of the instruction at `pc` lie inside memory. */
  predicate CanFetch(s: State)
  {
    s.pc + 1 < MemorySize
  }

  /** The big-endian instruction word at `pc` (cpu.c:325). */
  function Fetch(s: State): (w: Word)
    requires CanFetch(s)
    ensures w / 0x100 == s.memory[s.pc] && w % 0x100 == s.memory[s.pc + 1]
  {
    (s.memory[s.pc] as int) * 0x100 + s.memory[s.pc + 1]
  }
}
