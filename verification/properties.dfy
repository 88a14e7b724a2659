/** Properties that relate several instructions, or an instruction and the
    cycle that fetches it. */
module Properties {
  import opened Machine
  import opened Bits
  import opened Decoder
  import opened Display
  import opened Cpu

  // ---------------------------------------------------------------- fetch and decode

  /** When the two bytes at `pc` are the encoding of `i`, a cycle executes
      `i`. */
  lemma StepRunsEncoded(s: State, i: Instr, rnd: Byte)
    requires WellFormed(i) && CanFetch(s)
    requires s.memory[s.pc] == Encode(i) / 0x100 && s.memory[s.pc + 1] == Encode(i) % 0x100
    ensures Step(s, rnd) == Execute(s, i, rnd)
  {
    DivMod(Fetch(s), 0x100, s.memory[s.pc], s.memory[s.pc + 1]);
    DivMod(Encode(i), 0x100, Encode(i) / 0x100, Encode(i) % 0x100);
    assert Fetch(s) == Encode(i);
    DecodeEncode(i);
  }

  // ---------------------------------------------------------------- program counter

  /** The condition under which each skip instruction skips, as its
      comment states it. */
  predicate SkipCondition(s: State, i: Instr)
    requires i.SeImm? || i.SneImm? || i.SeReg? || i.SneReg? || i.Skp? || i.Sknp?
    requires (i.Skp? || i.Sknp?) ==> s.V[i.x] < KeyCount
  {
    match i
    case SeImm(x, kk) => s.V[x] == kk
    case SneImm(x, kk) => s.V[x] != kk
    case SeReg(x, y) => s.V[x] == s.V[y]
    case SneReg(x, y) => s.V[x] != s.V[y]
    case Skp(x) => s.keypad[s.V[x]]
    case Sknp(x) => !s.keypad[s.V[x]]
  }

  /** A skip moves `pc` on by 4 when its condition holds and by 2 otherwise,
      and changes nothing else; a key skip naming a key above 0xF stops the
      machine. */
  lemma SkipAdvance(s: State, i: Instr, rnd: Byte)
    requires i.SeImm? || i.SneImm? || i.SeReg? || i.SneReg? || i.Skp? || i.Sknp?
    requires s.pc + 4 < 0x1_0000
    ensures (i.Skp? || i.Sknp?) && s.V[i.x] >= KeyCount ==>
      Execute(s, i, rnd) == Halted(KeyOutOfRange(s.V[i.x]))
    ensures (i.Skp? || i.Sknp?) ==> s.V[i.x] < KeyCount ==>
      Execute(s, i, rnd) == Running(s.(pc := s.pc + if SkipCondition(s, i) then 4 else 2))
    ensures !(i.Skp? || i.Sknp?) ==>
      Execute(s, i, rnd) == Running(s.(pc := s.pc + if SkipCondition(s, i) then 4 else 2))
  {
  }

  // ---------------------------------------------------------------- CALL and RET

  /** CALL then RET comes back to the instruction after the CALL with the
      stack pointer restored; only the stack slot used is left holding the
      return address. */
  lemma CallThenReturn(s: State, nnn: Addr, rnd: Byte)
    requires s.sp < StackDepth
    ensures Execute(s, Call(nnn), rnd).Running?
    ensures var c := Execute(s, Call(nnn), rnd).next;
      && c.pc == nnn && c.sp == s.sp + 1
      && Execute(c, Ret, rnd) == Running(s.(stack := c.stack, pc := Advance(s.pc, 2)))
  {
  }

  /** Execute instructions in order, stopping at the first fault. */
  function Run(s: State, body: seq<Instr>, rnd: Byte): Outcome
    decreases |body|
  {
    if |body| == 0 then Running(s)
    else match Execute(s, body[0], rnd)
      case Halted(f) => Halted(f)
      case Running(t) => Run(t, body[1..], rnd)
  }

  /** A body without CALL or RET keeps the stack as it found it. */
  lemma {:induction false} RunKeepsStack(s: State, body: seq<Instr>, rnd: Byte)
    requires forall k :: 0 <= k < |body| ==> !body[k].Call? && !body[k].Ret?
    ensures Run(s, body, rnd).Running? ==>
      Run(s, body, rnd).next.sp == s.sp && Run(s, body, rnd).next.stack == s.stack
    decreases |body|
  {
    if |body| > 0 {
      if Execute(s, body[0], rnd).Running? {
        RunKeepsStack(Execute(s, body[0], rnd).next, body[1..], rnd);
      }
    }
  }

  /** CALL, a subroutine body without nested calls that runs to its end,
      then RET: execution resumes after the CALL with the caller's stack
      pointer. */
  lemma CallBodyReturn(s: State, nnn: Addr, body: seq<Instr>, rnd: Byte)
    requires s.sp < StackDepth
    requires forall k :: 0 <= k < |body| ==> !body[k].Call? && !body[k].Ret?
    ensures var c := Execute(s, Call(nnn), rnd).next;
      Run(c, body, rnd).Running? ==>
        var e := Execute(Run(c, body, rnd).next, Ret, rnd);
        e.Running? && e.next.pc == Advance(s.pc, 2) && e.next.sp == s.sp
  {
    var c := Execute(s, Call(nnn), rnd).next;
    RunKeepsStack(c, body, rnd);
  }

  /** The cycle-level round trip: with `CALL 0x300` at 0x200 and `RET` at
      0x300, two cycles bring `pc` to 0x202 and `sp` back. */
  lemma CallReturnProgram(s: State, rnd: Byte)
    requires s.pc == 0x200 && s.sp < StackDepth
    requires s.memory[0x200] == 0x23 && s.memory[0x201] == 0x00
    requires s.memory[0x300] == 0x00 && s.memory[0x301] == 0xEE
    ensures Step(s, rnd).Running? && Step(s, rnd).next.pc == 0x300
    ensures var c := Step(s, rnd).next;
      Step(c, rnd).Running? && Step(c, rnd).next.pc == 0x202 && Step(c, rnd).next.sp == s.sp
  {
    StepRunsEncoded(s, Call(0x300), rnd);
    var c := Step(s, rnd).next;
    StepRunsEncoded(c, Ret, rnd);
  }

  // ---------------------------------------------------------------- loads, jumps, ADD Vx, kk

  /** LD Vx, kk followed by SE Vx, kk always skips; followed by SNE Vx, kk
      it never does. */
  lemma LoadThenSkip(s: State, x: Nibble, kk: Byte, rnd: Byte)
    requires s.pc + 6 < 0x1_0000
    ensures var a := Execute(s, LdImm(x, kk), rnd).next;
      && Execute(a, SeImm(x, kk), rnd).next.pc == s.pc + 6
      && Execute(a, SneImm(x, kk), rnd).next.pc == s.pc + 4
  {
  }

  /** The immediate and register loads LD Vx, kk, ADD Vx, kk, LD Vx, Vy,
      LD I and LD F each write their one destination and move on to the
      next instruction; nothing else changes. */
  lemma Loads(s: State, x: Nibble, y: Nibble, kk: Byte, nnn: Addr, rnd: Byte)
    ensures Execute(s, LdImm(x, kk), rnd) == Running(Next(s).(V := s.V[x := kk]))
    ensures Execute(s, AddImm(x, kk), rnd) == Running(Next(s).(V := s.V[x := ((s.V[x] as int + kk) % 0x100) as Byte]))
    ensures Execute(s, LdReg(x, y), rnd) == Running(Next(s).(V := s.V[x := s.V[y]]))
    ensures Execute(s, LdI(nnn), rnd) == Running(Next(s).(I := nnn))
    ensures Execute(s, LdFont(x), rnd) == Running(Next(s).(I := s.V[x] as int * 5))
  {
    LoadImmediate(s, x, kk, rnd);
    LoadAddImmediate(s, x, kk, rnd);
    LoadRegister(s, x, y, rnd);
    LoadIndex(s, nnn, rnd);
    LoadFont(s, x, rnd);
  }

  /** OR, AND and XOR combine Vy into Vx bit by bit, and RND stores the
      random byte masked by kk; only Vx and pc change. */
  lemma BitwiseLoads(s: State, x: Nibble, y: Nibble, kk: Byte, rnd: Byte)
    ensures Execute(s, Or(x, y), rnd) == Running(Next(s).(V := s.V[x := ByteOp(OrOp, s.V[x], s.V[y])]))
    ensures Execute(s, And(x, y), rnd) == Running(Next(s).(V := s.V[x := ByteOp(AndOp, s.V[x], s.V[y])]))
    ensures Execute(s, Xor(x, y), rnd) == Running(Next(s).(V := s.V[x := ByteOp(XorOp, s.V[x], s.V[y])]))
    ensures Execute(s, Rnd(x, kk), rnd) == Running(Next(s).(V := s.V[x := ByteOp(AndOp, rnd, kk)]))
  {
    LoadOr(s, x, y, rnd);
    LoadAnd(s, x, y, rnd);
    LoadXor(s, x, y, rnd);
    LoadRandom(s, x, kk, rnd);
  }

  /** LD Vx, DT, LD DT, Vx and LD ST, Vx copy one byte between a register
      and a timer; only that destination and pc change. */
  lemma TimerLoads(s: State, x: Nibble, rnd: Byte)
    ensures Execute(s, LdFromDelay(x), rnd) == Running(Next(s).(V := s.V[x := s.delayTimer]))
    ensures Execute(s, LdDelay(x), rnd) == Running(Next(s).(delayTimer := s.V[x]))
    ensures Execute(s, LdSound(x), rnd) == Running(Next(s).(soundTimer := s.V[x]))
  {
    LoadFromDelay(s, x, rnd);
    LoadDelay(s, x, rnd);
    LoadSoundTimer(s, x, rnd);
  }

  lemma LoadImmediate(s: State, x: Nibble, kk: Byte, rnd: Byte)
    ensures Execute(s, LdImm(x, kk), rnd) == Running(Next(s).(V := s.V[x := kk]))
  {
  }

  lemma LoadRegister(s: State, x: Nibble, y: Nibble, rnd: Byte)
    ensures Execute(s, LdReg(x, y), rnd) == Running(Next(s).(V := s.V[x := s.V[y]]))
  {
  }

  lemma LoadOr(s: State, x: Nibble, y: Nibble, rnd: Byte)
    ensures Execute(s, Or(x, y), rnd) == Running(Next(s).(V := s.V[x := ByteOp(OrOp, s.V[x], s.V[y])]))
  {
  }

  lemma LoadAnd(s: State, x: Nibble, y: Nibble, rnd: Byte)
    ensures Execute(s, And(x, y), rnd) == Running(Next(s).(V := s.V[x := ByteOp(AndOp, s.V[x], s.V[y])]))
  {
  }

  lemma LoadRandom(s: State, x: Nibble, kk: Byte, rnd: Byte)
    ensures Execute(s, Rnd(x, kk), rnd) == Running(Next(s).(V := s.V[x := ByteOp(AndOp, rnd, kk)]))
  {
  }

  lemma LoadIndex(s: State, nnn: Addr, rnd: Byte)
    ensures Execute(s, LdI(nnn), rnd) == Running(Next(s).(I := nnn))
  {
  }

  lemma LoadFont(s: State, x: Nibble, rnd: Byte)
    ensures Execute(s, LdFont(x), rnd) == Running(Next(s).(I := s.V[x] as int * 5))
  {
  }

  lemma LoadSoundTimer(s: State, x: Nibble, rnd: Byte)
    ensures Execute(s, LdSound(x), rnd) == Running(Next(s).(soundTimer := s.V[x]))
  {
  }

  lemma LoadXor(s: State, x: Nibble, y: Nibble, rnd: Byte)
    ensures Execute(s, Xor(x, y), rnd) == Running(Next(s).(V := s.V[x := ByteOp(XorOp, s.V[x], s.V[y])]))
  {
  }

  lemma LoadFromDelay(s: State, x: Nibble, rnd: Byte)
    ensures Execute(s, LdFromDelay(x), rnd) == Running(Next(s).(V := s.V[x := s.delayTimer]))
  {
  }

  lemma LoadDelay(s: State, x: Nibble, rnd: Byte)
    ensures Execute(s, LdDelay(x), rnd) == Running(Next(s).(delayTimer := s.V[x]))
  {
  }

  lemma LoadAddImmediate(s: State, x: Nibble, kk: Byte, rnd: Byte)
    ensures Execute(s, AddImm(x, kk), rnd) == Running(Next(s).(V := s.V[x := ((s.V[x] as int + kk) % 0x100) as Byte]))
  {
  }

  /** LD Vx, Vy makes the registers equal, so SE Vx, Vy then skips. */
  lemma CopyThenSkip(s: State, x: Nibble, y: Nibble, rnd: Byte)
    requires s.pc + 6 < 0x1_0000
    ensures var a := Execute(s, LdReg(x, y), rnd).next;
      a.V[x] == a.V[y] && Execute(a, SeReg(x, y), rnd).next.pc == s.pc + 6
  {
  }

  /** LD DT, Vx then LD Vy, DT copies Vx into Vy through the delay timer;
      apart from the two pc steps, the timer and Vy, nothing changes. */
  lemma DelayRoundTrip(s: State, x: Nibble, y: Nibble, rnd: Byte)
    ensures var a := Execute(s, LdDelay(x), rnd).next;
      var b := Execute(a, LdFromDelay(y), rnd).next;
      a.delayTimer == s.V[x] && b.V == s.V[y := s.V[x]]
    ensures var a := Execute(s, LdDelay(x), rnd).next;
      Execute(a, LdFromDelay(y), rnd).next == Next(Next(s)).(delayTimer := s.V[x], V := s.V[y := s.V[x]])
  {
  }

  /** ADD Vx, kk adds modulo 256 and, unlike ADD Vx, Vy, leaves VF alone;
      adding 256 - kk afterwards undoes it. */
  lemma AddImmediate(s: State, x: Nibble, kk: Byte, rnd: Byte)
    requires x != VF
    ensures var a := Execute(s, AddImm(x, kk), rnd).next;
      && (a.V[x] as int - s.V[x]) % 0x100 == kk
      && a.V[VF] == s.V[VF]
      && Execute(a, AddImm(x, (0x100 - kk) % 0x100), rnd).next.V == s.V
  {
    var a := Execute(s, AddImm(x, kk), rnd).next;
    assert a.V == s.V[x := (s.V[x] as int + kk) % 0x100];
    var k := (0x100 - kk) % 0x100;
    var b := Execute(a, AddImm(x, k), rnd).next;
    assert b.V == a.V[x := (a.V[x] as int + k) % 0x100];
    AddUndone(s.V[x], kk);
  }

  /** Adding kk modulo 256 moves a byte by kk, and adding 256 - kk moves
      it back. */
  lemma AddUndone(v: Byte, kk: Byte)
    ensures ((v as int + kk) % 0x100 - v) % 0x100 == kk
    ensures ((v as int + kk) % 0x100 + (0x100 - kk) % 0x100) % 0x100 == v
  {
    var t := v as int + kk;
    if t < 0x100 {
      DivMod(t, 0x100, 0, t);
    } else {
      DivMod(t, 0x100, 1, t - 0x100);
    }
  }

  /** JP nnn goes to nnn; JP V0, nnn goes to nnn offset by V0, which is JP
      nnn when V0 is 0. */
  lemma Jumps(s: State, nnn: Addr, rnd: Byte)
    ensures Execute(s, Jp(nnn), rnd).next.pc == nnn
    ensures Execute(s, JpV0(nnn), rnd).next.pc == nnn + s.V[0]
    ensures s.V[0] == 0 ==> Execute(s, JpV0(nnn), rnd) == Execute(s, Jp(nnn), rnd)
  {
  }

  // ---------------------------------------------------------------- ALU

  /** XOR-ing the same register in twice restores the target register. */
  lemma XorTwiceRestores(s: State, x: Nibble, y: Nibble, rnd: Byte)
    requires x != y
    ensures var a := Execute(s, Xor(x, y), rnd).next;
      Execute(a, Xor(x, y), rnd).next.V == s.V
  {
    var a := Execute(s, Xor(x, y), rnd).next;
    assert a.V == s.V[x := ByteOp(XorOp, s.V[x], s.V[y])];
    var b := Execute(a, Xor(x, y), rnd).next;
    assert b.V == a.V[x := ByteOp(XorOp, a.V[x], a.V[y])];
    XorByteTwice(s.V[x], s.V[y]);
  }

  /** `(a ^ b) ^ b == a` on bytes. */
  lemma XorByteTwice(a: Byte, b: Byte)
    ensures ByteOp(XorOp, ByteOp(XorOp, a, b), b) == a
  {
    var once := ByteOp(XorOp, a, b);
    ByteOpBitwise(XorOp, a, b);
    ByteOpBitwise(XorOp, once, b);
    XorTwice(a, b, 8);
    Pow2Byte();
    assert a % Pow2(8) == a;
  }

  lemma ByteOpBitwise(op: Op, a: Byte, b: Byte)
    ensures ByteOp(op, a, b) == Bitwise(op, a, b, 8)
  {
  }

  /** `a & b` is at most each operand. */
  lemma AndBounds(a: Byte, b: Byte)
    ensures ByteOp(AndOp, a, b) <= a && ByteOp(AndOp, a, b) <= b
  {
    Pow2Byte();
    assert a % Pow2(8) == a && b % Pow2(8) == b;
    AndAtMost(a, b, 8);
    AndAtMost(b, a, 8);
    BitwiseSymmetric(AndOp, a, b, 8);
  }

  /** RND Vx, kk: the result has no bit that `kk` lacks. */
  lemma RandomMasked(s: State, x: Nibble, kk: Byte, rnd: Byte)
    ensures var r := Execute(s, Rnd(x, kk), rnd).next;
      && r.V[x] <= kk
      && forall k :: 0 <= k < 8 && Bit(r.V[x], k) ==> Bit(kk, k) && Bit(rnd, k)
  {
    AndBounds(rnd, kk);
  }

  // ---------------------------------------------------------------- Dxyn

  /** Drawing the same sprite twice at the same place restores the screen;
      the second VF is 1 exactly when the sprite hit a pixel that was dark
      before the first draw. */
  lemma DrawTwiceRestores(s: State, x: Nibble, y: Nibble, n: Nibble, rnd: Byte)
    requires x != VF && y != VF && InMemory(s.I, n)
    ensures var a := Execute(s, Drw(x, y, n), rnd).next;
      var b := Execute(a, Drw(x, y, n), rnd).next;
      && b.gfx == s.gfx
      && (b.V[VF] == 1 <==>
          exists p :: 0 <= p < ScreenSize && Covers(Block(s.memory, s.I, n), s.V[x], s.V[y], p) && !s.gfx[p])
  {
    DrawTwice(s.gfx, Block(s.memory, s.I, n), s.V[x], s.V[y]);
  }

  // ---------------------------------------------------------------- Fx0A

  /** With no key down, a cycle on LD Vx, K changes nothing, so the same
      instruction runs again next cycle. */
  lemma WaitKeyBlocks(s: State, x: Nibble, rnd: Byte)
    requires CanFetch(s)
    requires s.memory[s.pc] == 0xF0 + x && s.memory[s.pc + 1] == 0x0A
    requires forall j :: 0 <= j < KeyCount ==> !s.keypad[j]
    ensures Step(s, rnd) == Running(s)
  {
    StepRunsEncoded(s, WaitKey(x), rnd);
  }

  /** Once a key is down, a cycle on LD Vx, K stores the lowest such key in
      Vx and moves on by 2. */
  lemma WaitKeyResumes(s: State, x: Nibble, key: Nibble, rnd: Byte)
    requires CanFetch(s)
    requires s.memory[s.pc] == 0xF0 + x && s.memory[s.pc + 1] == 0x0A
    requires s.keypad[key] && forall j :: 0 <= j < key ==> !s.keypad[j]
    ensures Step(s, rnd) == Running(s.(V := s.V[x := key], pc := s.pc + 2))
  {
    StepRunsEncoded(s, WaitKey(x), rnd);
    LowestKeyIs(s.keypad, key);
  }

  /** The key `LowestKey` finds is the one that is down with all below up. */
  lemma LowestKeyIs(keys: Keypad, key: Nibble)
    requires keys[key] && forall j :: 0 <= j < key ==> !keys[j]
    ensures LowestKey(keys, 0) == Some(key)
  {
    var k := LowestKey(keys, 0);
    assert k.Some?;
  }

  // ---------------------------------------------------------------- Fx29, Fx55, Fx65

  /** Store then load of V0..Vx at the same I gives back the registers. */
  lemma StoreThenLoad(s: State, x: Nibble)
    requires InMemory(s.I, x + 1)
    ensures var a := StoreRegisters(s, x).next;
      var b := LoadRegisters(a, x).next;
      b.V == s.V && b.memory == a.memory
  {
    var a := StoreRegisters(s, x).next;
    var b := LoadRegisters(a, x).next;
    assert forall k :: 0 <= k < RegisterCount ==> b.V[k] == s.V[k];
  }

  /** Load then store of V0..Vx at the same I leaves memory as it was. */
  lemma LoadThenStore(s: State, x: Nibble)
    requires InMemory(s.I, x + 1)
    ensures var a := LoadRegisters(s, x).next;
      var b := StoreRegisters(a, x).next;
      b.memory == s.memory
  {
    var a := LoadRegisters(s, x).next;
    var b := StoreRegisters(a, x).next;
    assert forall m :: 0 <= m < MemorySize ==> b.memory[m] == s.memory[m];
  }

  /** Only LD B, Vx and LD [I], Vx write memory, and only from I on, so the
      font loaded at reset stays intact while those run with I past it. */
  lemma FontIntact(s: State, i: Instr, rnd: Byte)
    requires (i.LdBcd? || i.StoreRegs?) ==> s.I >= FontSize
    ensures Execute(s, i, rnd).Running? ==>
      forall a :: 0 <= a < FontSize ==> Execute(s, i, rnd).next.memory[a] == s.memory[a]
  {
    if !i.LdBcd? && !i.StoreRegs? {
      assert Execute(s, i, rnd).Running? ==> Execute(s, i, rnd).next.memory == s.memory;
    }
  }

  /** After reset, LD F, Vx for a hex digit Vx points I at that digit's five
      font bytes. */
  lemma FontGlyphAfterReset(s: State, font: FontTable, x: Nibble, d: Nibble, rnd: Byte)
    ensures var t := Reset(s, font);
      var r := Execute(t.(V := t.V[x := d]), LdFont(x), rnd).next;
      r.I + 5 <= FontSize && r.memory[r.I .. r.I + 5] == font[5 * d .. 5 * d + 5]
  {
  }
}
