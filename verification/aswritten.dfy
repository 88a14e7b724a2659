/** cpu.c as written, where a handler body or the cycle contradicts the
    behaviour its comment documents. Each member here comes with a lemma
    exhibiting an input on which the written code and the documented
    behaviour differ; the rest of the model follows the documented
    behaviour.

    As written, the cycle truncates the fetched word to one byte, so no
    handler other than CLS is ever reached. Each member after the cycle's
    isolates one defect and assumes the others corrected: the handler runs
    on the operands the documented decoding gives it, and the cycle adds 2
    afterwards. */
module AsWritten {
  import opened Machine
  import opened Bits
  import opened Decoder
  import opened Display
  import opened Cpu
  import opened Properties

  // ---------------------------------------------------------------- emulate_cycle

  /** emulate_cycle as written: the fetched word is stored in the one-byte
      `opcode` field, so only its low byte survives. The class of that byte
      is always 0, so the only case taken is the inner test, which clears the
      screen whenever the low nibble is 0xE. Then `pc` moves on by 2. */
  function CycleAsWritten(s: State): (r: State)
    requires CanFetch(s)
    ensures r == Next(s).(gfx := r.gfx)
    ensures s.memory[s.pc + 1] % 0x10 == 0xE ==> r.gfx == BlankScreen()
    ensures s.memory[s.pc + 1] % 0x10 != 0xE ==> r.gfx == s.gfx
  {
    var opcode := ((s.memory[s.pc] as int) * 0x100 + s.memory[s.pc + 1]) % 0x100;
    if opcode / 0x1000 == 0x0 && opcode % 0x10 == 0xE then Next(s).(gfx := BlankScreen())
    else Next(s)
  }

  /** CLS (00E0) leaves a lit pixel lit as written; the modelled cycle
      clears it. */
  lemma ClsIgnoredAsWritten(s: State, rnd: Byte)
    requires CanFetch(s) && s.memory[s.pc] == 0x00 && s.memory[s.pc + 1] == 0xE0 && s.gfx[0]
    ensures CycleAsWritten(s).gfx[0]
    ensures Step(s, rnd).Running? && !Step(s, rnd).next.gfx[0]
  {
    StepRunsEncoded(s, Cls, rnd);
  }

  /** LD V0, 0x0E (600E) clears the screen and leaves V0 alone as written;
      the modelled cycle loads V0 and leaves the screen alone. */
  lemma LoadClearsAsWritten(s: State, rnd: Byte)
    requires CanFetch(s) && s.memory[s.pc] == 0x60 && s.memory[s.pc + 1] == 0x0E && s.gfx[0]
    ensures !CycleAsWritten(s).gfx[0] && CycleAsWritten(s).V[0] == s.V[0]
    ensures Step(s, rnd).Running? && Step(s, rnd).next.gfx[0] && Step(s, rnd).next.V[0] == 0x0E
  {
    StepRunsEncoded(s, LdImm(0, 0x0E), rnd);
  }

  /** The `y` field as written: the word is masked with 0x0F00, the mask of
      `x`, and shifted right by 4, giving 16 times the `x` nibble. */
  function YAsWritten(w: Word): (y: nat)
    ensures y == 0x10 * X(w)
  {
    ((w / 0x100) % 0x10) * 0x10
  }

  /** For 8120 (LD V1, V2) the written `y` is 16, past the last register;
      the decoded `y` is 2. */
  lemma YMaskAsWritten()
    ensures YAsWritten(0x8120) == 0x10 && Y(0x8120) == 2
    ensures Decode(0x8120) == LdReg(1, 2)
  {
    Fields(8, 1, 2, 0);
  }

  // ---------------------------------------------------------------- CALL and RET

  /** The part of the state CALL and RET touch; `sp` is the C code's
      `unsigned char`. */
  datatype Frame = Frame(pc: Word, sp: Byte, stack: Stack)

  /** CALL as written, followed by the cycle's own +2: it pushes the address
      of the CALL itself, never moves `sp`, and the cycle then steps past the
      first instruction of the subroutine. */
  function CallAsWritten(f: Frame, nnn: Addr): (r: Option<Frame>)
    ensures r.Some? <==> f.sp < StackDepth
    ensures r.Some? ==> r.value.sp == f.sp && r.value.pc == nnn + 2
  {
    if f.sp >= StackDepth then None
    else Some(Frame(Advance(nnn, 2), f.sp, f.stack[f.sp := f.pc]))
  }

  /** RET as written, followed by the cycle's +2: it reads the slot at `sp`
      and then decrements `sp`, wrapping below 0. */
  function ReturnAsWritten(f: Frame): (r: Option<Frame>)
    ensures r.Some? <==> f.sp < StackDepth
    ensures r.Some? ==> r.value.sp == (f.sp + 0xFF) % 0x100
    ensures r.Some? ==> r.value.pc == Advance(f.stack[f.sp], 2) && r.value.stack == f.stack
  {
    if f.sp >= StackDepth then None
    else Some(Frame(Advance(f.stack[f.sp], 2), (f.sp as int - 1) % 0x100, f.stack))
  }

  /** From `pc` 0x200 with an empty stack, CALL 0x300 lands on 0x302 instead
      of 0x300, and the RET that follows leaves `sp` at 255 instead of 0. */
  lemma CallReturnAsWritten(stack: Stack)
    ensures var c := CallAsWritten(Frame(0x200, 0, stack), 0x300);
      && c.Some? && c.value.pc == 0x302
      && ReturnAsWritten(c.value).Some? && ReturnAsWritten(c.value).value.sp == 0xFF
  {
  }

  // ---------------------------------------------------------------- 1nnn, Bnnn

  /** JP and JP V0 as written, followed by the cycle's +2: the handler sets
      `pc` to the target (`nnn + offset`, the offset being 0 for JP and V0
      for JP V0) and the cycle then steps past the instruction there. */
  function JumpAsWritten(nnn: Addr, offset: Byte): (pc: Word)
    ensures pc == nnn + offset + 2
  {
    Advance(nnn + offset, 2)
  }

  /** JP 0x300 next fetches from 0x302 as written and from 0x300 in the
      model; JP V0, 0x300 with V0 = 4 next fetches from 0x306 instead of
      0x304. */
  lemma JumpOvershootsAsWritten(s: State, rnd: Byte)
    requires s.V[0] == 4
    ensures JumpAsWritten(0x300, 0) == 0x302 && Execute(s, Jp(0x300), rnd).next.pc == 0x300
    ensures JumpAsWritten(0x300, s.V[0]) == 0x306 && Execute(s, JpV0(0x300), rnd).next.pc == 0x304
  {
  }

  // ---------------------------------------------------------------- 8xy7, 8xyE

  /** SUBN as written: the difference Vy - Vx is stored into Vy. */
  function SubnAsWritten(v: Registers, x: Nibble, y: Nibble): (r: Registers)
    ensures x != y && x != VF ==> r[x] == v[x]
  {
    var t := v[VF := Flag(v[y] > v[x])];
    t[y := (t[y] as int - t[x]) % 0x100]
  }

  /** With V0 = 3 and V1 = 5, SUBN V0, V1 leaves V0 at 3 as written; the
      documented result is 2. */
  lemma SubnWrongRegister(s: State)
    requires s.V[0] == 3 && s.V[1] == 5
    ensures SubnAsWritten(s.V, 0, 1)[0] == 3
    ensures SubReverse(s, 0, 1).V[0] == 2
  {
  }

  /** SHL as written: the flag is Vx shifted right by 15, not by 7. */
  function ShlAsWritten(v: Registers, x: Nibble): (r: Registers)
    ensures r[VF] == 0
    ensures x != VF ==> r[x] == (v[x] as int * 2) % 0x100
    ensures forall i :: 0 <= i < RegisterCount && i != x && i != VF ==> r[i] == v[i]
  {
    var t := v[VF := v[x] / 0x8000];
    t[x := (t[x] as int * 2) % 0x100]
  }

  /** With V0 = 0x80, SHL V0 shifts a 1 out: the documented flag is 1. */
  lemma ShlFlagLost(s: State)
    requires s.V[0] == 0x80
    ensures ShlAsWritten(s.V, 0)[VF] == 0
    ensures ShiftLeft(s, 0).V[VF] == 1
  {
  }

  // ---------------------------------------------------------------- Fx33, Fx55

  /** LD B, Vx as written: the three digits go into registers I, I+1, I+2
      (past V15 the C code writes outside the register file, here a halt),
      each digit computed from Vx as it stands after the previous write. */
  function BcdAsWritten(s: State, x: Nibble): (r: Outcome)
    ensures r.Running? ==> r.next.memory == s.memory
  {
    if s.I + 2 >= RegisterCount then Halted(AddressOutOfRange(s.I + 2))
    else
      var v1 := s.V[s.I := s.V[x] / 100];
      var v2 := v1[s.I + 1 := (v1[x] / 10) % 10];
      var v3 := v2[s.I + 2 := (v2[x] % 100) % 10];
      Running(Next(s).(V := v3))
  }

  /** With I = 0 and V5 = 234, LD B, V5 leaves memory as it was and puts
      2, 3, 4 into V0..V2 as written; documented, memory[0..2] = 2, 3, 4. */
  lemma BcdIntoRegisters(s: State)
    requires s.I == 0 && s.V[5] == 234
    ensures BcdAsWritten(s, 5).Running? && BcdAsWritten(s, 5).next.memory == s.memory
    ensures BcdAsWritten(s, 5).next.V[..3] == [2, 3, 4]
    ensures StoreBcd(s, 5).Running? && StoreBcd(s, 5).next.memory[..3] == [2, 3, 4]
  {
  }

  /** LD [I], Vx as written: the loop reads memory and stores nothing. */
  function StoreAsWritten(s: State, x: Nibble): (r: Outcome)
    ensures r.Running? ==> r.next.memory == s.memory && r.next.V == s.V
  {
    if !InMemory(s.I, x + 1) then Halted(AddressOutOfRange(FirstOutside(s.I, x + 1)))
    else Running(Next(s))
  }

  /** When V0 differs from memory[I], storing V0 and loading it back changes
      V0 as written; with the documented store it comes back unchanged. */
  lemma StoreLoadAsWritten(s: State)
    requires s.I < MemorySize && s.V[0] != s.memory[s.I]
    ensures LoadRegisters(StoreAsWritten(s, 0).next, 0).next.V[0] != s.V[0]
    ensures LoadRegisters(StoreRegisters(s, 0).next, 0).next.V[0] == s.V[0]
  {
  }

  // ---------------------------------------------------------------- Dxyn

  /** The pixel indices the drawing loops as written visit for one sprite
      row, in order, from the left column `x` and the row `y`. The C code
      passes the register indices as `x` and `y`, and nothing wraps. */
  function RowTargets(b: Byte, x: int, y: int, col: nat): (t: seq<int>)
    requires col <= 8
    ensures forall k :: 0 <= k < |t| ==> x + col + y * Width <= t[k] < x + 8 + y * Width
    ensures forall i, j :: 0 <= i < j < |t| ==> t[i] < t[j]
    decreases 8 - col
  {
    if col == 8 then []
    else (if SpriteBit(b, col) then [x + col + y * Width] else []) + RowTargets(b, x, y, col + 1)
  }

  /** All rows, from `row` on: every index lies in the 8-pixel window at
      `x` of one of the rows, and the indices only grow, so none is visited
      twice. */
  function TargetsAsWritten(sprite: seq<Byte>, x: int, y: int, row: nat): (t: seq<int>)
    requires row <= |sprite|
    ensures forall k :: 0 <= k < |t| ==> x + (y + row) * Width <= t[k] < x + 8 + (y + |sprite| - 1) * Width
    ensures forall i, j :: 0 <= i < j < |t| ==> t[i] < t[j]
    decreases |sprite| - row
  {
    if row == |sprite| then []
    else
      var first, rest := RowTargets(sprite[row], x, y + row, 0), TargetsAsWritten(sprite, x, y, row + 1);
      var here, last := (y + row) * Width, (y + |sprite| - 1) * Width;
      assert (y + row + 1) * Width == here + Width;
      assert here <= last by { assert last - here == (|sprite| - 1 - row) * Width; }
      JoinRanges(first, rest, x + here, x + here + Width, x + 8 + last);
      first + rest
  }

  /** Two increasing runs, the second starting at or above `mid` and the
      first below it, join into one increasing run with the common bounds. */
  lemma JoinRanges(a: seq<int>, b: seq<int>, lo: int, mid: int, hi: int)
    requires lo <= mid
    requires forall k :: 0 <= k < |a| ==> lo <= a[k] < mid && a[k] < hi
    requires forall k :: 0 <= k < |b| ==> mid <= b[k] < hi
    requires forall i, j :: 0 <= i < j < |a| ==> a[i] < a[j]
    requires forall i, j :: 0 <= i < j < |b| ==> b[i] < b[j]
    ensures forall k :: 0 <= k < |a + b| ==> lo <= (a + b)[k] < hi
    ensures forall i, j :: 0 <= i < j < |a + b| ==> (a + b)[i] < (a + b)[j]
  {
  }

  /** Flip the visited pixels in order; as written VF is overwritten with the
      old value of every pixel flipped, so it ends up reporting only the
      last one. An index past the screen is a halt. */
  function FlipAsWritten(g: Screen, vf: Byte, targets: seq<int>): (r: Option<(Screen, Byte)>)
    ensures r.Some? <==> forall k :: 0 <= k < |targets| ==> 0 <= targets[k] < ScreenSize
    ensures r.Some? && |targets| > 0 ==> r.value.1 <= 1
    decreases |targets|
  {
    if |targets| == 0 then Some((g, vf))
    else if !(0 <= targets[0] < ScreenSize) then None
    else FlipAsWritten(g[targets[0] := !g[targets[0]]], Flag(g[targets[0]]), targets[1..])
  }

  /** No pixel index is visited twice. */
  predicate Distinct(t: seq<int>)
  {
    forall i, j :: 0 <= i < j < |t| ==> t[i] != t[j]
  }

  /** On distinct on-screen indices the written flip inverts exactly the
      visited pixels, and VF ends as the old value of the last one visited,
      whatever the earlier ones held. */
  lemma {:induction false} FlipAsWrittenEffect(g: Screen, vf: Byte, t: seq<int>)
    requires forall k :: 0 <= k < |t| ==> 0 <= t[k] < ScreenSize
    requires Distinct(t)
    ensures FlipAsWritten(g, vf, t).Some?
    ensures forall p :: 0 <= p < ScreenSize ==> FlipAsWritten(g, vf, t).value.0[p] == (g[p] != (p in t))
    ensures FlipAsWritten(g, vf, t).value.1 == if |t| == 0 then vf else Flag(g[t[|t| - 1]])
    decreases |t|
  {
    if |t| > 0 {
      var g1, t1 := g[t[0] := !g[t[0]]], t[1..];
      FlipAsWrittenEffect(g1, Flag(g[t[0]]), t1);
      assert FlipAsWritten(g, vf, t) == FlipAsWritten(g1, Flag(g[t[0]]), t1);
      forall p | 0 <= p < ScreenSize
        ensures FlipAsWritten(g, vf, t).value.0[p] == (g[p] != (p in t))
      {
        assert p in t <==> p == t[0] || p in t1;
        if p == t[0] {
          assert p !in t1;
        }
      }
      if |t| > 1 {
        assert t[|t| - 1] == t1[|t1| - 1] && t[|t| - 1] != t[0];
      }
    }
  }

  /** The bits of the sprite row 0xC0: its two leftmost columns. */
  lemma SpriteC0(col: nat)
    requires col < 8
    ensures SpriteBit(0xC0, col) <==> col < 2
  {
    Pow2Byte();
    assert Pow2(1) == 2 && Pow2(2) == 4 && Pow2(3) == 8 && Pow2(4) == 16 && Pow2(5) == 32 && Pow2(6) == 64;
  }

  /** The written loops visit pixels 0 and 1 for the row 0xC0 at (0, 0). */
  lemma TargetsC0()
    ensures TargetsAsWritten([0xC0], 0, 0, 0) == [0, 1]
  {
    SpriteC0(0); SpriteC0(1); SpriteC0(2); SpriteC0(3);
    SpriteC0(4); SpriteC0(5); SpriteC0(6); SpriteC0(7);
    assert RowTargets(0xC0, 0, 0, 2) == [];
    assert RowTargets(0xC0, 0, 0, 0) == [0, 1];
  }

  /** The written DRW handler on a whole sprite: VF starts at 0, the
      visited indices are distinct, so when they all lie on the screen the
      sprite's pixels are inverted and VF ends as the old value of the last
      one visited. */
  lemma DrawAsWrittenEffect(g: Screen, sprite: seq<Byte>, x: int, y: int, t: seq<int>)
    requires t == TargetsAsWritten(sprite, x, y, 0)
    requires forall k :: 0 <= k < |t| ==> 0 <= t[k] < ScreenSize
    ensures var r := FlipAsWritten(g, 0, t);
      && r.Some?
      && (forall p :: 0 <= p < ScreenSize ==> r.value.0[p] == (g[p] != (p in t)))
      && r.value.1 == if |t| == 0 then 0 else Flag(g[t[|t| - 1]])
  {
    TargetsDistinct(sprite, x, y);
    FlipAsWrittenEffect(g, 0, t);
  }

  /** The written loops never visit an index twice. */
  lemma TargetsDistinct(sprite: seq<Byte>, x: int, y: int)
    ensures Distinct(TargetsAsWritten(sprite, x, y, 0))
  {
    var t := TargetsAsWritten(sprite, x, y, 0);
    forall i, j | 0 <= i < j < |t|
      ensures t[i] != t[j]
    {
      assert t[i] < t[j];
    }
  }

  /** The row 0xC0 visits the two pixels at the left of row `y`. */
  lemma RowC0(x: int, y: int)
    ensures RowTargets(0xC0, x, y, 0) == [x + y * Width, x + 1 + y * Width]
  {
    SpriteC0(0); SpriteC0(1); SpriteC0(2); SpriteC0(3);
    SpriteC0(4); SpriteC0(5); SpriteC0(6); SpriteC0(7);
    assert RowTargets(0xC0, x, y, 2) == [];
  }

  /** DRW V1, V1, 1 with V1 = 10 and the row 0xC0 at I: as written the loops
      visit pixels 65 and 66, taking the register index 1 as both
      coordinates; the modelled DRW flips pixels 650 and 651, at (10, 10),
      and leaves pixel 65 alone. */
  lemma DrawIndicesAsWritten(s: State, rnd: Byte)
    requires s.V[1] == 10 && s.I == 0x300 && s.memory[0x300] == 0xC0
    ensures TargetsAsWritten([0xC0], 1, 1, 0) == [65, 66]
    ensures var d := Execute(s, Drw(1, 1, 1), rnd);
      && d.Running?
      && d.next.gfx[650] != s.gfx[650] && d.next.gfx[651] != s.gfx[651]
      && d.next.gfx[65] == s.gfx[65]
  {
    RowC0(1, 1);
    assert Block(s.memory, 0x300, 1) == [0xC0];
    var g := DrawScreen(s.gfx, [0xC0], 10, 10);
    CoversC0At10();
    assert g[650] != s.gfx[650] && g[651] != s.gfx[651] && g[65] == s.gfx[65];
  }

  /** The row 0xC0 at (10, 10) covers pixels 650 and 651, not 65. */
  lemma CoversC0At10()
    ensures Covers([0xC0], 10, 10, 650) && Covers([0xC0], 10, 10, 651)
    ensures !Covers([0xC0], 10, 10, 65)
  {
    SpriteC0(0); SpriteC0(1);
    assert ColumnOf(650, 10) == 0 && RowOf(650, 10) == 0;
    assert ColumnOf(651, 10) == 1 && RowOf(651, 10) == 0;
    assert ColumnOf(65, 10) == 55;
  }

  /** The bits of the sprite row 0x08: column 4 only. */
  lemma Sprite08(col: nat)
    requires col < 8
    ensures SpriteBit(0x08, col) <==> col == 4
  {
    Pow2Byte();
    assert Pow2(1) == 2 && Pow2(2) == 4 && Pow2(3) == 8 && Pow2(4) == 16 && Pow2(5) == 32 && Pow2(6) == 64;
  }

  /** The row 0x08 drawn at column 60 of row 0 reaches past the right edge:
      as written the loops visit index 64, the first pixel of row 1; the
      modelled sprite wraps to pixel 0, the first pixel of row 0. */
  lemma NoWrapAsWritten()
    ensures TargetsAsWritten([0x08], 60, 0, 0) == [64]
    ensures Covers([0x08], 60, 0, 0) && !Covers([0x08], 60, 0, 64)
  {
    Sprite08(0); Sprite08(1); Sprite08(2); Sprite08(3);
    Sprite08(4); Sprite08(5); Sprite08(6); Sprite08(7);
    assert RowTargets(0x08, 60, 0, 5) == [];
    assert RowTargets(0x08, 60, 0, 0) == [64];
    assert ColumnOf(0, 60) == 4 && RowOf(0, 0) == 0;
    assert RowOf(64, 0) == 1;
  }

  /** A one-row sprite 0xC0 drawn with x = y = 0 over a lit pixel 0 and a dark
      pixel 1: as written VF ends 0; the documented flag is 1 because a lit
      pixel was erased. */
  lemma DrawFlagAsWritten(g: Screen)
    requires g[0] && !g[1]
    ensures TargetsAsWritten([0xC0], 0, 0, 0) == [0, 1]
    ensures var flipped := FlipAsWritten(g, 0, [0, 1]);
      flipped.Some? && !flipped.value.0[0] && flipped.value.0[1] && flipped.value.1 == 0
    ensures Collides(g, [0xC0], 0, 0)
  {
    TargetsC0();
    FlipC0(g);
    CollidesC0(g);
  }

  /** The written flip of pixels 0 and 1 ends with VF holding pixel 1's old
      value. */
  lemma FlipC0(g: Screen)
    requires g[0] && !g[1]
    ensures var flipped := FlipAsWritten(g, 0, [0, 1]);
      flipped.Some? && !flipped.value.0[0] && flipped.value.0[1] && flipped.value.1 == 0
  {
    var g1 := g[0 := false];
    assert [0, 1][1..] == [1] && [1][1..] == [];
    assert FlipAsWritten(g, 0, [0, 1]) == FlipAsWritten(g1, 1, [1]);
    assert FlipAsWritten(g1, 1, [1]) == FlipAsWritten(g1[1 := true], 0, []);
  }

  /** Row 0xC0 at (0, 0) hits the lit pixel 0. */
  lemma CollidesC0(g: Screen)
    requires g[0]
    ensures Collides(g, [0xC0], 0, 0)
  {
    SpriteC0(0);
    assert ColumnOf(0, 0) == 0 && RowOf(0, 0) == 0;
    assert Covers([0xC0], 0, 0, 0);
  }

  /** DRW as written moves `pc` on by 2 itself, and the cycle adds 2 more,
      so the instruction after the DRW is skipped. */
  function DrawPcAsWritten(s: State): (pc: Word)
    ensures s.pc + 4 < 0x1_0000 ==> pc == s.pc + 4
  {
    Advance(Advance(s.pc, 2), 2)
  }

  /** From 0x200 the written DRW leaves `pc` at 0x204; the modelled DRW
      leaves it at 0x202. */
  lemma DrawPcSkipsAsWritten(s: State, x: Nibble, y: Nibble, n: Nibble, rnd: Byte)
    requires s.pc == 0x200 && InMemory(s.I, n)
    ensures DrawPcAsWritten(s) == 0x204
    ensures Execute(s, Drw(x, y, n), rnd).Running? && Execute(s, Drw(x, y, n), rnd).next.pc == 0x202
  {
  }
}
