# CHIP-8 interpreter core in Dafny

A functional model of the CHIP-8 virtual machine in `cpu.c`. It covers
the `Chip8_t` machine record, machine reset (`init_chip8`), fetching and
decoding the big-endian instruction word, and one cycle (`emulate_cycle`).
The cycle dispatches each decoded instruction to the semantics of its
opcode handler. Each handler's semantics are taken from its doc-comment,
which quotes section 3.1 of Cowgod's Chip-8 Technical Reference; sprites
and the font follow section 2.4 of the same reference. Where a handler body
contradicts its doc-comment, the model follows the comment, and the body as
written is modelled separately under "## Findings".

Modules (one file each):

- `Machine` (`machine.dfy`): the state record, with fixed-length sequences
  for memory, registers, stack, framebuffer and keypad. Also reset, the
  16-bit `pc` increment, and the fetch of the instruction word.
- `Bits` (`bits.dfy`): the C operators `&`, `|`, `^` on naturals, defined
  bit by bit, with their per-bit meaning and a few algebraic laws.
- `Decoder` (`decoder.dfy`): a total decoder from a 16-bit word to a
  closed `Instr` datatype with one variant per handler plus `Unknown`. Also
  its inverse `Encode`.
- `Display` (`display.dfy`): XOR sprite drawing with wrap-around and the
  collision flag. It is defined pixel by pixel, and a loop method follows
  the handler's row/column loops.
- `Cpu` (`cpu.dfy`): the handlers, `Execute` and `Step`.
- `Properties` (`properties.dfy`): properties that relate several
  instructions, or an instruction and the cycle.
- `AsWritten` (`aswritten.dfy`): the defective bodies as written, each with
  an input that shows the defect.

Conventions:

- **Program counter.** Executing an instruction computes the next `pc`:
  - ordinary instructions add 2;
  - skips add 4 when their condition holds and 2 otherwise;
  - JP, CALL, RET and JP V0 go to their target;
  - LD Vx, K keeps `pc` while no key is down.

  For ordinary instructions, the skips, RET and LD Vx, K this is what
  the handler and the cycle's own `pc += 2` produce together. For JP,
  JP V0, CALL and DRW the handler and the cycle together land elsewhere;
  the model follows the handlers' comments, and the bodies as written are
  under "## Findings". `pc` is an `unsigned short`, so `Advance` wraps it
  at 0x10000.
- **Faults.** The C code performs some accesses without a bounds check.
  Each of them halts the machine with a `Fault`:
  - a fetch with `pc + 1` past memory;
  - a read or write at `I + k` past memory;
  - CALL with all 16 stack slots in use;
  - RET with an empty stack;
  - SKP/SKNP with a key index `Vx` above 0xF.
- **VF order.** When `x` or `y` is F, the order of the writes matters.
  ADD Vx, Vy writes the sum and then VF. SUB, SHR, SUBN and SHL write VF
  first and then compute the result from the updated registers. This is
  the order of the handler bodies.
- **Unknown words.** A word that matches no handler decodes to `Unknown`,
  which only moves `pc` on by 2. This includes 5xy1, 8xy8, E09F and F0FF.
- **Random byte.** RND takes its random byte as a parameter of `Step`.

## Model

| member | source | states |
|---|---|---|
| Machine.Reset | cpu.c:346-380 | pc = 0x200, I = sp = 0; every register, stack slot, timer and pixel is 0; memory holds the font in bytes 0..79 and 0 elsewhere; keypad and draw flag are kept |
| Machine.Fetch | cpu.c:325 | the word's high byte is memory[pc] and its low byte is memory[pc+1] (big-endian) |
| Machine.Advance | cpu.c:20 | the 16-bit pc moves forward by k when that does not pass 0xFFFF |
| Decoder.Decode | cpu.c:323-339 | every word decodes; the instruction's class nibble, from the opcode table, is the word's top nibble; 00E0 and 00EE are exactly CLS and RET; an unrecognised word is kept whole |
| Decoder.Encode | cpu.c:323-339 | the word of an instruction carries its class from the opcode table in the top nibble; an unrecognised word is written back unchanged |
| Decoder.Fields | cpu.c:327-329 | the class, x, y, n, kk and nnn fields of an assembled word are its parts |
| Decoder.EncodeDecode | cpu.c:323-339 | decoding loses nothing: encoding the decoded instruction gives back every word |
| Decoder.DecodeEncode | cpu.c:323-339 | every well-formed instruction decodes back from its encoding |
| Decoder.DecodeInjective | cpu.c:323-339 | two words decoding to the same instruction are equal |
| Cpu.ByteOp | cpu.c:97-113 | each bit of `a op b` is the operator applied to the operands' bits (OR, AND, XOR) |
| Cpu.ClearScreen | cpu.c:25-31 | every pixel is off and nothing but the screen and pc changes |
| Cpu.ReturnFromSub | cpu.c:33-38 | halts exactly when the stack is empty; otherwise sp drops by one and pc becomes the slot it uncovers; nothing else changes |
| Cpu.CallSub | cpu.c:46-53 | halts exactly when all 16 slots are used; otherwise the address after the CALL goes into slot sp, sp grows by one, pc = nnn, other slots unchanged |
| Cpu.SkipIf | cpu.c:55-77 | only pc changes, by 4 when the condition holds and by 2 otherwise |
| Cpu.SkipOnKey | cpu.c:225-239 | halts exactly when Vx is not a key index; otherwise skips when the key's state matches |
| Cpu.AddCarry | cpu.c:115-128 | Vx + 256·VF equals the old Vx + Vy; VF = 1 exactly when the sum exceeds 255; other registers unchanged |
| Cpu.SubBorrow | cpu.c:130-137 | the new Vx plus Vy is the old Vx modulo 256; VF = 1 exactly when Vx > Vy; other registers unchanged |
| Cpu.SubReverse | cpu.c:148-155 | the new Vx plus the old Vx is Vy modulo 256; VF = 1 exactly when Vy > Vx; other registers unchanged |
| Cpu.ShiftRight | cpu.c:139-146 | 2·Vx + VF equals the old Vx: VF is the bit shifted out |
| Cpu.ShiftLeft | cpu.c:157-164 | Vx + 256·VF equals twice the old Vx: VF is the bit shifted out |
| Cpu.DrawAt | cpu.c:199-223 | halts exactly when the sprite bytes at I pass the end of memory; otherwise the screen is the sprite XOR-ed on at (Vx, Vy), VF reports a collision, the draw flag is set, V0..VE are unchanged |
| Cpu.LowestKey | cpu.c:252-259 | the key found is down and every key below it is up; none is found exactly when no key is down |
| Cpu.WaitForKey | cpu.c:248-264 | pc stays exactly when no key is down, and then nothing changes; otherwise Vx is the lowest key down and only Vx and pc change |
| Cpu.Bcd | cpu.c:292-298 | each digit is at most 9 and 100·h + 10·t + o is the value |
| Cpu.StoreBcd | cpu.c:288-298 | halts exactly when I+2 is past memory; otherwise memory at I, I+1, I+2 holds the decimal digits of Vx and no other byte changes |
| Cpu.StoreRegisters | cpu.c:300-309 | halts exactly when I+x is past memory; otherwise memory[I+k] = Vk for k ≤ x and no other byte changes |
| Cpu.LoadRegisters | cpu.c:311-320 | halts exactly when I+x is past memory; otherwise Vk = memory[I+k] for k ≤ x and registers above x are unchanged |
| Cpu.StoreLoop | cpu.c:303-309 | the handler's loop, storing one register per iteration, computes the same memory as StoreRegisters |
| Cpu.LoadLoop | cpu.c:314-320 | the handler's loop, loading one register per iteration, computes the same registers as LoadRegisters: Vk = memory[I + k] for every k up to x, and the registers above x keep their values |
| Cpu.Branch | cpu.c:33-77 | jumps, calls, returns, skips and the key wait (also cpu.c:166-188, 225-264) write nothing but pc, the stack, sp and, for the key wait, one register (the other fifteen keep their values); only RET, CALL, SKP and SKNP can fault |
| Cpu.Transfer | cpu.c:79-197 | the register, I and timer instructions (also cpu.c:241-286) never fault, move pc on by 2 and write nothing but the registers, I and the timers |
| Cpu.Execute | cpu.c:25-320 | only RET, CALL, DRW, SKP, SKNP, LD B, LD [I] and LD Vx, [I] can fault; instructions other than jumps, calls, returns, skips and key waits move pc on by 2; only CALL and RET touch the stack; only LD B and LD [I] write memory; only CLS and DRW touch the screen and draw flag; no instruction changes the keypad; an unrecognised word only moves pc on by 2 |
| Cpu.Step | cpu.c:323-344 | when pc + 1 is past memory the cycle halts at the first missing byte (pc itself when pc is past memory, else pc + 1); otherwise it executes the instruction that the two bytes at pc encode |
| Display.PixelAtInverse | cpu.c:203-204 | a sprite cell lands on a pixel exactly when that pixel maps back to the cell: wrapped placement is a bijection |
| Display.DrawSprite | cpu.c:206-223 | the row/column loops produce the pixel-wise XOR of the sprite, and the flag is set exactly when a covered pixel was lit |
| Display.DrawFlipsSpriteBits | cpu.c:199-219 | each set bit (row, col) flips the pixel at ((Vx+col) mod 64, (Vy+row) mod 32) |
| Display.DrawKeepsMissedPixels | cpu.c:199-219 | pixels no set bit lands on keep their value |
| Display.CollisionMeansErased | cpu.c:202 | a collision is reported exactly when some lit pixel is turned off |
| Display.DrawTwice | cpu.c:199-223 | drawing the same sprite twice restores the screen; the second draw collides exactly when the sprite hit a dark pixel |
| Display.DrawTwiceOnBlank | cpu.c:199-223 | on a blank screen the first draw does not collide and the second does exactly when the sprite has a set bit |
| Display.WrapAtRightEdge | cpu.c:203-204 | at column 60, sprite columns 4..7 land on screen columns 0..3 |
| Properties.StepRunsEncoded | cpu.c:323-344 | a cycle on the bytes encoding an instruction executes that instruction |
| Properties.SkipAdvance | cpu.c:55-77 | each of the six skips adds 4 to pc when its condition holds and 2 otherwise and changes nothing else (also 9xy0, Ex9E, ExA1 at cpu.c:166-174, 225-239) |
| Properties.CallThenReturn | cpu.c:33-53 | CALL nnn goes to nnn with one more slot in use; the RET after it goes to the instruction after the CALL with sp as before |
| Properties.RunKeepsStack | cpu.c:14-15 | a sequence of instructions without CALL or RET leaves stack and sp alone |
| Properties.CallBodyReturn | cpu.c:33-53 | CALL, a body without calls, then RET resumes after the CALL with the caller's sp |
| Properties.CallReturnProgram | cpu.c:323-344 | with CALL 0x300 at 0x200 and RET at 0x300, two cycles bring pc to 0x202 and sp back |
| Properties.Loads | cpu.c:79-95 | LD Vx, kk sets only Vx; ADD Vx, kk adds kk to Vx modulo 256 and sets no carry flag (cpu.c:85-89); LD Vx, Vy copies Vy into Vx (cpu.c:91-95); LD I, nnn sets only I (cpu.c:176-181); LD F, Vx points I at 5 * Vx (cpu.c:280-286); each moves pc on by 2 and changes nothing else |
| Properties.BitwiseLoads | cpu.c:97-113 | OR, AND and XOR combine Vy into Vx bit by bit; RND stores the random byte AND kk in Vx (cpu.c:190-197); each moves pc on by 2 and changes nothing but Vx |
| Properties.TimerLoads | cpu.c:241-246 | LD Vx, DT copies the delay timer into Vx; LD DT, Vx copies Vx into the delay timer (cpu.c:266-271); LD ST, Vx copies Vx into the sound timer (cpu.c:273-278); each moves pc on by 2 and changes nothing but its destination |
| Properties.LoadThenSkip | cpu.c:55-83 | after LD Vx, kk, SE Vx, kk always skips and SNE Vx, kk never does |
| Properties.CopyThenSkip | cpu.c:71-95 | after LD Vx, Vy the registers are equal and SE Vx, Vy skips |
| Properties.DelayRoundTrip | cpu.c:241-271 | LD DT, Vx then LD Vy, DT copies Vx into Vy; the state after both is the old one moved on by two instructions with the delay timer holding Vx and Vy replaced by Vx, and nothing else changed |
| Properties.AddImmediate | cpu.c:85-89 | ADD Vx, kk adds modulo 256, leaves VF alone, and adding 256 - kk undoes it |
| Properties.Jumps | cpu.c:183-188 | JP goes to nnn, JP V0 goes to nnn + V0, and the two agree when V0 is 0 |
| Properties.XorTwiceRestores | cpu.c:109-113 | XOR-ing the same register in twice restores the registers |
| Properties.AndBounds | cpu.c:103-107 | `a AND b` is at most each operand |
| Properties.RandomMasked | cpu.c:190-197 | RND's result is at most kk and has no bit that kk or the random byte lacks |
| Properties.DrawTwiceRestores | cpu.c:199-223 | two identical DRW instructions restore the screen; the second VF is 1 exactly when the sprite hit a pixel dark before the first |
| Properties.WaitKeyBlocks | cpu.c:248-264 | with no key down a cycle on LD Vx, K changes nothing, so it runs again |
| Properties.WaitKeyResumes | cpu.c:248-264 | with a key down the cycle stores the lowest such key and moves pc on by 2 |
| Properties.StoreThenLoad | cpu.c:300-320 | LD [I], Vx then LD Vx, [I] gives back the registers |
| Properties.LoadThenStore | cpu.c:300-320 | LD Vx, [I] then LD [I], Vx leaves memory as it was |
| Properties.FontIntact | cpu.c:372-375 | no instruction writes the font bytes while the memory writers have I past them |
| Properties.FontGlyphAfterReset | cpu.c:280-286 | after reset, LD F, Vx for a hex digit points I at that digit's five font bytes |
| AsWritten.CycleAsWritten | cpu.c:323-344 | as written, a cycle clears the screen exactly when the low nibble of the fetched word is E, and otherwise only moves pc on by 2 |
| AsWritten.ClsIgnoredAsWritten | cpu.c:333-339 | as written 00E0 leaves a lit pixel lit; the modelled cycle clears it |
| AsWritten.LoadClearsAsWritten | cpu.c:333-339 | as written 600E clears the screen and leaves V0; the modelled cycle loads V0 and keeps the screen |
| AsWritten.YAsWritten | cpu.c:329 | the `y` written with the mask 0x0F00 is 16 times the x nibble |
| AsWritten.YMaskAsWritten | cpu.c:329 | for 8120 the written y is 16; the decoded y is 2 |
| AsWritten.CallAsWritten | cpu.c:46-53 | as written, CALL keeps sp and the cycle lands on nnn + 2 |
| AsWritten.ReturnAsWritten | cpu.c:33-38 | as written, RET sets pc to stack[sp] + 2, reading slot sp before the 8-bit sp is decremented (wrapping 0 to 255), and leaves the stack unchanged |
| AsWritten.CallReturnAsWritten | cpu.c:33-53 | from pc 0x200 and an empty stack, CALL 0x300 lands on 0x302 and the RET after it leaves sp at 255 |
| AsWritten.JumpAsWritten | cpu.c:40-44 | as written, JP and JP V0 (cpu.c:183-188) followed by the cycle's +2 land 2 past the target |
| AsWritten.JumpOvershootsAsWritten | cpu.c:40-44 | JP 0x300 next fetches from 0x302 as written and from 0x300 in the model; JP V0, 0x300 with V0 = 4 from 0x306 instead of 0x304 |
| AsWritten.SubnAsWritten | cpu.c:152-155 | as written, SUBN leaves Vx unchanged when x is neither y nor F |
| AsWritten.SubnWrongRegister | cpu.c:152-155 | with V0 = 3, V1 = 5, SUBN V0, V1 leaves V0 = 3 as written; the modelled result is 2 |
| AsWritten.ShlAsWritten | cpu.c:157-164 | as written, SHL always sets VF to 0, doubles Vx modulo 256 when x is not F, and leaves the other registers unchanged |
| AsWritten.ShlFlagLost | cpu.c:161-164 | with V0 = 0x80 the written flag is 0; the modelled flag is 1 |
| AsWritten.BcdAsWritten | cpu.c:292-298 | as written, LD B, Vx leaves memory unchanged |
| AsWritten.BcdIntoRegisters | cpu.c:292-298 | with I = 0 and V5 = 234, the digits 2, 3, 4 land in V0..V2 as written; the model puts them in memory[0..2] |
| AsWritten.StoreAsWritten | cpu.c:303-309 | as written, LD [I], Vx changes neither memory nor registers |
| AsWritten.StoreLoadAsWritten | cpu.c:303-320 | storing V0 and loading it back changes V0 as written when memory[I] differs; the modelled round trip restores it |
| AsWritten.FlipAsWritten | cpu.c:211-219 | the written pixel loop halts exactly when an index is off the screen; VF ends as a 0/1 value |
| AsWritten.RowTargets | cpu.c:211-216 | the indices the written inner loop visits for one sprite row lie in the 8-pixel window at x of that screen row and strictly increase |
| AsWritten.TargetsAsWritten | cpu.c:211-216 | the indices the written nested loops visit lie between x on the first sprite row and x + 8 on the last, and strictly increase |
| AsWritten.TargetsDistinct | cpu.c:211-216 | the written loops never visit an index twice |
| AsWritten.DrawAsWrittenEffect | cpu.c:206-219 | when every visited index is on the screen, the written DRW inverts exactly the visited pixels and leaves VF as the old value of the last one visited |
| AsWritten.FlipAsWrittenEffect | cpu.c:211-219 | on distinct on-screen indices the written loop inverts exactly the visited pixels, and VF ends as the old value of the last pixel visited, whatever the earlier ones held |
| AsWritten.DrawIndicesAsWritten | cpu.c:215-216 | with V1 = 10, DRW V1, V1, 1 visits pixels 65 and 66 as written (the register index as coordinates); the modelled DRW flips 650 and 651 and leaves 65 |
| AsWritten.NoWrapAsWritten | cpu.c:215-216 | row 0x08 at column 60 visits index 64, the first pixel of the next row, as written; the modelled sprite wraps to pixel 0 |
| AsWritten.DrawFlagAsWritten | cpu.c:206-219 | sprite 0xC0 at (0, 0) over a lit and a dark pixel leaves VF = 0 as written; the modelled flag reports the collision |
| AsWritten.DrawPcAsWritten | cpu.c:222 | as written, DRW and the cycle together move pc on by 4 |
| AsWritten.DrawPcSkipsAsWritten | cpu.c:222 | from 0x200 the written DRW leaves pc at 0x204; the modelled DRW at 0x202 |

## Left out

- `chip8.c` is not part of this model: it is the SDL window, renderer and event loop, and its own `Chip8_t` copy is never used by the core.
- `cpu.h` is not part of this model: it repeats the constants and record of `cpu.c` and declares two prototypes.
- The 60 Hz countdown of the delay and sound timers, the tone, the display refresh and the host's use of the draw flag are not in `cpu.c`. Only the instructions that read and write the timers are modelled.
- `rand()` in RND is replaced by a byte parameter of `Step`. The model states only that the result is that byte AND kk.
- The contents of `fontset` are not defined in `cpu.c`. Reset takes the 80 font bytes as a parameter.
- The record's `opcode` field only holds the word being executed, so `State` does not keep it. `AsWritten.CycleAsWritten` models its truncation.
- Cpu.SkipIf states the exact +4 or +2 only while `pc + 4` stays below 0x10000. Past that, `Advance` wraps the 16-bit `pc` and the statement does not cover it.
- Properties.SkipAdvance states the six skips' exact +4 or +2 only while `pc + 4` stays below 0x10000, for the same reason as Cpu.SkipIf.
- Cpu.AddCarry: when x is F, VF ends holding the carry and the sum is lost. The contract states the carry but not the lost sum.
- Cpu.SubBorrow does not state the difference when x or y is F. The flag is written first and is then an operand.
- Cpu.SubReverse does not state the difference when x or y is F, for the same reason as Cpu.SubBorrow.
- Cpu.ShiftRight does not state the shifted value when x is F.
- Cpu.ShiftLeft does not state the shifted value when x is F.
- Stack overflow: the code's stack has 16 slots, so CALL halts only with all 16 in use (sp = 16). A stricter reading would stop at sp = 15; the code's array size was followed.
- Timer values are not clamped anywhere in the modelled instructions, because no countdown is modelled.
- LD F, Vx sets I = 5·Vx with no masking of Vx, as the code does. For Vx above 0xF, I then points past the font.
- DRW reads Vx and Vy before VF is written, so a DRW with x or y equal to F uses the old coordinates.
- Reset does not touch the keypad and the draw flag, as `init_chip8` does not.

## Findings

As written, the cycle truncates the fetched word to one byte, so x and y
are always 0 and no handler other than CLS is ever reached (first row). Each
of the other rows isolates one defect of a handler body and assumes the
other defects corrected: the handler is run on the operands the
documented decoding would give it.

| source | as written | input that shows it | evidently intended | confidence | as-written member | corrected member |
|---|---|---|---|---|---|---|
| cpu.c:333-339 | `opcode` is one byte (cpu.c:11), so the word is truncated; only the test "low nibble is E" is ever dispatched | 00E0 leaves the screen lit; 600E clears it and leaves V0 | decode the whole word and run its handler | high, not executed | AsWritten.ClsIgnoredAsWritten | Properties.StepRunsEncoded |
| cpu.c:329 | `y` uses the mask 0x0F00 | with the word not truncated, 8120 gives y = 16 | y is bits 4-7 | high, not executed | AsWritten.YMaskAsWritten | Decoder.Fields |
| cpu.c:36-51 | CALL keeps sp, so its push overwrites slot sp, and jumps to nnn, so the cycle lands on nnn + 2; RET reads slot sp and then decrements sp, wrapping 0 to 255 | pc 0x200, sp 0: CALL 0x300 lands on 0x302, RET leaves sp 255 | push the return address, bump sp, go to nnn; RET pops it | high, not executed | AsWritten.CallReturnAsWritten | Properties.CallThenReturn |
| cpu.c:43 | JP sets pc to nnn, and the cycle then adds 2; JP V0 likewise (cpu.c:187) | JP 0x300 at 0x200 next fetches from 0x302 | the next fetch is from 0x300 | high, not executed | AsWritten.JumpOvershootsAsWritten | Properties.Jumps |
| cpu.c:154 | SUBN stores Vy - Vx into Vy | V0 = 3, V1 = 5, 8017: V0 stays 3 | V0 = 2 | high, not executed | AsWritten.SubnWrongRegister | Cpu.SubReverse |
| cpu.c:162 | SHL's flag is Vx shifted right by 15 | V0 = 0x80, 800E: VF = 0 | VF = 1, the bit shifted out | high, not executed | AsWritten.ShlFlagLost | Cpu.ShiftLeft |
| cpu.c:215 | DRW overwrites VF with the old value of every pixel it flips | sprite 0xC0 at (0, 0) over a lit pixel 0 and a dark pixel 1: VF = 0 | VF = 1 when any lit pixel is erased | high, not executed | AsWritten.DrawFlagAsWritten | Display.DrawSprite |
| cpu.c:215-216 | DRW uses the register indices x and y as coordinates | V1 = 10, DRW V1, V1, 1 with row 0xC0 flips pixels 65 and 66 | pixels 650 and 651, at (V1, V1) | high, not executed | AsWritten.DrawIndicesAsWritten | Cpu.DrawAt |
| cpu.c:215-216 | DRW indexes x + col + (y + row)·64 without wrapping | row 0x08 at column 60 of row 0 flips pixel 64, on row 1 | pixel 0: the sprite wraps to the left edge of its row | high, not executed | AsWritten.NoWrapAsWritten | Display.WrapAtRightEdge |
| cpu.c:222 | DRW adds 2 to pc, and the cycle adds 2 more | DRW at 0x200 is followed by 0x204 | the next instruction is 0x202 | high, not executed | AsWritten.DrawPcSkipsAsWritten | Cpu.Execute |
| cpu.c:295-297 | BCD writes the digits into V[I], V[I+1], V[I+2] | I = 0, V5 = 234, F533: memory unchanged, V0..V2 = 2, 3, 4 | memory[I..I+2] = 2, 3, 4 | high, not executed | AsWritten.BcdIntoRegisters | Cpu.StoreBcd |
| cpu.c:307 | the Fx55 loop reads memory and stores nothing | V0 ≠ memory[I]: F055 then F065 changes V0 | V0 comes back unchanged | high, not executed | AsWritten.StoreLoadAsWritten | Properties.StoreThenLoad |
