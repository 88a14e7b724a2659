/** Instruction decoding: a total map from a 16-bit word to a closed set of
    instructions, one variant per handler of cpu.c, and its inverse. */
module Decoder {
  import opened Machine
  import opened Bits

  /** One variant per opcode handler. `x` and `y` are register indices, `kk`
      an immediate byte, `nnn` a 12-bit address and `n` a sprite height. The
      shifts keep their ignored `y` so that every word can be re-encoded. */
  datatype Instr =
    | Cls                                   // 00E0
    | Ret                                   // 00EE
    | Jp(nnn: Addr)                         // 1nnn
    | Call(nnn: Addr)                       // 2nnn
    | SeImm(x: Nibble, kk: Byte)            // 3xkk
    | SneImm(x: Nibble, kk: Byte)           // 4xkk
    | SeReg(x: Nibble, y: Nibble)           // 5xy0
    | LdImm(x: Nibble, kk: Byte)            // 6xkk
    | AddImm(x: Nibble, kk: Byte)           // 7xkk
    | LdReg(x: Nibble, y: Nibble)           // 8xy0
    | Or(x: Nibble, y: Nibble)              // 8xy1
    | And(x: Nibble, y: Nibble)             // 8xy2
    | Xor(x: Nibble, y: Nibble)             // 8xy3
    | AddReg(x: Nibble, y: Nibble)          // 8xy4
    | Sub(x: Nibble, y: Nibble)             // 8xy5
    | Shr(x: Nibble, y: Nibble)             // 8xy6
    | Subn(x: Nibble, y: Nibble)            // 8xy7
    | Shl(x: Nibble, y: Nibble)             // 8xyE
    | SneReg(x: Nibble, y: Nibble)          // 9xy0
    | LdI(nnn: Addr)                        // Annn
    | JpV0(nnn: Addr)                       // Bnnn
    | Rnd(x: Nibble, kk: Byte)              // Cxkk
    | Drw(x: Nibble, y: Nibble, n: Nibble)  // Dxyn
    | Skp(x: Nibble)                        // Ex9E
    | Sknp(x: Nibble)                       // ExA1
    | LdFromDelay(x: Nibble)                // Fx07
    | WaitKey(x: Nibble)                    // Fx0A
    | LdDelay(x: Nibble)                    // Fx15
    | LdSound(x: Nibble)                    // Fx18
    | LdFont(x: Nibble)                     // Fx29
    | LdBcd(x: Nibble)                      // Fx33
    | StoreRegs(x: Nibble)                  // Fx55
    | LoadRegs(x: Nibble)                   // Fx65
    | Unknown(word: Word)                   // anything else

  /** Bits 12-15: the instruction class. */
  function Class(w: Word): Nibble { w / 0x1000 }
  /** Bits 8-11. */
  function X(w: Word): Nibble { (w / 0x100) % 0x10 }
  /** Bits 4-7. */
  function Y(w: Word): Nibble { (w / 0x10) % 0x10 }
  /** Bits 0-3. */
  function N(w: Word): Nibble { w % 0x10 }
  /** Bits 0-7. */
  function KK(w: Word): Byte { w % 0x100 }
  /** Bits 0-11. */
  function NNN(w: Word): Addr { w % 0x1000 }

  /** The class nibble of each instruction, as the opcode table lists it. */
  function ClassOf(i: Instr): Nibble
  {
    match i
    case Cls | Ret => 0x0
    case Jp(_) => 0x1
    case Call(_) => 0x2
    case SeImm(_, _) => 0x3
    case SneImm(_, _) => 0x4
    case SeReg(_, _) => 0x5
    case LdImm(_, _) => 0x6
    case AddImm(_, _) => 0x7
    case LdReg(_, _) | Or(_, _) | And(_, _) | Xor(_, _) | AddReg(_, _) | Sub(_, _) | Shr(_, _) | Subn(_, _) | Shl(_, _) => 0x8
    case SneReg(_, _) => 0x9
    case LdI(_) => 0xA
    case JpV0(_) => 0xB
    case Rnd(_, _) => 0xC
    case Drw(_, _, _) => 0xD
    case Skp(_) | Sknp(_) => 0xE
    case Unknown(w) => Class(w)
    case _ => 0xF
  }

  /** The instruction a word stands for: the class nibble picks the table
      row, and a word no row matches is kept as `Unknown`. */
  function Decode(w: Word): (i: Instr)
    ensures i.Unknown? ==> i.word == w
    ensures !i.Unknown? ==> ClassOf(i) == Class(w)
    ensures (i.Cls? <==> w == 0x00E0) && (i.Ret? <==> w == 0x00EE)
  {
    var x, y, n, kk, nnn := X(w), Y(w), N(w), KK(w), NNN(w);
    match Class(w)
    case 0x0 =>
      if w == 0x00E0 then Cls
      else if w == 0x00EE then Ret
      else Unknown(w)
    case 0x1 => Jp(nnn)
    case 0x2 => Call(nnn)
    case 0x3 => SeImm(x, kk)
    case 0x4 => SneImm(x, kk)
    case 0x5 => if n == 0 then SeReg(x, y) else Unknown(w)
    case 0x6 => LdImm(x, kk)
    case 0x7 => AddImm(x, kk)
    case 0x8 =>
      if n == 0x0 then LdReg(x, y)
      else if n == 0x1 then Or(x, y)
      else if n == 0x2 then And(x, y)
      else if n == 0x3 then Xor(x, y)
      else if n == 0x4 then AddReg(x, y)
      else if n == 0x5 then Sub(x, y)
      else if n == 0x6 then Shr(x, y)
      else if n == 0x7 then Subn(x, y)
      else if n == 0xE then Shl(x, y)
      else Unknown(w)
    case 0x9 => if n == 0 then SneReg(x, y) else Unknown(w)
    case 0xA => LdI(nnn)
    case 0xB => JpV0(nnn)
    case 0xC => Rnd(x, kk)
    case 0xD => Drw(x, y, n)
    case 0xE =>
      if kk == 0x9E then Skp(x)
      else if kk == 0xA1 then Sknp(x)
      else Unknown(w)
    case _ =>
      if kk == 0x07 then LdFromDelay(x)
      else if kk == 0x0A then WaitKey(x)
      else if kk == 0x15 then LdDelay(x)
      else if kk == 0x18 then LdSound(x)
      else if kk == 0x29 then LdFont(x)
      else if kk == 0x33 then LdBcd(x)
      else if kk == 0x55 then StoreRegs(x)
      else if kk == 0x65 then LoadRegs(x)
      else Unknown(w)
  }

  /** The word an instruction is written as: its class nibble on top, its
      operands in the twelve bits below. */
  function Encode(i: Instr): (w: Word)
    ensures i.Unknown? ==> w == i.word
    ensures !i.Unknown? ==> ClassOf(i) * 0x1000 <= w < ClassOf(i) * 0x1000 + 0x1000
  {
    if i.Unknown? then i.word else ClassOf(i) * 0x1000 + Operands(i)
  }

  /** The low twelve bits of an instruction's word. */
  function Operands(i: Instr): (v: nat)
    requires !i.Unknown?
    ensures v < 0x1000
  {
    match i
    case Cls => 0x0E0
    case Ret => 0x0EE
    case Jp(nnn) => nnn
    case Call(nnn) => nnn
    case SeImm(x, kk) => x * 0x100 + kk
    case SneImm(x, kk) => x * 0x100 + kk
    case SeReg(x, y) => x * 0x100 + y * 0x10
    case LdImm(x, kk) => x * 0x100 + kk
    case AddImm(x, kk) => x * 0x100 + kk
    case LdReg(x, y) => x * 0x100 + y * 0x10
    case Or(x, y) => x * 0x100 + y * 0x10 + 0x1
    case And(x, y) => x * 0x100 + y * 0x10 + 0x2
    case Xor(x, y) => x * 0x100 + y * 0x10 + 0x3
    case AddReg(x, y) => x * 0x100 + y * 0x10 + 0x4
    case Sub(x, y) => x * 0x100 + y * 0x10 + 0x5
    case Shr(x, y) => x * 0x100 + y * 0x10 + 0x6
    case Subn(x, y) => x * 0x100 + y * 0x10 + 0x7
    case Shl(x, y) => x * 0x100 + y * 0x10 + 0xE
    case SneReg(x, y) => x * 0x100 + y * 0x10
    case LdI(nnn) => nnn
    case JpV0(nnn) => nnn
    case Rnd(x, kk) => x * 0x100 + kk
    case Drw(x, y, n) => x * 0x100 + y * 0x10 + n
    case Skp(x) => x * 0x100 + 0x9E
    case Sknp(x) => x * 0x100 + 0xA1
    case LdFromDelay(x) => x * 0x100 + 0x07
    case WaitKey(x) => x * 0x100 + 0x0A
    case LdDelay(x) => x * 0x100 + 0x15
    case LdSound(x) => x * 0x100 + 0x18
    case LdFont(x) => x * 0x100 + 0x29
    case LdBcd(x) => x * 0x100 + 0x33
    case StoreRegs(x) => x * 0x100 + 0x55
    case LoadRegs(x) => x * 0x100 + 0x65
  }

  /** An `Unknown` value is only meaningful for a word no pattern matches. */
  predicate WellFormed(i: Instr)
  {
    i.Unknown? ==> Decode(i.word).Unknown?
  }

  /** The four nibbles of a word put back together give the word. */
  lemma Nibbles(w: Word)
    ensures w == Class(w) * 0x1000 + X(w) * 0x100 + Y(w) * 0x10 + N(w)
    ensures KK(w) == Y(w) * 0x10 + N(w)
    ensures NNN(w) == X(w) * 0x100 + KK(w)
  {
    var c, q1, q2 := w / 0x1000, w / 0x100, w / 0x10;
    DivMod(q1, 0x10, c, q1 % 0x10);
    DivMod(q2, 0x10, q1, q2 % 0x10);
  }

  /** Reading the fields of an assembled word gives back its parts. */
  lemma Fields(c: Nibble, x: Nibble, y: Nibble, n: Nibble)
    ensures var w := c * 0x1000 + x * 0x100 + y * 0x10 + n;
      && Class(w) == c && X(w) == x && Y(w) == y && N(w) == n
      && KK(w) == y * 0x10 + n && NNN(w) == x * 0x100 + y * 0x10 + n
  {
    var w := c * 0x1000 + x * 0x100 + y * 0x10 + n;
    DivMod(w, 0x1000, c, x * 0x100 + y * 0x10 + n);
    DivMod(w, 0x100, c * 0x10 + x, y * 0x10 + n);
    DivMod(c * 0x10 + x, 0x10, c, x);
    DivMod(w, 0x10, c * 0x100 + x * 0x10 + y, n);
    DivMod(c * 0x100 + x * 0x10 + y, 0x10, c * 0x10 + x, y);
  }

  /** The class and address of a `c nnn` word. */
  lemma AddrFields(c: Nibble, nnn: Addr)
    ensures Class(c * 0x1000 + nnn) == c && NNN(c * 0x1000 + nnn) == nnn
  {
    DivMod(c * 0x1000 + nnn, 0x1000, c, nnn);
  }

  /** The class, register and byte of a `c x kk` word. */
  lemma ByteFields(c: Nibble, x: Nibble, kk: Byte)
    ensures var w := c * 0x1000 + x * 0x100 + kk;
      Class(w) == c && X(w) == x && KK(w) == kk
  {
    DivMod(kk, 0x10, kk / 0x10, kk % 0x10);
    Fields(c, x, kk / 0x10, kk % 0x10);
  }

  /** Decoding loses nothing: every word is re-encoded to itself. */
  lemma EncodeDecode(w: Word)
    ensures Encode(Decode(w)) == w
  {
    Nibbles(w);
    var c := Class(w);
    if c == 0x0 || c == 0x5 || c == 0x8 || c == 0x9 || c == 0xD {
      EncodeDecodeRegs(w);
    } else if c == 0x1 || c == 0x2 || c == 0xA || c == 0xB {
      EncodeDecodeAddr(w);
    } else if c == 0xE || c == 0xF {
      EncodeDecodeKeyed(w);
    } else {
      EncodeDecodeByte(w);
    }
  }

  /** The classes whose operands are registers: `c x y n`. */
  lemma EncodeDecodeRegs(w: Word)
    requires Class(w) == 0x0 || Class(w) == 0x5 || Class(w) == 0x8 || Class(w) == 0x9 || Class(w) == 0xD
    requires w == Class(w) * 0x1000 + X(w) * 0x100 + Y(w) * 0x10 + N(w)
    ensures Encode(Decode(w)) == w
  {
    var c := Class(w);
    if c == 0x8 {
      var i := Decode(w);
      assert i.Unknown? || Encode(i) == 0x8000 + X(w) * 0x100 + Y(w) * 0x10 + N(w);
    }
  }

  /** The classes whose operand is an address: `c nnn`. */
  lemma EncodeDecodeAddr(w: Word)
    requires Class(w) == 0x1 || Class(w) == 0x2 || Class(w) == 0xA || Class(w) == 0xB
    requires w == Class(w) * 0x1000 + NNN(w)
    ensures Encode(Decode(w)) == w
  {
  }

  /** The classes whose operands are a register and a byte: `c x kk`. */
  lemma EncodeDecodeByte(w: Word)
    requires Class(w) == 0x3 || Class(w) == 0x4 || Class(w) == 0x6 || Class(w) == 0x7 || Class(w) == 0xC
    requires w == Class(w) * 0x1000 + X(w) * 0x100 + KK(w)
    ensures Encode(Decode(w)) == w
  {
  }

  /** The classes whose low byte selects the operation: `E x kk`, `F x kk`. */
  lemma EncodeDecodeKeyed(w: Word)
    requires Class(w) == 0xE || Class(w) == 0xF
    requires w == Class(w) * 0x1000 + X(w) * 0x100 + KK(w)
    ensures Encode(Decode(w)) == w
  {
  }

  /** Every well-formed instruction survives encoding and decoding. */
  lemma DecodeEncode(i: Instr)
    requires WellFormed(i)
    ensures Decode(Encode(i)) == i
  {
    if i.Jp? || i.Call? || i.LdI? || i.JpV0? {
      DecodeEncodeAddr(i);
    } else if i.SeImm? || i.SneImm? || i.LdImm? || i.AddImm? || i.Rnd? {
      DecodeEncodeByte(i);
    } else if i.SeReg? || i.SneReg? || i.Drw? {
      DecodeEncodeRegs(i);
    } else if i.LdReg? || i.Or? || i.And? || i.Xor? || i.AddReg? || i.Sub? || i.Shr? || i.Subn? || i.Shl? {
      DecodeEncodeAlu(i);
    } else if !i.Unknown? && !i.Cls? && !i.Ret? {
      DecodeEncodeKeyed(i);
    }
  }

  /** The `c nnn` group. */
  lemma DecodeEncodeAddr(i: Instr)
    requires i.Jp? || i.Call? || i.LdI? || i.JpV0?
    ensures Decode(Encode(i)) == i
  {
    var c := if i.Jp? then 0x1 else if i.Call? then 0x2 else if i.LdI? then 0xA else 0xB;
    assert Encode(i) == c * 0x1000 + i.nnn;
    AddrFields(c, i.nnn);
  }

  /** The `c x kk` group. */
  lemma DecodeEncodeByte(i: Instr)
    requires i.SeImm? || i.SneImm? || i.LdImm? || i.AddImm? || i.Rnd?
    ensures Decode(Encode(i)) == i
  {
    var c := if i.SeImm? then 0x3 else if i.SneImm? then 0x4 else if i.LdImm? then 0x6
      else if i.AddImm? then 0x7 else 0xC;
    assert Encode(i) == c * 0x1000 + i.x * 0x100 + i.kk;
    ByteFields(c, i.x, i.kk);
  }

  /** The `c x y n` group outside class 8. */
  lemma DecodeEncodeRegs(i: Instr)
    requires i.SeReg? || i.SneReg? || i.Drw?
    ensures Decode(Encode(i)) == i
  {
    var c := if i.SeReg? then 0x5 else if i.SneReg? then 0x9 else 0xD;
    var n := if i.Drw? then i.n else 0;
    assert Encode(i) == c * 0x1000 + i.x * 0x100 + i.y * 0x10 + n;
    Fields(c, i.x, i.y, n);
  }

  /** The sub-operation nibble of an `8xyN` instruction. */
  function AluCode(i: Instr): Nibble
  {
    match i
    case Or(_, _) => 1
    case And(_, _) => 2
    case Xor(_, _) => 3
    case AddReg(_, _) => 4
    case Sub(_, _) => 5
    case Shr(_, _) => 6
    case Subn(_, _) => 7
    case Shl(_, _) => 0xE
    case _ => 0
  }

  /** The `8xyN` group. */
  lemma DecodeEncodeAlu(i: Instr)
    requires i.LdReg? || i.Or? || i.And? || i.Xor? || i.AddReg? || i.Sub? || i.Shr? || i.Subn? || i.Shl?
    ensures Decode(Encode(i)) == i
  {
    assert Encode(i) == 8 * 0x1000 + i.x * 0x100 + i.y * 0x10 + AluCode(i);
    Fields(8, i.x, i.y, AluCode(i));
  }

  /** The sub-operation byte of an `Exkk` or `Fxkk` instruction. */
  function KeyedCode(i: Instr): Byte
  {
    match i
    case Skp(_) => 0x9E
    case Sknp(_) => 0xA1
    case LdFromDelay(_) => 0x07
    case WaitKey(_) => 0x0A
    case LdDelay(_) => 0x15
    case LdSound(_) => 0x18
    case LdFont(_) => 0x29
    case LdBcd(_) => 0x33
    case StoreRegs(_) => 0x55
    case LoadRegs(_) => 0x65
    case _ => 0
  }

  /** The `Exkk` and `Fxkk` groups. */
  lemma DecodeEncodeKeyed(i: Instr)
    requires i.Skp? || i.Sknp? || i.LdFromDelay? || i.WaitKey? || i.LdDelay? || i.LdSound?
             || i.LdFont? || i.LdBcd? || i.StoreRegs? || i.LoadRegs?
    ensures Decode(Encode(i)) == i
  {
    var c := if i.Skp? || i.Sknp? then 0xE else 0xF;
    assert Encode(i) == c * 0x1000 + i.x * 0x100 + KeyedCode(i);
    ByteFields(c, i.x, KeyedCode(i));
  }

  /** Decoding is injective on every word: distinct words, unrecognised
      ones included, decode to distinct instructions. */
  lemma DecodeInjective(w1: Word, w2: Word)
    ensures Decode(w1) == Decode(w2) ==> w1 == w2
  {
    EncodeDecode(w1);
    EncodeDecode(w2);
  }
}
