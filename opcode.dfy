/** Instruction words: the operand extractors `make_vx`, `make_vy`, `make_kk`,
    `make_nnn`, the decoded instruction set, and the pure equivalent of the
    function-pointer tables filled by `init_dispatch_table`. */
module Opcode {
  import opened Bits

  /** A 12-bit address operand (`opcode & 0x0FFF`). */
  type Address = a: uint16 | a < 0x1000

  /** `(opcode & 0xF000) >> 12`: the index into the primary dispatch table. */
  function Family(w: uint16): Nibble {
    w as int / 0x1000
  }

  /** `make_vx`: `(opcode & 0x0F00) >> 8`. */
  function X(w: uint16): Nibble {
    w as int / 0x100 % 0x10
  }

  /** `make_vy`: `(opcode & 0x00F0) >> 4`. */
  function Y(w: uint16): Nibble {
    w as int / 0x10 % 0x10
  }

  /** `opcode & 0x000F`: the sprite height, and the selector of tables 0, 8 and E. */
  function N(w: uint16): Nibble {
    w as int % 0x10
  }

  /** `make_kk`: `opcode & 0x00FF`, also the selector of table F. */
  function KK(w: uint16): uint8 {
    (w as int % 0x100) as uint8
  }

  /** `make_nnn`: `opcode & 0x0FFF`. */
  function NNN(w: uint16): Address {
    (w as int % 0x1000) as uint16
  }

  /** The instruction word with the four nibbles f, x, y, n (most significant first). */
  function Word(f: Nibble, x: Nibble, y: Nibble, n: Nibble): uint16 {
    (f * 0x1000 + x * 0x100 + y * 0x10 + n) as uint16
  }

  /** The extractors split a word into its fields and nothing is lost:
      the fields put back together give the word again. */
  lemma {:induction false} FieldsRecompose(w: uint16)
    ensures Word(Family(w), X(w), Y(w), N(w)) == w
    ensures KK(w) as int == Y(w) * 0x10 + N(w)
    ensures NNN(w) as int == X(w) * 0x100 + KK(w) as int
  {
    var v := w as int;
    var f, r1 := v / 0x1000, v % 0x1000;
    var x, r2 := r1 / 0x100, r1 % 0x100;
    var y, n := r2 / 0x10, r2 % 0x10;
    assert v == f * 0x1000 + r1;
    assert r1 == x * 0x100 + r2;
    assert r2 == y * 0x10 + n;
    assert v / 0x100 == f * 0x10 + x;
    assert v / 0x100 % 0x10 == x;
    assert v % 0x100 == r2;
    assert v / 0x10 == f * 0x100 + x * 0x10 + y;
    assert v / 0x10 % 0x10 == y;
  }

  /** Conversely, each extractor reads back the field it was given. */
  lemma {:induction false} FieldsOfWord(f: Nibble, x: Nibble, y: Nibble, n: Nibble)
    ensures Family(Word(f, x, y, n)) == f && X(Word(f, x, y, n)) == x
    ensures Y(Word(f, x, y, n)) == y && N(Word(f, x, y, n)) == n
    ensures KK(Word(f, x, y, n)) as int == y * 0x10 + n
    ensures NNN(Word(f, x, y, n)) as int == x * 0x100 + y * 0x10 + n
  {
    var v := f * 0x1000 + x * 0x100 + y * 0x10 + n;
    assert v / 0x1000 == f;
    assert v % 0x1000 == x * 0x100 + y * 0x10 + n;
    assert v / 0x100 == f * 0x10 + x;
    assert v % 0x100 == y * 0x10 + n;
    assert v / 0x10 == f * 0x100 + x * 0x10 + y;
  }

  /** One decoded instruction per handler registered in `init_dispatch_table`,
      named after what it does (the CHIP-8 mnemonic is in the comment), plus
      `Null` for `op_null`. */
  datatype Op =
    | ClearScreen                       // 00E0
    | Return                            // 00EE
    | Jump(nnn: Address)                // 1nnn
    | Call(nnn: Address)                // 2nnn
    | SkipEqImm(x: Nibble, kk: uint8)   // 3xkk
    | SkipNeImm(x: Nibble, kk: uint8)   // 4xkk
    | SkipEqReg(x: Nibble, y: Nibble)   // 5xy0
    | LoadImm(x: Nibble, kk: uint8)     // 6xkk
    | AddImm(x: Nibble, kk: uint8)      // 7xkk
    | Move(x: Nibble, y: Nibble)        // 8xy0
    | Or(x: Nibble, y: Nibble)          // 8xy1
    | And(x: Nibble, y: Nibble)         // 8xy2
    | Xor(x: Nibble, y: Nibble)         // 8xy3
    | AddReg(x: Nibble, y: Nibble)      // 8xy4
    | SubReg(x: Nibble, y: Nibble)      // 8xy5
    | ShiftRight(x: Nibble)             // 8xy6
    | SubRev(x: Nibble, y: Nibble)      // 8xy7
    | ShiftLeft(x: Nibble)              // 8xyE
    | SkipNeReg(x: Nibble, y: Nibble)   // 9xy0
    | SetIndex(nnn: Address)            // Annn
    | JumpOffset(nnn: Address)          // Bnnn
    | Random(x: Nibble, kk: uint8)      // Cxkk
    | Draw(x: Nibble, y: Nibble, n: Nibble)  // Dxyn
    | SkipKey(x: Nibble)                // Ex9E
    | SkipNoKey(x: Nibble)              // ExA1
    | ReadDelay(x: Nibble)              // Fx07
    | WaitKey(x: Nibble)                // Fx0A
    | SetDelay(x: Nibble)               // Fx15
    | SetSound(x: Nibble)               // Fx18
    | AddIndex(x: Nibble)               // Fx1E
    | Glyph(x: Nibble)                  // Fx29
    | StoreBcd(x: Nibble)               // Fx33
    | StoreRegs(x: Nibble)              // Fx55
    | LoadRegs(x: Nibble)               // Fx65
    | Null                              // op_null

  /** The instructions whose handler sets `pc` itself (jumps, call, return,
      the skips and the key wait); every other handler leaves it where the
      cycle put it. */
  predicate Transfers(op: Op) {
    || op.Return? || op.Jump? || op.Call? || op.JumpOffset? || op.WaitKey?
    || op.SkipEqImm? || op.SkipNeImm? || op.SkipEqReg? || op.SkipNeReg?
    || op.SkipKey? || op.SkipNoKey?
  }

  /** The secondary selector indexes inside the declared table: `table0`,
      `table8` and `tableE` have 0xE + 1 entries and `tableF` has 0x65 + 1, so a
      low nibble of 0xF, or a low byte above 0x65 in family F, reads past the
      array — undefined behaviour, hence a precondition of `Decode`. */
  predicate SelectorInTable(w: uint16) {
    match Family(w)
    case 0x0 => N(w) != 0xF
    case 0x8 => N(w) != 0xF
    case 0xE => N(w) != 0xF
    case 0xF => KK(w) <= 0x65
    case _ => true
  }

  /** The selectors `init_dispatch_table` gives a real handler, written as sets;
      every other in-table slot holds `op_null`. */
  predicate Registered(w: uint16) {
    match Family(w)
    case 0x0 => N(w) in {0x0, 0xE}
    case 0x8 => N(w) in {0x0, 0x1, 0x2, 0x3, 0x4, 0x5, 0x6, 0x7, 0xE}
    case 0xE => N(w) in {0x1, 0xE}
    case 0xF => KK(w) in {0x07, 0x0A, 0x15, 0x18, 0x1E, 0x29, 0x33, 0x55, 0x65}
    case _ => true
  }

  /** The operands of a decoded instruction are the fixed bit fields of the
      word, as each handler reads them with `make_vx`/`make_vy`/`make_kk`/`make_nnn`. */
  predicate OperandsFrom(op: Op, w: uint16) {
    match op
    case Jump(nnn) => nnn == NNN(w)
    case Call(nnn) => nnn == NNN(w)
    case SetIndex(nnn) => nnn == NNN(w)
    case JumpOffset(nnn) => nnn == NNN(w)
    case SkipEqImm(x, kk) => x == X(w) && kk == KK(w)
    case SkipNeImm(x, kk) => x == X(w) && kk == KK(w)
    case LoadImm(x, kk) => x == X(w) && kk == KK(w)
    case AddImm(x, kk) => x == X(w) && kk == KK(w)
    case Random(x, kk) => x == X(w) && kk == KK(w)
    case SkipEqReg(x, y) => x == X(w) && y == Y(w)
    case SkipNeReg(x, y) => x == X(w) && y == Y(w)
    case Move(x, y) => x == X(w) && y == Y(w)
    case Or(x, y) => x == X(w) && y == Y(w)
    case And(x, y) => x == X(w) && y == Y(w)
    case Xor(x, y) => x == X(w) && y == Y(w)
    case AddReg(x, y) => x == X(w) && y == Y(w)
    case SubReg(x, y) => x == X(w) && y == Y(w)
    case SubRev(x, y) => x == X(w) && y == Y(w)
    case Draw(x, y, n) => x == X(w) && y == Y(w) && n == N(w)
    case ShiftRight(x) => x == X(w)
    case ShiftLeft(x) => x == X(w)
    case SkipKey(x) => x == X(w)
    case SkipNoKey(x) => x == X(w)
    case ReadDelay(x) => x == X(w)
    case WaitKey(x) => x == X(w)
    case SetDelay(x) => x == X(w)
    case SetSound(x) => x == X(w)
    case AddIndex(x) => x == X(w)
    case Glyph(x) => x == X(w)
    case StoreBcd(x) => x == X(w)
    case StoreRegs(x) => x == X(w)
    case LoadRegs(x) => x == X(w)
    case ClearScreen => true
    case Return => true
    case Null => true
  }

  /** The four nibbles of the canonical instruction word of an operation (the
      form the CHIP-8 reference writes it in; `Decode` accepts more words). */
  function Nibbles(op: Op): (Nibble, Nibble, Nibble, Nibble)
    requires !op.Null?
  {
    match op
    case ClearScreen => (0x0, 0x0, 0xE, 0x0)
    case Return => (0x0, 0x0, 0xE, 0xE)
    case Jump(nnn) => (0x1, nnn as int / 0x100, nnn as int / 0x10 % 0x10, nnn as int % 0x10)
    case Call(nnn) => (0x2, nnn as int / 0x100, nnn as int / 0x10 % 0x10, nnn as int % 0x10)
    case SkipEqImm(x, kk) => (0x3, x, kk as int / 0x10, kk as int % 0x10)
    case SkipNeImm(x, kk) => (0x4, x, kk as int / 0x10, kk as int % 0x10)
    case SkipEqReg(x, y) => (0x5, x, y, 0x0)
    case LoadImm(x, kk) => (0x6, x, kk as int / 0x10, kk as int % 0x10)
    case AddImm(x, kk) => (0x7, x, kk as int / 0x10, kk as int % 0x10)
    case Move(x, y) => (0x8, x, y, 0x0)
    case Or(x, y) => (0x8, x, y, 0x1)
    case And(x, y) => (0x8, x, y, 0x2)
    case Xor(x, y) => (0x8, x, y, 0x3)
    case AddReg(x, y) => (0x8, x, y, 0x4)
    case SubReg(x, y) => (0x8, x, y, 0x5)
    case ShiftRight(x) => (0x8, x, 0x0, 0x6)
    case SubRev(x, y) => (0x8, x, y, 0x7)
    case ShiftLeft(x) => (0x8, x, 0x0, 0xE)
    case SkipNeReg(x, y) => (0x9, x, y, 0x0)
    case SetIndex(nnn) => (0xA, nnn as int / 0x100, nnn as int / 0x10 % 0x10, nnn as int % 0x10)
    case JumpOffset(nnn) => (0xB, nnn as int / 0x100, nnn as int / 0x10 % 0x10, nnn as int % 0x10)
    case Random(x, kk) => (0xC, x, kk as int / 0x10, kk as int % 0x10)
    case Draw(x, y, n) => (0xD, x, y, n)
    case SkipKey(x) => (0xE, x, 0x9, 0xE)
    case SkipNoKey(x) => (0xE, x, 0xA, 0x1)
    case ReadDelay(x) => (0xF, x, 0x0, 0x7)
    case WaitKey(x) => (0xF, x, 0x0, 0xA)
    case SetDelay(x) => (0xF, x, 0x1, 0x5)
    case SetSound(x) => (0xF, x, 0x1, 0x8)
    case AddIndex(x) => (0xF, x, 0x1, 0xE)
    case Glyph(x) => (0xF, x, 0x2, 0x9)
    case StoreBcd(x) => (0xF, x, 0x3, 0x3)
    case StoreRegs(x) => (0xF, x, 0x5, 0x5)
    case LoadRegs(x) => (0xF, x, 0x6, 0x5)
  }

  function Encode(op: Op): uint16
    requires !op.Null?
  {
    var (f, x, y, n) := Nibbles(op);
    Word(f, x, y, n)
  }

  /** The primary dispatch-table slot an operation's handler sits in. */
  function FamilyOf(op: Op): Nibble
    requires !op.Null?
  {
    match op
    case ClearScreen | Return => 0x0
    case Jump(_) => 0x1
    case Call(_) => 0x2
    case SkipEqImm(_, _) => 0x3
    case SkipNeImm(_, _) => 0x4
    case SkipEqReg(_, _) => 0x5
    case LoadImm(_, _) => 0x6
    case AddImm(_, _) => 0x7
    case Move(_, _) | Or(_, _) | And(_, _) | Xor(_, _) | AddReg(_, _) | SubReg(_, _)
      | ShiftRight(_) | SubRev(_, _) | ShiftLeft(_) => 0x8
    case SkipNeReg(_, _) => 0x9
    case SetIndex(_) => 0xA
    case JumpOffset(_) => 0xB
    case Random(_, _) => 0xC
    case Draw(_, _, _) => 0xD
    case SkipKey(_) | SkipNoKey(_) => 0xE
    case _ => 0xF
  }

  /** The index into the secondary table that the family's handler uses: the
      low nibble in `opcodes_0`, `opcodes_8` and `opcodes_E`, the low byte in
      `opcodes_F`.  The other families have no secondary table. */
  function Selector(w: uint16): nat {
    match Family(w)
    case 0x0 => N(w)
    case 0x8 => N(w)
    case 0xE => N(w)
    case 0xF => KK(w) as nat
    case _ => 0
  }

  /** The dispatch of `decode_and_execute` through `dispatch_table` and the
      secondary tables of `opcodes_0`, `opcodes_8`, `opcodes_E`, `opcodes_F`.
      The primary choice is by the top nibble alone; families 0, 8 and E then
      select on the low nibble and F on the low byte.  Unregistered slots give
      `Null`, and exactly those. */
  function Decode(w: uint16): (op: Op)
    requires SelectorInTable(w)
    ensures op.Null? <==> !Registered(w)
    ensures OperandsFrom(op, w)
    ensures !op.Null? ==> FamilyOf(op) == Family(w)
  {
    var x, y, kk, nnn := X(w), Y(w), KK(w), NNN(w);
    match Family(w)
      case 0x0 =>
        if N(w) == 0x0 then ClearScreen
        else if N(w) == 0xE then Return
        else Null
      case 0x1 => Jump(nnn)
      case 0x2 => Call(nnn)
      case 0x3 => SkipEqImm(x, kk)
      case 0x4 => SkipNeImm(x, kk)
      case 0x5 => SkipEqReg(x, y)
      case 0x6 => LoadImm(x, kk)
      case 0x7 => AddImm(x, kk)
      case 0x8 =>
        (match N(w)
         case 0x0 => Move(x, y)
         case 0x1 => Or(x, y)
         case 0x2 => And(x, y)
         case 0x3 => Xor(x, y)
         case 0x4 => AddReg(x, y)
         case 0x5 => SubReg(x, y)
         case 0x6 => ShiftRight(x)
         case 0x7 => SubRev(x, y)
         case 0xE => ShiftLeft(x)
         case _ => Null)
      case 0x9 => SkipNeReg(x, y)
      case 0xA => SetIndex(nnn)
      case 0xB => JumpOffset(nnn)
      case 0xC => Random(x, kk)
      case 0xD => Draw(x, y, N(w))
      case 0xE =>
        if N(w) == 0x1 then SkipNoKey(x)
        else if N(w) == 0xE then SkipKey(x)
        else Null
      case 0xF =>
        (match kk
         case 0x07 => ReadDelay(x)
         case 0x0A => WaitKey(x)
         case 0x15 => SetDelay(x)
         case 0x18 => SetSound(x)
         case 0x1E => AddIndex(x)
         case 0x29 => Glyph(x)
         case 0x33 => StoreBcd(x)
         case 0x55 => StoreRegs(x)
         case 0x65 => LoadRegs(x)
         case _ => Null)
  }

  /** Decoding the canonical word of an operation gives the operation back:
      every operation has a word that `init_dispatch_table` routes to it, and
      that word is inside the tables. */
  lemma {:induction false} DecodeEncode(op: Op)
    requires !op.Null?
    ensures SelectorInTable(Encode(op)) && Decode(Encode(op)) == op
    ensures Family(Encode(op)) == FamilyOf(op)
  {
    var f := Nibbles(op).0;
    if f == 0x8 {
      DecodeEncodeArith(op);
    } else if f == 0xF {
      DecodeEncodeMisc(op);
    } else if f < 0x3 {
      DecodeEncodeFlow(op);
    } else if f < 0x8 {
      DecodeEncodeImm(op);
    } else {
      DecodeEncodeHigh(op);
    }
  }

  lemma DecodeEncodeFlow(op: Op)
    requires !op.Null? && Nibbles(op).0 < 0x3
    ensures SelectorInTable(Encode(op)) && Decode(Encode(op)) == op
    ensures Family(Encode(op)) == FamilyOf(op)
  {
    match op {
      case ClearScreen => assert Encode(op) == 0x00E0;
      case Return => assert Encode(op) == 0x00EE;
      case Jump(nnn) => DecodeEncodeAddress(op);
      case Call(nnn) => DecodeEncodeAddress(op);
    }
  }

  lemma DecodeEncodeAddress(op: Op)
    requires op.Jump? || op.Call?
    ensures SelectorInTable(Encode(op)) && Decode(Encode(op)) == op
    ensures Family(Encode(op)) == FamilyOf(op)
  {
    var (f, x, y, n) := Nibbles(op);
    FieldsOfWord(f, x, y, n);
    AddressNibbles(op.nnn);
  }

  lemma DecodeEncodeImm(op: Op)
    requires !op.Null? && 0x3 <= Nibbles(op).0 < 0x8
    ensures SelectorInTable(Encode(op)) && Decode(Encode(op)) == op
    ensures Family(Encode(op)) == FamilyOf(op)
  {
    var (f, x, y, n) := Nibbles(op);
    FieldsOfWord(f, x, y, n);
  }

  lemma DecodeEncodeHigh(op: Op)
    requires !op.Null? && 0x9 <= Nibbles(op).0 < 0xF
    ensures SelectorInTable(Encode(op)) && Decode(Encode(op)) == op
    ensures Family(Encode(op)) == FamilyOf(op)
  {
    var (f, x, y, n) := Nibbles(op);
    FieldsOfWord(f, x, y, n);
    match op {
      case SetIndex(nnn) => AddressNibbles(nnn);
      case JumpOffset(nnn) => AddressNibbles(nnn);
      case _ =>
    }
  }

  lemma DecodeEncodeArith(op: Op)
    requires !op.Null? && Nibbles(op).0 == 0x8
    ensures SelectorInTable(Encode(op)) && Decode(Encode(op)) == op
    ensures Family(Encode(op)) == FamilyOf(op)
  {
    var (f, x, y, n) := Nibbles(op);
    FieldsOfWord(f, x, y, n);
  }

  lemma DecodeEncodeMisc(op: Op)
    requires !op.Null? && Nibbles(op).0 == 0xF
    ensures SelectorInTable(Encode(op)) && Decode(Encode(op)) == op
    ensures Family(Encode(op)) == FamilyOf(op)
  {
    var (f, x, y, n) := Nibbles(op);
    FieldsOfWord(f, x, y, n);
  }

  lemma AddressNibbles(a: Address)
    ensures (a as int / 0x100) * 0x100 + (a as int / 0x10 % 0x10) * 0x10 + a as int % 0x10 == a as int
  {
  }

  /** The fields of a canonical word are the nibbles it was built from. */
  lemma EncodeFields(op: Op)
    requires !op.Null?
    ensures Family(Encode(op)) == Nibbles(op).0 && N(Encode(op)) == Nibbles(op).3
    ensures KK(Encode(op)) as int == Nibbles(op).2 * 0x10 + Nibbles(op).3
  {
    var n := Nibbles(op);
    assert Encode(op) == Word(n.0, n.1, n.2, n.3);
    FieldsOfWord(n.0, n.1, n.2, n.3);
  }

  /** The tables choose a handler by the family and the selector alone: a
      registered word reaches the handler whose canonical word has the same
      family and the same selector, whatever the fields the tables do not
      look at (the middle nibbles of 0nn0 and 0nnE, the y of 8xy6, 8xyE, Ex9E
      and ExA1). */
  lemma DecodeBySelector(w: uint16)
    requires SelectorInTable(w) && Registered(w)
    ensures !Decode(w).Null?
    ensures Family(Encode(Decode(w))) == Family(w) && Selector(Encode(Decode(w))) == Selector(w)
  {
    EncodeFields(Decode(w));
  }

  /** Instances of the above that the tables give: every 0nn0 clears the
      screen, every 0nnE returns, 8xy6 and 8xyE shift whatever y is, and Ex?E
      and Ex?1 test the key whatever the third nibble is. */
  lemma IgnoredFields(w: uint16)
    ensures Family(w) == 0x0 && N(w) == 0x0 ==> Decode(w) == ClearScreen
    ensures Family(w) == 0x0 && N(w) == 0xE ==> Decode(w) == Return
    ensures Family(w) == 0x8 && N(w) == 0x6 ==> Decode(w) == ShiftRight(X(w))
    ensures Family(w) == 0x8 && N(w) == 0xE ==> Decode(w) == ShiftLeft(X(w))
    ensures Family(w) == 0xE && N(w) == 0xE ==> Decode(w) == SkipKey(X(w))
    ensures Family(w) == 0xE && N(w) == 0x1 ==> Decode(w) == SkipNoKey(X(w))
  {
  }
}
