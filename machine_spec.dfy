/** The machine state `chip8_t` as a value, and the effect of every handler,
    of a whole cycle, of initialisation and of program loading as functions of
    it.  The imperative `Machine.Chip8` is proved to follow these functions. */
module MachineSpec {
  import opened Bits
  import opened Opcode
  import Sprite

  const KeyCount := 16
  const RegisterCount := 16
  const MemorySize := 4096
  const StackSize := 16
  const FontsetSize := 80
  const FontsetStart := 0x50
  const ProgramStart := 0x200
  const MaxMemory := 0xFFF
  /** 0xFFF − 0x200 = 3583: one byte less than the 3584 bytes from 0x200 to the end. */
  const MaxRomSize := MaxMemory - ProgramStart

  /** The hexadecimal glyphs 0..F, five rows of one byte each. */
  const Fontset: seq<uint8> := [
    0xF0, 0x90, 0x90, 0x90, 0xF0, // 0
    0x20, 0x60, 0x20, 0x20, 0x70, // 1
    0xF0, 0x10, 0xF0, 0x80, 0xF0, // 2
    0xF0, 0x10, 0xF0, 0x10, 0xF0, // 3
    0x90, 0x90, 0xF0, 0x10, 0x10, // 4
    0xF0, 0x80, 0xF0, 0x10, 0xF0, // 5
    0xF0, 0x80, 0xF0, 0x90, 0xF0, // 6
    0xF0, 0x10, 0x20, 0x40, 0x40, // 7
    0xF0, 0x90, 0xF0, 0x90, 0xF0, // 8
    0xF0, 0x90, 0xF0, 0x10, 0xF0, // 9
    0xF0, 0x90, 0xF0, 0x90, 0x90, // A
    0xE0, 0x90, 0xE0, 0x90, 0xE0, // B
    0xF0, 0x80, 0x80, 0x80, 0xF0, // C
    0xE0, 0x90, 0x90, 0x90, 0xE0, // D
    0xF0, 0x80, 0xF0, 0x80, 0xF0, // E
    0xF0, 0x80, 0xF0, 0x80, 0x80  // F
  ]

  datatype Option<T> = None | Some(value: T)

  /** `chip8_t`, field for field. */
  datatype State = State(
    keypad: seq<uint8>,
    video: seq<bv32>,
    memory: seq<uint8>,
    registers: seq<uint8>,
    index: uint16,
    pc: uint16,
    delayTimer: uint8,
    soundTimer: uint8,
    stack: seq<uint16>,
    sp: uint8,
    opcode: uint16)

  /** The fixed array sizes of `chip8_t`. */
  predicate Valid(s: State) {
    && |s.keypad| == KeyCount
    && |s.video| == Sprite.VideoSize
    && |s.memory| == MemorySize
    && |s.registers| == RegisterCount
    && |s.stack| == StackSize
  }

  /** `pc += 2`, wrapping at 16 bits: skips the next instruction. */
  function Skip(s: State, condition: bool): (t: State)
    ensures t == s.(pc := t.pc)
    ensures t.pc == s.pc <==> !condition
    ensures condition ==> t.pc as int == (s.pc as int + 2) % 0x1_0000
  {
    if condition then s.(pc := Wrap16(s.pc as int + 2)) else s
  }

  function SetRegister(s: State, x: Nibble, v: uint8): State
    requires Valid(s)
  {
    s.(registers := s.registers[x := v])
  }

  function Flag(b: bool): uint8 {
    if b then 1 else 0
  }

  // ---------------------------------------------------------------- 00E0, 00EE, 2nnn

  /** `op_00E0`: every framebuffer cell is unlit, and nothing else changes. */
  function ClearScreen(s: State): (t: State)
    requires Valid(s)
    ensures Valid(t) && t == s.(video := t.video)
    ensures forall p :: 0 <= p < Sprite.VideoSize ==> t.video[p] == 0
  {
    s.(video := seq(Sprite.VideoSize, _ => 0))
  }

  /** `op_00EE`: pop the return address.  `sp == 0` wraps the `uint8_t` to 255
      and reads past `stack`, so it is excluded, as is any `sp` past the stack. */
  function Return(s: State): (t: State)
    requires Valid(s) && 0 < s.sp as int <= StackSize
    ensures Valid(t) && t == s.(sp := t.sp, pc := t.pc)
    ensures t.sp as int == s.sp as int - 1 && t.pc == s.stack[t.sp]
  {
    var sp := s.sp - 1;
    s.(sp := sp, pc := s.stack[sp])
  }

  /** `op_2nnn`: push `pc` (already advanced past the call) and jump.  Calling with
      a full stack writes past `stack` and is excluded. */
  function Call(s: State, nnn: Address): (t: State)
    requires Valid(s) && (s.sp as int) < StackSize
    ensures Valid(t) && t == s.(stack := t.stack, sp := t.sp, pc := t.pc)
    ensures t.stack == s.stack[s.sp := s.pc] && t.sp as int == s.sp as int + 1 && t.pc == nnn
  {
    s.(stack := s.stack[s.sp := s.pc], sp := s.sp + 1, pc := nnn)
  }

  // ---------------------------------------------------------------- 8xy4 .. 8xyE

  /** `op_8xy4`.  The sum of the old values gives the carry and the result; the
      flag is stored first, so with x = 0xF the sum overwrites it. */
  function AddWithCarry(s: State, x: Nibble, y: Nibble): (t: State)
    requires Valid(s)
    ensures Valid(t) && t == s.(registers := t.registers)
    ensures var a, b := s.registers[x] as int, s.registers[y] as int;
      && t.registers[x] as int == (a + b) % 0x100
      && (x != 0xF ==> t.registers[0xF] == Flag(a + b > 0xFF))
    ensures forall i :: 0 <= i < RegisterCount && i != x && i != 0xF ==> t.registers[i] == s.registers[i]
  {
    var sum := s.registers[x] as int + s.registers[y] as int;
    var r := s.registers[0xF := Flag(sum > 0xFF)];
    s.(registers := r[x := Wrap8(sum)])
  }

  /** `op_8xy5`.  The flag compares the old values, is stored first, and the
      subtraction then reads the registers after that store: with x or y = 0xF
      it subtracts the flag. */
  function SubWithBorrow(s: State, x: Nibble, y: Nibble): (t: State)
    requires Valid(s)
    ensures Valid(t) && t == s.(registers := t.registers)
    ensures var a, b := s.registers[x] as int, s.registers[y] as int;
      var f := Flag(a > b) as int;
      && t.registers[x] as int == ((if x == 0xF then f else a) - (if y == 0xF then f else b)) % 0x100
      && (x != 0xF ==> t.registers[0xF] as int == f)
    ensures forall i :: 0 <= i < RegisterCount && i != x && i != 0xF ==> t.registers[i] == s.registers[i]
  {
    var r := s.registers[0xF := Flag(s.registers[x] > s.registers[y])];
    s.(registers := r[x := Wrap8(r[x] as int - r[y] as int)])
  }

  /** `op_8xy7`: as `op_8xy5` with the operands swapped. */
  function SubReverse(s: State, x: Nibble, y: Nibble): (t: State)
    requires Valid(s)
    ensures Valid(t) && t == s.(registers := t.registers)
    ensures var a, b := s.registers[x] as int, s.registers[y] as int;
      var f := Flag(b > a) as int;
      && t.registers[x] as int == ((if y == 0xF then f else b) - (if x == 0xF then f else a)) % 0x100
      && (x != 0xF ==> t.registers[0xF] as int == f)
    ensures forall i :: 0 <= i < RegisterCount && i != x && i != 0xF ==> t.registers[i] == s.registers[i]
  {
    var r := s.registers[0xF := Flag(s.registers[y] > s.registers[x])];
    s.(registers := r[x := Wrap8(r[y] as int - r[x] as int)])
  }

  /** `op_8xy6`: VF = Vx & 1, then Vx >>= 1 (Vy is not read).  Nothing is lost:
      the new Vx and VF give the old Vx back; with x = 0xF the shift of the flag
      leaves 0. */
  function ShiftRight(s: State, x: Nibble): (t: State)
    requires Valid(s)
    ensures Valid(t) && t == s.(registers := t.registers)
    ensures x != 0xF ==> s.registers[x] as int == 2 * t.registers[x] as int + t.registers[0xF] as int
    ensures x != 0xF ==> t.registers[0xF] <= 1
    ensures x == 0xF ==> t.registers[0xF] == 0
    ensures forall i :: 0 <= i < RegisterCount && i != x && i != 0xF ==> t.registers[i] == s.registers[i]
  {
    var r := s.registers[0xF := (s.registers[x] as int % 2) as uint8];
    s.(registers := r[x := (r[x] as int / 2) as uint8])
  }

  /** `op_8xyE`: VF = (Vx & 0x80) >> 7, then Vx <<= 1, truncated to 8 bits.
      Nothing is lost: the new Vx and VF give the old Vx back; with x = 0xF the
      flag shifted left is 0 or 2. */
  function ShiftLeft(s: State, x: Nibble): (t: State)
    requires Valid(s)
    ensures Valid(t) && t == s.(registers := t.registers)
    ensures x != 0xF ==> s.registers[x] as int == t.registers[x] as int / 2 + 0x80 * t.registers[0xF] as int
    ensures x != 0xF ==> t.registers[x] as int % 2 == 0 && t.registers[0xF] <= 1
    ensures x == 0xF ==> t.registers[0xF] as int == 2 * (s.registers[0xF] as int / 0x80)
    ensures forall i :: 0 <= i < RegisterCount && i != x && i != 0xF ==> t.registers[i] == s.registers[i]
  {
    var r := s.registers[0xF := (s.registers[x] as int / 0x80) as uint8];
    s.(registers := r[x := Wrap8(r[x] as int * 2)])
  }

  // ---------------------------------------------------------------- Dxyn

  /** Reading `memory[index + row]` for every row is inside memory. */
  predicate SpriteInMemory(s: State, n: Nibble) {
    n == 0 || s.index as int + n <= MemorySize
  }

  /** The origin of a sprite, wrapped onto the screen. */
  function Origin(s: State, x: Nibble, y: Nibble): (nat, nat)
    requires Valid(s)
  {
    (s.registers[x] as int % Sprite.VideoWidth, s.registers[y] as int % Sprite.VideoHeight)
  }

  /** The `n` sprite rows `memory[index + row]` that `op_Dxyn` reads. */
  function SpriteRows(s: State, n: Nibble): (rows: seq<uint8>)
    requires Valid(s) && SpriteInMemory(s, n)
  {
    if n == 0 then [] else s.memory[s.index..s.index as int + n]
  }

  /** `op_Dxyn`: the origin is taken before VF is reset, then the `n` sprite
      rows at `memory[index..]` are XOR-drawn and VF reports a collision. */
  function DrawSprite(s: State, x: Nibble, y: Nibble, n: Nibble): (t: State)
    requires Valid(s) && SpriteInMemory(s, n)
    requires Sprite.Fits(Origin(s, x, y).0, Origin(s, x, y).1, n)
    ensures Valid(t) && t == s.(video := t.video, registers := t.registers)
    ensures t.registers == s.registers[0xF := t.registers[0xF]] && t.registers[0xF] <= 1
  {
    var origin := Origin(s, x, y);
    var f := Sprite.Draw(s.video, SpriteRows(s, n), origin.0, origin.1);
    s.(video := f.video, registers := s.registers[0xF := Flag(f.collision)])
  }

  /** What `op_Dxyn` draws: exactly the cells under set bits of the `n` rows at
      `memory[index..]`, placed at (Vx mod 64, Vy mod 32), are XORed with all
      ones, and VF is 1 iff one of them was lit before. */
  lemma DrawSpriteEffect(s: State, x: Nibble, y: Nibble, n: Nibble)
    requires Valid(s) && Defined(s, Draw(x, y, n))
    ensures var t, o := DrawSprite(s, x, y, n), Origin(s, x, y);
      && (forall p :: 0 <= p < Sprite.VideoSize ==>
            t.video[p] == if Sprite.Under(SpriteRows(s, n), o.0, o.1, 0, p) then s.video[p] ^ Sprite.Lit else s.video[p])
      && (t.registers[0xF] == 1 <==>
            exists p :: 0 <= p < Sprite.VideoSize && s.video[p] == Sprite.Lit && Sprite.Under(SpriteRows(s, n), o.0, o.1, 0, p))
  {
  }

  /** `DrawSprite` is the row loop run from row 0 on the current screen with
      the collision flag clear. */
  lemma DrawSpriteRows(s: State, x: Nibble, y: Nibble, n: Nibble)
    requires Valid(s) && Defined(s, Draw(x, y, n))
    ensures var o := Origin(s, x, y);
      var f := Sprite.DrawRows(Sprite.Frame(s.video, false), SpriteRows(s, n), o.0, o.1, 0);
      Exec(s, Draw(x, y, n), 0) == s.(video := f.video, registers := s.registers[0xF := Flag(f.collision)])
  {
  }

  // ---------------------------------------------------------------- Fx0A

  /** The lowest key from `k` on whose byte is non-zero: the order in which the
      chain of tests of `op_Fx0A` looks at the keypad. */
  function FirstPressed(keys: seq<uint8>, k: nat): (r: Option<nat>)
    requires k <= |keys|
    ensures r.Some? ==> k <= r.value < |keys| && keys[r.value] != 0
    ensures r.Some? ==> forall j :: k <= j < r.value ==> keys[j] == 0
    ensures r.None? <==> forall j :: k <= j < |keys| ==> keys[j] == 0
    decreases |keys| - k
  {
    if k == |keys| then None
    else if keys[k] != 0 then Some(k)
    else FirstPressed(keys, k + 1)
  }

  /** `op_Fx0A`: Vx = the lowest pressed key, or, with none pressed, `pc -= 2`
      so that the instruction is fetched again. */
  function WaitKey(s: State, x: Nibble): (t: State)
    requires Valid(s)
    ensures Valid(t)
    ensures (forall k :: 0 <= k < KeyCount ==> s.keypad[k] == 0) ==> t == s.(pc := Wrap16(s.pc as int - 2))
    ensures (exists k :: 0 <= k < KeyCount && s.keypad[k] != 0) ==>
      && t == s.(registers := s.registers[x := t.registers[x]])
      && (t.registers[x] as int) < KeyCount
      && s.keypad[t.registers[x]] != 0
      && forall k :: 0 <= k < t.registers[x] as int ==> s.keypad[k] == 0
  {
    match FirstPressed(s.keypad, 0)
    case Some(k) => SetRegister(s, x, k as uint8)
    case None => s.(pc := Wrap16(s.pc as int - 2))
  }

  // ---------------------------------------------------------------- Fx33, Fx55, Fx65

  /** `op_Fx33`: the ones digit goes to `memory[I + 2]`, then the tens to
      `memory[I + 1]`, then the hundreds to `memory[I]`. */
  function StoreBcd(s: State, x: Nibble): (t: State)
    requires Valid(s) && s.index as int + 2 < MemorySize
    ensures Valid(t) && t == s.(memory := t.memory)
    ensures var i := s.index as int;
      && t.memory[i] <= 9 && t.memory[i + 1] <= 9 && t.memory[i + 2] <= 9
      && 100 * t.memory[i] as int + 10 * t.memory[i + 1] as int + t.memory[i + 2] as int == s.registers[x] as int
    ensures forall j :: 0 <= j < MemorySize && !(s.index as int <= j <= s.index as int + 2) ==>
      t.memory[j] == s.memory[j]
  {
    var i := s.index as int;
    var value := s.registers[x] as int;
    var ones := value % 10;
    var tens := value / 10 % 10;
    var hundreds := value / 10 / 10 % 10;
    assert value == 10 * (value / 10) + ones;
    assert value / 10 == 10 * (value / 10 / 10) + tens;
    assert value / 10 / 10 < 10;
    s.(memory := s.memory[i + 2 := ones as uint8][i + 1 := tens as uint8][i := hundreds as uint8])
  }

  /** `op_Fx55`: registers V0..Vx go to `memory[I..I + x]`; no other byte changes. */
  function StoreRegisters(s: State, x: Nibble): (t: State)
    requires Valid(s) && s.index as int + x < MemorySize
    ensures Valid(t) && t == s.(memory := t.memory)
    ensures forall i :: 0 <= i <= x ==> t.memory[s.index as int + i] == s.registers[i]
    ensures forall j :: 0 <= j < MemorySize && !(s.index as int <= j <= s.index as int + x) ==>
      t.memory[j] == s.memory[j]
  {
    var base := s.index as int;
    s.(memory := seq(MemorySize, j requires 0 <= j < MemorySize =>
         if base <= j <= base + x then s.registers[j - base] else s.memory[j]))
  }

  /** A memory that holds V0..Vx at I and the old bytes elsewhere is the memory
      `op_Fx55` leaves. */
  lemma StoredRegisters(s: State, x: Nibble, m: seq<uint8>)
    requires Valid(s) && s.index as int + x < MemorySize && |m| == MemorySize
    requires forall j :: 0 <= j <= x ==> m[s.index as int + j] == s.registers[j]
    requires forall j :: 0 <= j < MemorySize && !(s.index as int <= j < s.index as int + x + 1) ==> m[j] == s.memory[j]
    ensures Exec(s, StoreRegs(x), 0) == s.(memory := m)
  {
    var t := StoreRegisters(s, x);
    forall j | 0 <= j < MemorySize ensures m[j] == t.memory[j] {
      if s.index as int <= j <= s.index as int + x {
        assert m[s.index as int + (j - s.index as int)] == s.registers[j - s.index as int];
      }
    }
  }

  /** `op_Fx65`: `memory[I..I + x]` goes to V0..Vx; no other register changes. */
  function LoadRegisters(s: State, x: Nibble): (t: State)
    requires Valid(s) && s.index as int + x < MemorySize
    ensures Valid(t) && t == s.(registers := t.registers)
    ensures forall i :: 0 <= i <= x ==> t.registers[i] == s.memory[s.index as int + i]
    ensures forall i :: x < i < RegisterCount ==> t.registers[i] == s.registers[i]
  {
    var base := s.index as int;
    s.(registers := seq(RegisterCount, i requires 0 <= i < RegisterCount =>
         if i <= x then s.memory[base + i] else s.registers[i]))
  }

  // ---------------------------------------------------------------- dispatch

  /** The conditions under which a handler is defined C++: the stack bounds of
      00EE and 2nnn, the memory bounds of Dxyn, Fx33, Fx55 and Fx65, the
      framebuffer bound of Dxyn and the keypad bound of Ex9E and ExA1. */
  predicate Defined(s: State, op: Op)
    requires Valid(s)
  {
    match op
    case Return => 0 < s.sp as int <= StackSize
    case Call(_) => (s.sp as int) < StackSize
    case Draw(x, y, n) => SpriteInMemory(s, n) && Sprite.Fits(Origin(s, x, y).0, Origin(s, x, y).1, n)
    case SkipKey(x) => (s.registers[x] as int) < KeyCount
    case SkipNoKey(x) => (s.registers[x] as int) < KeyCount
    case StoreBcd(_) => s.index as int + 2 < MemorySize
    case StoreRegs(x) => s.index as int + x < MemorySize
    case LoadRegs(x) => s.index as int + x < MemorySize
    case _ => true
  }

  /** What the handler of `op` does to the state; `random` is the byte
      `op_Cxkk` draws from its random engine. */
  function Exec(s: State, op: Op, random: uint8): (t: State)
    requires Valid(s) && Defined(s, op)
    ensures Valid(t) && t.opcode == s.opcode && t.keypad == s.keypad
    ensures !op.SetDelay? ==> t.delayTimer == s.delayTimer
    ensures !op.SetSound? ==> t.soundTimer == s.soundTimer
    ensures !Transfers(op) ==> t.pc == s.pc
  {
    match op
    case ClearScreen => ClearScreen(s)
    case Return => Return(s)
    case Jump(nnn) => s.(pc := nnn)
    case Call(nnn) => Call(s, nnn)
    case SkipEqImm(x, kk) => Skip(s, s.registers[x] == kk)
    case SkipNeImm(x, kk) => Skip(s, s.registers[x] != kk)
    case SkipEqReg(x, y) => Skip(s, s.registers[x] == s.registers[y])
    case LoadImm(x, kk) => SetRegister(s, x, kk)
    case AddImm(x, kk) => SetRegister(s, x, Wrap8(s.registers[x] as int + kk as int))
    case Move(x, y) => SetRegister(s, x, s.registers[y])
    case Or(x, y) => SetRegister(s, x, Or8(s.registers[x], s.registers[y]))
    case And(x, y) => SetRegister(s, x, And8(s.registers[x], s.registers[y]))
    case Xor(x, y) => SetRegister(s, x, Xor8(s.registers[x], s.registers[y]))
    case AddReg(x, y) => AddWithCarry(s, x, y)
    case SubReg(x, y) => SubWithBorrow(s, x, y)
    case ShiftRight(x) => ShiftRight(s, x)
    case SubRev(x, y) => SubReverse(s, x, y)
    case ShiftLeft(x) => ShiftLeft(s, x)
    case SkipNeReg(x, y) => Skip(s, s.registers[x] != s.registers[y])
    case SetIndex(nnn) => s.(index := nnn)
    case JumpOffset(nnn) => s.(pc := (s.registers[0] as int + nnn as int) as uint16)
    case Random(x, kk) => SetRegister(s, x, And8(random, kk))
    case Draw(x, y, n) => DrawSprite(s, x, y, n)
    case SkipKey(x) => Skip(s, s.keypad[s.registers[x]] != 0)
    case SkipNoKey(x) => Skip(s, s.keypad[s.registers[x]] == 0)
    case ReadDelay(x) => SetRegister(s, x, s.delayTimer)
    case WaitKey(x) => WaitKey(s, x)
    case SetDelay(x) => s.(delayTimer := s.registers[x])
    case SetSound(x) => s.(soundTimer := s.registers[x])
    case AddIndex(x) => s.(index := Wrap16(s.index as int + s.registers[x] as int))
    case Glyph(x) => s.(index := (FontsetStart + 5 * s.registers[x] as int) as uint16)
    case StoreBcd(x) => StoreBcd(s, x)
    case StoreRegs(x) => StoreRegisters(s, x)
    case LoadRegs(x) => LoadRegisters(s, x)
    case Null => s
  }

  // ---------------------------------------------------------------- cycle

  /** `fetch`: the big-endian word at `pc`; reading `memory[pc + 1]` past the
      end is excluded. */
  function Fetch(s: State): (w: uint16)
    requires Valid(s) && s.pc as int + 1 < MemorySize
    ensures w as int / 0x100 == s.memory[s.pc] as int && w as int % 0x100 == s.memory[s.pc as int + 1] as int
  {
    WordAt(s.memory, s.pc as int)
  }

  /** The big-endian word `memory[a] << 8 | memory[a + 1]`. */
  function WordAt(memory: seq<uint8>, a: nat): (w: uint16)
    requires a + 1 < |memory|
    ensures w as int / 0x100 == memory[a] as int && w as int % 0x100 == memory[a + 1] as int
  {
    (memory[a] as int * 0x100 + memory[a + 1] as int) as uint16
  }

  /** A timer is decremented when it is above zero. */
  function CountDown(t: uint8): (r: uint8)
    ensures r as int == if t == 0 then 0 else t as int - 1
  {
    if t > 0 then t - 1 else t
  }

  /** A cycle is defined: the fetch stays in memory, the selector in its table
      and the decoded handler inside its bounds. */
  predicate CanCycle(s: State) {
    && Valid(s)
    && s.pc as int + 1 < MemorySize
    && SelectorInTable(Fetch(s))
    && Defined(s, Decode(Fetch(s)))
  }

  /** The state after the fetch and the `pc += 2` that precede the handler. */
  function Advance(s: State): (t: State)
    requires Valid(s) && s.pc as int + 1 < MemorySize
    ensures Valid(t) && t == s.(opcode := t.opcode, pc := t.pc)
    ensures t.opcode == Fetch(s) && t.pc as int == s.pc as int + 2
  {
    s.(opcode := Fetch(s), pc := Wrap16(s.pc as int + 2))
  }

  /** `cycle`: fetch at the old `pc`, advance `pc` by 2, run the handler on the
      advanced state, then count each timer down once. */
  function Cycle(s: State, random: uint8): (t: State)
    requires CanCycle(s)
    ensures Valid(t) && t.opcode == Fetch(s)
    ensures var op := Decode(Fetch(s));
      && t.delayTimer == CountDown(if op.SetDelay? then s.registers[op.x] else s.delayTimer)
      && t.soundTimer == CountDown(if op.SetSound? then s.registers[op.x] else s.soundTimer)
      && (!Transfers(op) ==> t.pc as int == s.pc as int + 2)
      && (op.Call? ==> t.stack[s.sp] as int == s.pc as int + 2 && t.pc == op.nnn)
  {
    var a := Advance(s);
    var e := Exec(a, Decode(a.opcode), random);
    e.(delayTimer := CountDown(e.delayTimer), soundTimer := CountDown(e.soundTimer))
  }

  /** The three steps of `Cycle`, for a caller that follows them one by one. */
  lemma CycleSteps(s: State, random: uint8)
    requires CanCycle(s)
    ensures var a := Advance(s); var e := Exec(a, Decode(a.opcode), random);
      Cycle(s, random) == e.(delayTimer := CountDown(e.delayTimer), soundTimer := CountDown(e.soundTimer))
  {
  }

  // ---------------------------------------------------------------- init and loading

  /** `load_fonset`: the glyphs are copied to 0x50..0x9F and nothing else changes. */
  function LoadFontset(memory: seq<uint8>): (m: seq<uint8>)
    requires |memory| == MemorySize
    ensures |m| == MemorySize
    ensures m[FontsetStart..FontsetStart + FontsetSize] == Fontset
    ensures forall j :: 0 <= j < MemorySize && !(FontsetStart <= j < FontsetStart + FontsetSize) ==> m[j] == memory[j]
  {
    var m := seq(MemorySize, j requires 0 <= j < MemorySize =>
      if FontsetStart <= j < FontsetStart + FontsetSize then Fontset[j - FontsetStart] else memory[j]);
    SliceIs(m, FontsetStart, Fontset);
    m
  }

  lemma SliceIs<T>(m: seq<T>, start: nat, part: seq<T>)
    requires start + |part| <= |m|
    requires forall i :: 0 <= i < |part| ==> m[start + i] == part[i]
    ensures m[start..start + |part|] == part
  {
    var slice := m[start..start + |part|];
    assert forall i :: 0 <= i < |part| ==> slice[i] == part[i];
  }

  /** `init`: memory, registers and stack are zeroed, the glyphs loaded, `pc` set
      to 0x200 and the other scalars to 0.  `video` and `keypad` are not touched. */
  function Init(s: State): (t: State)
    requires Valid(s)
    ensures Valid(t) && t.video == s.video && t.keypad == s.keypad
    ensures t.memory[FontsetStart..FontsetStart + FontsetSize] == Fontset
    ensures forall j :: 0 <= j < MemorySize && !(FontsetStart <= j < FontsetStart + FontsetSize) ==> t.memory[j] == 0
    ensures forall i :: 0 <= i < RegisterCount ==> t.registers[i] == 0
    ensures forall i :: 0 <= i < StackSize ==> t.stack[i] == 0
    ensures t.pc as int == ProgramStart && t.sp == 0 && t.index == 0 && t.opcode == 0
    ensures t.delayTimer == 0 && t.soundTimer == 0
  {
    s.(memory := LoadFontset(seq(MemorySize, _ => 0)),
       registers := seq(RegisterCount, _ => 0),
       stack := seq(StackSize, _ => 0),
       pc := ProgramStart as uint16, sp := 0, opcode := 0, index := 0,
       delayTimer := 0, soundTimer := 0)
  }

  /** `make_chip8`: a value-initialised `chip8_t` (every array and scalar 0) passed
      through `init`. */
  function PowerOn(): (t: State)
    ensures Valid(t) && t == Init(t)
    ensures forall k :: 0 <= k < KeyCount ==> t.keypad[k] == 0
    ensures forall p :: 0 <= p < Sprite.VideoSize ==> t.video[p] == 0
  {
    Init(State(seq(KeyCount, _ => 0), seq(Sprite.VideoSize, _ => 0), seq(MemorySize, _ => 0), seq(RegisterCount, _ => 0),
               0, 0, 0, 0, seq(StackSize, _ => 0), 0, 0))
  }

  /** `load_program`: `memcpy` of the image to 0x200; its precondition is that
      the image fits in the 3584 bytes from there to the end. */
  function LoadProgram(memory: seq<uint8>, program: seq<uint8>): (m: seq<uint8>)
    requires |memory| == MemorySize && |program| <= MemorySize - ProgramStart
    ensures |m| == MemorySize
    ensures forall i :: 0 <= i < |program| ==> m[ProgramStart + i] == program[i]
    ensures forall j :: 0 <= j < MemorySize && !(ProgramStart <= j < ProgramStart + |program|) ==> m[j] == memory[j]
  {
    seq(MemorySize, j requires 0 <= j < MemorySize =>
      if ProgramStart <= j < ProgramStart + |program| then program[j - ProgramStart] else memory[j])
  }

  /** The two exceptions `load_rom` throws. */
  datatype RomError = RomTooLarge | EmptyRom

  /** The checks of `load_rom`, in their order: too large first, then empty.
      An image that passes both fits in memory. */
  function CheckRom(program: seq<uint8>): (e: Option<RomError>)
    ensures e == Some(RomTooLarge) <==> |program| > MaxRomSize
    ensures e == Some(EmptyRom) <==> |program| == 0
    ensures e.None? ==> 0 < |program| <= MemorySize - ProgramStart
  {
    if |program| > MaxRomSize then Some(RomTooLarge)
    else if |program| == 0 then Some(EmptyRom)
    else None
  }

  /** `load_rom` once the image bytes are read: memory gets the image when the
      checks pass and is left alone when they throw. */
  function LoadRom(s: State, program: seq<uint8>): (t: State)
    requires Valid(s)
    ensures Valid(t) && t == s.(memory := t.memory)
    ensures CheckRom(program).None? ==> t.memory == LoadProgram(s.memory, program)
    ensures CheckRom(program).Some? ==> t == s
  {
    if CheckRom(program).None? then s.(memory := LoadProgram(s.memory, program)) else s
  }
}
