/** Properties that relate several operations of `MachineSpec`: inverse
    pairs, complementary skips, a subroutine round trip, what booting leaves in
    memory, what repeated cycles do to the timers, and the drawing guarantees
    games rely on. */
module Properties {
  import opened Bits
  import O = Opcode
  import opened MachineSpec
  import Sprite

  // ---------------------------------------------------------------- arithmetic

  /** 8xy5 undoes 8xy4: the carry lost in the wrapped sum is given back by the
      wrapped difference. */
  lemma AddThenSubRestores(s: State, x: Nibble, y: Nibble)
    requires Valid(s) && x != y && x != 0xF && y != 0xF
    ensures SubWithBorrow(AddWithCarry(s, x, y), x, y).registers[x] == s.registers[x]
  {
    var a, b := s.registers[x] as int, s.registers[y] as int;
    var t := AddWithCarry(s, x, y);
    assert t.registers[y] as int == b;
    var c := t.registers[x] as int;
    if a + b > 0xFF {
      assert c == a + b - 0x100;
      assert (c - b) % 0x100 == (a - 0x100) % 0x100 == a;
    } else {
      assert c == a + b;
    }
  }

  /** 8xyE after 8xy6 gives Vx back with its lowest bit cleared, and reports a
      clear top bit. */
  lemma ShiftLeftAfterShiftRight(s: State, x: Nibble)
    requires Valid(s) && x != 0xF
    ensures var t := ShiftLeft(ShiftRight(s, x), x);
      && t.registers[x] as int == s.registers[x] as int - s.registers[x] as int % 2
      && t.registers[0xF] == 0
  {
    var a := s.registers[x] as int;
    var h := ShiftRight(s, x);
    assert h.registers[x] as int == a / 2 < 0x80;
  }

  // ---------------------------------------------------------------- skips

  /** The new state advances `pc` past one instruction and changes nothing else. */
  predicate Skips(s: State, t: State) {
    t == s.(pc := Wrap16(s.pc as int + 2))
  }

  /** A skip on `c` and a skip on `!c`: exactly one of the two skips, and the
      other leaves the state as it was. */
  predicate Complementary(s: State, on: State, off: State) {
    && (Skips(s, on) <==> off == s)
    && (Skips(s, off) <==> on == s)
    && (Skips(s, on) || on == s)
  }

  lemma SkipOpposite(s: State, c: bool)
    ensures Complementary(s, Skip(s, c), Skip(s, !c))
  {
    assert Wrap16(s.pc as int + 2) != s.pc;
    assert s.(pc := Wrap16(s.pc as int + 2)) != s;
  }

  /** 3xkk and 4xkk decide Vx = kk with opposite outcomes. */
  lemma SkipImmComplementary(s: State, x: Nibble, kk: uint8, random: uint8)
    requires Valid(s)
    ensures Complementary(s, Exec(s, O.SkipEqImm(x, kk), random), Exec(s, O.SkipNeImm(x, kk), random))
  {
    SkipOpposite(s, s.registers[x] == kk);
  }

  /** 5xy0 and 9xy0 decide Vx = Vy with opposite outcomes. */
  lemma SkipRegComplementary(s: State, x: Nibble, y: Nibble, random: uint8)
    requires Valid(s)
    ensures Complementary(s, Exec(s, O.SkipEqReg(x, y), random), Exec(s, O.SkipNeReg(x, y), random))
  {
    SkipOpposite(s, s.registers[x] == s.registers[y]);
  }

  /** Ex9E and ExA1 decide whether key Vx is down with opposite outcomes. */
  lemma SkipKeyComplementary(s: State, x: Nibble, random: uint8)
    requires Valid(s) && (s.registers[x] as int) < KeyCount
    ensures Complementary(s, Exec(s, O.SkipKey(x), random), Exec(s, O.SkipNoKey(x), random))
  {
    SkipOpposite(s, s.keypad[s.registers[x]] != 0);
  }

  /** A cycle on 3xkk moves `pc` on by 4 when Vx = kk and by 2 otherwise. */
  lemma SkipEqImmCycle(s: State, random: uint8)
    requires CanCycle(s) && O.Family(Fetch(s)) == 0x3
    ensures var w := Fetch(s);
      Cycle(s, random).pc == Wrap16(s.pc as int + if s.registers[O.X(w)] == O.KK(w) then 4 else 2)
  {
  }

  // ---------------------------------------------------------------- subroutines

  /** 2nnn followed by 00EE resumes after the call with the stack pointer it
      started with; only the stack slot that was written differs. */
  lemma CallThenReturn(s: State, nnn: O.Address, random: uint8)
    requires Valid(s) && (s.sp as int) < StackSize
    ensures Defined(Exec(s, O.Call(nnn), random), O.Return)
    ensures var t := Exec(Exec(s, O.Call(nnn), random), O.Return, random);
      t == s.(stack := s.stack[s.sp := s.pc])
  {
  }

  /** Two cycles, a call and then the return at its target, come back to the
      instruction after the call, with registers, memory and screen untouched. */
  lemma CallReturnCycles(s: State, r1: uint8, r2: uint8)
    requires CanCycle(s) && O.Decode(Fetch(s)).Call?
    requires CanCycle(Cycle(s, r1)) && O.Decode(Fetch(Cycle(s, r1))).Return?
    ensures var t := Cycle(Cycle(s, r1), r2);
      && t.pc == Wrap16(s.pc as int + 2) && t.sp == s.sp
      && t.registers == s.registers && t.memory == s.memory && t.index == s.index
      && t.video == s.video && t.stack == s.stack[s.sp := Wrap16(s.pc as int + 2)]
  {
    var c := Cycle(s, r1);
    assert c.sp as int == s.sp as int + 1 && c.stack[s.sp] == Wrap16(s.pc as int + 2);
  }

  // ---------------------------------------------------------------- Fx55 / Fx65

  /** Fx65 after Fx55 reads back the registers just stored: the pair changes
      only memory. */
  lemma StoreThenLoadRegisters(s: State, x: Nibble)
    requires Valid(s) && s.index as int + x < MemorySize
    ensures LoadRegisters(StoreRegisters(s, x), x) == StoreRegisters(s, x)
  {
    var t := StoreRegisters(s, x);
    assert LoadRegisters(t, x).registers == t.registers;
  }

  /** Fx55 after Fx65 writes back the bytes just loaded: the pair changes only
      the registers. */
  lemma LoadThenStoreRegisters(s: State, x: Nibble)
    requires Valid(s) && s.index as int + x < MemorySize
    ensures StoreRegisters(LoadRegisters(s, x), x) == LoadRegisters(s, x)
  {
    var t := LoadRegisters(s, x);
    assert StoreRegisters(t, x).memory == t.memory;
  }

  // ---------------------------------------------------------------- booting

  /** Loading the same image twice is loading it once. */
  lemma LoadProgramIdempotent(memory: seq<uint8>, program: seq<uint8>)
    requires |memory| == MemorySize && |program| <= MemorySize - ProgramStart
    ensures LoadProgram(LoadProgram(memory, program), program) == LoadProgram(memory, program)
  {
    var once := LoadProgram(memory, program);
    assert forall j :: 0 <= j < MemorySize ==> LoadProgram(once, program)[j] == once[j];
  }

  /** `init` is idempotent. */
  lemma InitIdempotent(s: State)
    requires Valid(s)
    ensures Init(Init(s)) == Init(s)
  {
    var t := Init(s);
    assert Init(t).memory == t.memory;
  }

  /** After `make_chip8` and a `load_rom` that passes its checks, the glyphs sit
      at 0x50, the image at 0x200 with zeros after it, and the first fetch reads
      the first two bytes of the image. */
  lemma BootImage(program: seq<uint8>)
    requires CheckRom(program).None?
    ensures var t := LoadRom(PowerOn(), program);
      && t.pc as int == ProgramStart
      && t.memory[FontsetStart..FontsetStart + FontsetSize] == Fontset
      && t.memory[ProgramStart..ProgramStart + |program|] == program
      && (forall j :: ProgramStart + |program| <= j < MemorySize ==> t.memory[j] == 0)
      && (|program| >= 2 ==> Fetch(t) as int == program[0] as int * 0x100 + program[1] as int)
  {
    var p := PowerOn();
    var t := LoadRom(p, program);
    assert t.memory == LoadProgram(p.memory, program);
    SliceIs(t.memory, FontsetStart, Fontset);
    SliceIs(t.memory, ProgramStart, program);
  }

  /** With the glyphs loaded, Fx29 points I at the five rows of the glyph of
      the digit in Vx. */
  lemma GlyphLocatesDigit(s: State, x: Nibble, random: uint8)
    requires Valid(s) && s.memory[FontsetStart..FontsetStart + FontsetSize] == Fontset
    requires (s.registers[x] as int) < 0x10
    ensures var t := Exec(s, O.Glyph(x), random); var d := s.registers[x] as int;
      && t.index as int + 5 <= MemorySize
      && t.memory[t.index..t.index as int + 5] == Fontset[5 * d..5 * d + 5]
  {
    var t := Exec(s, O.Glyph(x), random);
    var d := s.registers[x] as int;
    assert t.index as int == FontsetStart + 5 * d;
    var font := s.memory[FontsetStart..FontsetStart + FontsetSize];
    var glyph := Fontset[5 * d..5 * d + 5];
    forall i | 0 <= i < 5 ensures t.memory[t.index as int + i] == glyph[i] {
      assert font[5 * d + i] == glyph[i];
    }
    SliceIs(t.memory, t.index as int, glyph);
  }

  /** The digit glyphs are also reachable from the power-on state. */
  lemma PowerOnHasFont()
    ensures PowerOn().memory[FontsetStart..FontsetStart + FontsetSize] == Fontset
  {
  }

  // ---------------------------------------------------------------- whole cycles

  /** A word outside every handler's selector set runs `op_null`: the cycle
      only records the opcode, advances `pc` and counts the timers down. */
  lemma NullCycle(s: State, random: uint8)
    requires CanCycle(s) && !O.Registered(Fetch(s))
    ensures Cycle(s, random) == s.(opcode := Fetch(s), pc := Wrap16(s.pc as int + 2),
                                   delayTimer := CountDown(s.delayTimer), soundTimer := CountDown(s.soundTimer))
  {
  }

  /** Fx0A with no key down: the cycle ends with `pc` where it started, so the
      next cycle fetches Fx0A again; only the opcode and the timers move. */
  lemma WaitKeyBusyWaits(s: State, random: uint8)
    requires CanCycle(s) && O.Decode(Fetch(s)).WaitKey?
    requires forall k :: 0 <= k < KeyCount ==> s.keypad[k] == 0
    ensures Cycle(s, random) == s.(opcode := Fetch(s),
                                   delayTimer := CountDown(s.delayTimer), soundTimer := CountDown(s.soundTimer))
  {
    assert Wrap16(Wrap16(s.pc as int + 2) as int - 2) == s.pc;
  }

  /** Fx0A with a key down: Vx gets the lowest key that is down and the cycle
      moves on to the next instruction. */
  lemma WaitKeyProceeds(s: State, random: uint8)
    requires CanCycle(s) && O.Decode(Fetch(s)).WaitKey?
    requires exists k :: 0 <= k < KeyCount && s.keypad[k] != 0
    ensures var t, x := Cycle(s, random), O.X(Fetch(s));
      && t.pc == Wrap16(s.pc as int + 2)
      && (t.registers[x] as int) < KeyCount && s.keypad[t.registers[x]] != 0
      && (forall k :: 0 <= k < t.registers[x] as int ==> s.keypad[k] == 0)
      && t.registers == s.registers[x := t.registers[x]]
  {
  }

  /** n cycles as the main loop runs them, with the random bytes `Cxkk` would
      draw; `None` when some cycle is not defined. */
  function Run(s: State, randoms: seq<uint8>): (r: Option<State>)
    ensures r.Some? ==> Valid(r.value) || (|randoms| == 0 && r.value == s)
    decreases |randoms|
  {
    if |randoms| == 0 then Some(s)
    else if CanCycle(s) then Run(Cycle(s, randoms[0]), randoms[1..])
    else None
  }

  /** Running a then b is running a, then b from where a stopped; a run that
      breaks off in a stays broken off. */
  lemma {:induction false} RunAppend(s: State, a: seq<uint8>, b: seq<uint8>)
    ensures Run(s, a + b) == match Run(s, a) case None => None case Some(t) => Run(t, b)
    decreases |a|
  {
    if |a| == 0 {
      assert a + b == b;
    } else if CanCycle(s) {
      assert (a + b)[0] == a[0] && (a + b)[1..] == a[1..] + b;
      RunAppend(Cycle(s, a[0]), a[1..], b);
    }
  }

  /** The next `n` instructions from `pc` lie in memory and are all `op_null`. */
  predicate NullsAhead(s: State, n: nat)
    requires Valid(s)
  {
    && s.pc as int + 2 * n < MemorySize
    && forall k :: 0 <= k < n ==>
         O.SelectorInTable(WordAt(s.memory, s.pc as int + 2 * k)) && !O.Registered(WordAt(s.memory, s.pc as int + 2 * k))
  }

  function Saturate(v: int): nat {
    if v < 0 then 0 else v
  }

  /** Running n cycles over n `op_null` instructions moves `pc` on by 2n and
      counts each timer down to zero at one tick per cycle, and changes no
      register, memory byte, pixel or stack entry. */
  lemma {:induction false} NullRun(s: State, randoms: seq<uint8>)
    requires Valid(s) && NullsAhead(s, |randoms|)
    ensures Run(s, randoms).Some?
    ensures var t := Run(s, randoms).value; var n := |randoms|;
      && t.pc as int == s.pc as int + 2 * n
      && t.delayTimer as int == Saturate(s.delayTimer as int - n)
      && t.soundTimer as int == Saturate(s.soundTimer as int - n)
      && t.registers == s.registers && t.memory == s.memory && t.video == s.video
      && t.stack == s.stack && t.sp == s.sp && t.index == s.index
    decreases |randoms|
  {
    if |randoms| > 0 {
      assert WordAt(s.memory, s.pc as int + 2 * 0) == Fetch(s);
      assert CanCycle(s);
      NullCycle(s, randoms[0]);
      var c := Cycle(s, randoms[0]);
      assert c.pc as int == s.pc as int + 2;
      assert NullsAhead(c, |randoms| - 1) by {
        forall k | 0 <= k < |randoms| - 1
          ensures O.SelectorInTable(WordAt(c.memory, c.pc as int + 2 * k))
          ensures !O.Registered(WordAt(c.memory, c.pc as int + 2 * k))
        {
          assert WordAt(c.memory, c.pc as int + 2 * k) == WordAt(s.memory, s.pc as int + 2 * (k + 1));
        }
      }
      NullRun(c, randoms[1..]);
    }
  }

  // ---------------------------------------------------------------- drawing

  /** Dxyn drawn twice with the same operands (neither of them VF) leaves the
      screen as it was, and the second draw reports a collision exactly when
      the first one lit some cell, i.e. some covered cell was dark before. */
  lemma DrawTwiceRestoresScreen(s: State, x: Nibble, y: Nibble, n: Nibble, random: uint8)
    requires Valid(s) && x != 0xF && y != 0xF && Defined(s, O.Draw(x, y, n))
    ensures Defined(Exec(s, O.Draw(x, y, n), random), O.Draw(x, y, n))
    ensures var t := Exec(Exec(s, O.Draw(x, y, n), random), O.Draw(x, y, n), random);
      var o := Origin(s, x, y);
      var sprite := SpriteRows(s, n);
      && t.video == s.video
      && (t.registers[0xF] == 1 <==> exists p :: 0 <= p < Sprite.VideoSize && Sprite.Under(sprite, o.0, o.1, 0, p) && s.video[p] == 0)
  {
    var o := Origin(s, x, y);
    var sprite := SpriteRows(s, n);
    Sprite.DrawTwiceRestores(s.video, sprite, o.0, o.1);
    Sprite.SecondDrawCollision(s.video, sprite, o.0, o.1);
  }

  /** On a cleared screen a sprite with a pixel set is drawn without collision,
      drawing it again reports one and clears the screen. */
  lemma ClearThenDrawTwice(s: State, x: Nibble, y: Nibble, n: Nibble, row: nat, col: nat, random: uint8)
    requires Valid(s) && x != 0xF && y != 0xF && Defined(s, O.Draw(x, y, n))
    requires row < n && col < 8 && Sprite.SpriteBit(s.memory[s.index as int + row], col)
    ensures var c := Exec(s, O.ClearScreen, random);
      var once := Exec(c, O.Draw(x, y, n), random);
      var twice := Exec(once, O.Draw(x, y, n), random);
      && once.registers[0xF] == 0
      && twice.registers[0xF] == 1
      && forall p :: 0 <= p < Sprite.VideoSize ==> twice.video[p] == 0
  {
    var c := Exec(s, O.ClearScreen, random);
    assert c.video == Sprite.Blank;
    var o := Origin(s, x, y);
    var sprite := s.memory[s.index..s.index as int + n];
    assert sprite[row] == s.memory[s.index as int + row];
    Sprite.DrawTwiceOnClearedScreen(sprite, o.0, o.1, row, col);
  }
}
