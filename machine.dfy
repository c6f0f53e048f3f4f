/** The interpreter as the C++ runs it: `chip8_t` as a class whose fixed-size
    arrays are updated in place, one method per handler, the two-level
    dispatch through the handler tables, and `cycle`.  Every method is proved
    to take `Snapshot()` to what `MachineSpec` says. */
module Machine {
  import opened Bits
  import opened Opcode
  import S = MachineSpec
  import Sprite

  class Chip8 {
    const keypad: array<uint8>
    const video: array<bv32>
    const memory: array<uint8>
    const registers: array<uint8>
    var index: uint16
    var pc: uint16
    var delayTimer: uint8
    var soundTimer: uint8
    const stack: array<uint16>
    var sp: uint8
    var opcode: uint16

    /** The array sizes of `chip8_t`; the three byte arrays are distinct. */
    ghost predicate Valid() {
      && keypad.Length == S.KeyCount
      && video.Length == Sprite.VideoSize
      && memory.Length == S.MemorySize
      && registers.Length == S.RegisterCount
      && stack.Length == S.StackSize
      && memory != registers && memory != keypad && registers != keypad
    }

    /** The current contents of every field, as a `MachineSpec.State`. */
    ghost function Snapshot(): S.State
      reads this, keypad, video, memory, registers, stack
    {
      S.State(keypad[..], video[..], memory[..], registers[..], index, pc,
              delayTimer, soundTimer, stack[..], sp, opcode)
    }

    // -------------------------------------------------------------- make_chip8, init

    /** `make_chip8`: a value-initialised `chip8_t` passed through `init`. */
    constructor ()
      ensures Valid() && Snapshot() == S.PowerOn()
      ensures fresh(keypad) && fresh(video) && fresh(memory) && fresh(registers) && fresh(stack)
    {
      keypad := new uint8[S.KeyCount](_ => 0);
      video := new bv32[Sprite.VideoSize](_ => 0);
      memory := new uint8[S.MemorySize](_ => 0);
      registers := new uint8[S.RegisterCount](_ => 0);
      stack := new uint16[S.StackSize](_ => 0);
      index, pc, delayTimer, soundTimer, sp, opcode := 0, 0, 0, 0, 0, 0;
      new;
      Init();
    }

    /** `init`: the three `memset`s, the scalar resets and `load_fonset`. */
    method Init()
      requires Valid()
      modifies this, memory, registers, stack
      ensures Valid() && Snapshot() == S.Init(old(Snapshot()))
    {
      forall i | 0 <= i < memory.Length {
        memory[i] := 0;
      }
      forall i | 0 <= i < registers.Length {
        registers[i] := 0;
      }
      forall i | 0 <= i < stack.Length {
        stack[i] := 0;
      }
      pc := S.ProgramStart as uint16;
      sp := 0;
      opcode := 0;
      index := 0;
      delayTimer := 0;
      soundTimer := 0;
      LoadFontset();
    }

    /** `load_fonset`: `memcpy` of the glyphs to 0x50. */
    method LoadFontset()
      requires Valid()
      modifies memory
      ensures memory[..] == S.LoadFontset(old(memory[..]))
    {
      forall i | 0 <= i < S.FontsetSize {
        memory[S.FontsetStart + i] := S.Fontset[i];
      }
    }

    // -------------------------------------------------------------- load_program, load_rom

    /** `load_program`: `memcpy` of the image to 0x200. */
    method LoadProgram(program: seq<uint8>)
      requires Valid() && |program| <= S.MemorySize - S.ProgramStart
      modifies memory
      ensures memory[..] == S.LoadProgram(old(memory[..]), program)
    {
      forall i | 0 <= i < |program| {
        memory[S.ProgramStart + i] := program[i];
      }
    }

    /** `load_rom` on the bytes `read_program` returned; the two exceptions
        come back as the error, and then memory is untouched. */
    method LoadRom(program: seq<uint8>) returns (error: S.Option<S.RomError>)
      requires Valid()
      modifies memory
      ensures error == S.CheckRom(program)
      ensures Snapshot() == S.LoadRom(old(Snapshot()), program)
    {
      if |program| > S.MaxRomSize {
        return S.Some(S.RomTooLarge);
      } else if |program| == 0 {
        return S.Some(S.EmptyRom);
      }
      LoadProgram(program);
      return S.None;
    }

    // -------------------------------------------------------------- fetch, cycle

    /** `fetch`: `memory[pc] << 8 | memory[pc + 1]`. */
    function Fetch(): (w: uint16)
      reads this, memory
      requires Valid() && pc as int + 1 < S.MemorySize
      ensures w as int / 0x100 == memory[pc] as int && w as int % 0x100 == memory[pc as int + 1] as int
    {
      S.WordAt(memory[..], pc as int)
    }

    /** `cycle`: fetch, `pc += 2`, run the handler, count both timers down. */
    method Cycle(random: uint8)
      requires Valid() && S.CanCycle(Snapshot())
      modifies this, memory, registers, stack, video
      ensures Valid() && Snapshot() == S.Cycle(old(Snapshot()), random)
    {
      opcode := Fetch();
      pc := Wrap16(pc as int + 2);
      ghost var a := S.Advance(old(Snapshot()));
      assert Snapshot() == a;
      DecodeAndExecute(random);
      ghost var e := S.Exec(a, Decode(a.opcode), random);
      assert Snapshot() == e;
      if delayTimer > 0 {
        delayTimer := delayTimer - 1;
      }
      if soundTimer > 0 {
        soundTimer := soundTimer - 1;
      }
      assert Snapshot() == e.(delayTimer := S.CountDown(e.delayTimer), soundTimer := S.CountDown(e.soundTimer));
      S.CycleSteps(old(Snapshot()), random);
    }

    // -------------------------------------------------------------- dispatch

    /** `decode_and_execute` through `dispatch_table`, indexed by the top
        nibble; `random` is the byte `op_Cxkk` draws. */
    method DecodeAndExecute(random: uint8)
      requires Valid() && SelectorInTable(opcode) && S.Defined(Snapshot(), Decode(opcode))
      modifies this, memory, registers, stack, video
      ensures Valid() && Snapshot() == S.Exec(old(Snapshot()), Decode(old(opcode)), random)
    {
      match Family(opcode)
      case 0x0 => Opcodes0();
      case 0x1 => Op1nnn();
      case 0x2 => Op2nnn();
      case 0x3 => Op3xkk();
      case 0x4 => Op4xkk();
      case 0x5 => Op5xy0();
      case 0x6 => Op6xkk();
      case 0x7 => Op7xkk();
      case 0x8 => Opcodes8();
      case 0x9 => Op9xy0();
      case 0xA => OpAnnn();
      case 0xB => OpBnnn();
      case 0xC => OpCxkk(random);
      case 0xD => OpDxyn();
      case 0xE => OpcodesE();
      case 0xF => OpcodesF();
    }

    /** `opcodes_0` through `table0`, indexed by the low nibble; unset slots
        hold `op_null`, which does nothing. */
    method Opcodes0()
      requires Valid() && Family(opcode) == 0x0 && SelectorInTable(opcode)
      requires S.Defined(Snapshot(), Decode(opcode))
      modifies this, video
      ensures Snapshot() == S.Exec(old(Snapshot()), Decode(old(opcode)), 0)
    {
      if N(opcode) == 0x0 {
        Op00E0();
      } else if N(opcode) == 0xE {
        Op00EE();
      }
    }

    /** `opcodes_8` through `table8`, indexed by the low nibble. */
    method Opcodes8()
      requires Valid() && Family(opcode) == 0x8 && SelectorInTable(opcode)
      modifies registers
      ensures Snapshot() == S.Exec(old(Snapshot()), Decode(opcode), 0)
    {
      match N(opcode)
      case 0x0 => Op8xy0();
      case 0x1 => Op8xy1();
      case 0x2 => Op8xy2();
      case 0x3 => Op8xy3();
      case 0x4 => Op8xy4();
      case 0x5 => Op8xy5();
      case 0x6 => Op8xy6();
      case 0x7 => Op8xy7();
      case 0xE => Op8xyE();
      case _ =>
    }

    /** `opcodes_E` through `tableE`, indexed by the low nibble. */
    method OpcodesE()
      requires Valid() && Family(opcode) == 0xE && SelectorInTable(opcode)
      requires S.Defined(Snapshot(), Decode(opcode))
      modifies this
      ensures Snapshot() == S.Exec(old(Snapshot()), Decode(old(opcode)), 0)
    {
      if N(opcode) == 0x1 {
        OpExA1();
      } else if N(opcode) == 0xE {
        OpEx9E();
      }
    }

    /** `opcodes_F` through `tableF`, indexed by the low byte. */
    method OpcodesF()
      requires Valid() && Family(opcode) == 0xF && SelectorInTable(opcode)
      requires S.Defined(Snapshot(), Decode(opcode))
      modifies this, memory, registers
      ensures Snapshot() == S.Exec(old(Snapshot()), Decode(old(opcode)), 0)
    {
      match KK(opcode)
      case 0x07 => OpFx07();
      case 0x0A => OpFx0A();
      case 0x15 => OpFx15();
      case 0x18 => OpFx18();
      case 0x1E => OpFx1E();
      case 0x29 => OpFx29();
      case 0x33 => OpFx33();
      case 0x55 => OpFx55();
      case 0x65 => OpFx65();
      case _ =>
    }

    // -------------------------------------------------------------- 00E0 .. 7xkk

    /** `op_00E0`: `memset` of the whole framebuffer. */
    method Op00E0()
      requires Valid()
      modifies video
      ensures Snapshot() == S.Exec(old(Snapshot()), ClearScreen, 0)
    {
      forall p | 0 <= p < video.Length {
        video[p] := 0;
      }
    }

    /** `op_00EE`. */
    method Op00EE()
      requires Valid() && 0 < sp as int <= S.StackSize
      modifies this
      ensures Snapshot() == S.Exec(old(Snapshot()), Return, 0)
    {
      sp := sp - 1;
      pc := stack[sp];
    }

    /** `op_1nnn`. */
    method Op1nnn()
      requires Valid()
      modifies this
      ensures Snapshot() == S.Exec(old(Snapshot()), Jump(NNN(opcode)), 0)
    {
      pc := NNN(opcode);
    }

    /** `op_2nnn`. */
    method Op2nnn()
      requires Valid() && (sp as int) < S.StackSize
      modifies this, stack
      ensures Snapshot() == S.Exec(old(Snapshot()), Call(NNN(opcode)), 0)
    {
      stack[sp] := pc;
      sp := sp + 1;
      pc := NNN(opcode);
    }

    /** `op_3xkk`. */
    method Op3xkk()
      requires Valid()
      modifies this
      ensures Snapshot() == S.Exec(old(Snapshot()), SkipEqImm(X(opcode), KK(opcode)), 0)
    {
      if registers[X(opcode)] == KK(opcode) {
        pc := Wrap16(pc as int + 2);
      }
    }

    /** `op_4xkk`. */
    method Op4xkk()
      requires Valid()
      modifies this
      ensures Snapshot() == S.Exec(old(Snapshot()), SkipNeImm(X(opcode), KK(opcode)), 0)
    {
      if registers[X(opcode)] != KK(opcode) {
        pc := Wrap16(pc as int + 2);
      }
    }

    /** `op_5xy0`. */
    method Op5xy0()
      requires Valid()
      modifies this
      ensures Snapshot() == S.Exec(old(Snapshot()), SkipEqReg(X(opcode), Y(opcode)), 0)
    {
      if registers[X(opcode)] == registers[Y(opcode)] {
        pc := Wrap16(pc as int + 2);
      }
    }

    /** `op_6xkk`. */
    method Op6xkk()
      requires Valid()
      modifies registers
      ensures Snapshot() == S.Exec(old(Snapshot()), LoadImm(X(opcode), KK(opcode)), 0)
    {
      registers[X(opcode)] := KK(opcode);
    }

    /** `op_7xkk`: `registers[vx] += kk` on `uint8_t`. */
    method Op7xkk()
      requires Valid()
      modifies registers
      ensures Snapshot() == S.Exec(old(Snapshot()), AddImm(X(opcode), KK(opcode)), 0)
    {
      var vx := X(opcode);
      registers[vx] := Wrap8(registers[vx] as int + KK(opcode) as int);
    }

    // -------------------------------------------------------------- 8xy0 .. 8xyE

    /** `op_8xy0`. */
    method Op8xy0()
      requires Valid()
      modifies registers
      ensures Snapshot() == S.Exec(old(Snapshot()), Move(X(opcode), Y(opcode)), 0)
    {
      registers[X(opcode)] := registers[Y(opcode)];
    }

    /** `op_8xy1`. */
    method Op8xy1()
      requires Valid()
      modifies registers
      ensures Snapshot() == S.Exec(old(Snapshot()), Or(X(opcode), Y(opcode)), 0)
    {
      var vx := X(opcode);
      registers[vx] := Or8(registers[vx], registers[Y(opcode)]);
    }

    /** `op_8xy2`. */
    method Op8xy2()
      requires Valid()
      modifies registers
      ensures Snapshot() == S.Exec(old(Snapshot()), And(X(opcode), Y(opcode)), 0)
    {
      var vx := X(opcode);
      registers[vx] := And8(registers[vx], registers[Y(opcode)]);
    }

    /** `op_8xy3`. */
    method Op8xy3()
      requires Valid()
      modifies registers
      ensures Snapshot() == S.Exec(old(Snapshot()), Xor(X(opcode), Y(opcode)), 0)
    {
      var vx := X(opcode);
      registers[vx] := Xor8(registers[vx], registers[Y(opcode)]);
    }

    /** `op_8xy4`: the `uint16_t` sum sets VF, then its low byte goes to Vx. */
    method Op8xy4()
      requires Valid()
      modifies registers
      ensures Snapshot() == S.Exec(old(Snapshot()), AddReg(X(opcode), Y(opcode)), 0)
    {
      var vx, vy := X(opcode), Y(opcode);
      var sum := registers[vx] as int + registers[vy] as int;
      if sum > 0xFF {
        registers[0xF] := 1;
      } else {
        registers[0xF] := 0;
      }
      registers[vx] := Wrap8(sum);
    }

    /** `op_8xy5`: VF first, then `registers[vx] -= registers[vy]`. */
    method Op8xy5()
      requires Valid()
      modifies registers
      ensures Snapshot() == S.Exec(old(Snapshot()), SubReg(X(opcode), Y(opcode)), 0)
    {
      var vx, vy := X(opcode), Y(opcode);
      if registers[vx] > registers[vy] {
        registers[0xF] := 1;
      } else {
        registers[0xF] := 0;
      }
      registers[vx] := Wrap8(registers[vx] as int - registers[vy] as int);
    }

    /** `op_8xy6`: VF = Vx & 1, then Vx >>= 1. */
    method Op8xy6()
      requires Valid()
      modifies registers
      ensures Snapshot() == S.Exec(old(Snapshot()), ShiftRight(X(opcode)), 0)
    {
      var vx := X(opcode);
      registers[0xF] := registers[vx] % 2;
      registers[vx] := registers[vx] / 2;
    }

    /** `op_8xy7`: VF first, then Vx = Vy − Vx. */
    method Op8xy7()
      requires Valid()
      modifies registers
      ensures Snapshot() == S.Exec(old(Snapshot()), SubRev(X(opcode), Y(opcode)), 0)
    {
      var vx, vy := X(opcode), Y(opcode);
      if registers[vy] > registers[vx] {
        registers[0xF] := 1;
      } else {
        registers[0xF] := 0;
      }
      registers[vx] := Wrap8(registers[vy] as int - registers[vx] as int);
    }

    /** `op_8xyE`: VF = (Vx & 0x80) >> 7, then Vx <<= 1. */
    method Op8xyE()
      requires Valid()
      modifies registers
      ensures Snapshot() == S.Exec(old(Snapshot()), ShiftLeft(X(opcode)), 0)
    {
      var vx := X(opcode);
      registers[0xF] := registers[vx] / 0x80;
      registers[vx] := Wrap8(registers[vx] as int * 2);
    }

    // -------------------------------------------------------------- 9xy0 .. Dxyn

    /** `op_9xy0`. */
    method Op9xy0()
      requires Valid()
      modifies this
      ensures Snapshot() == S.Exec(old(Snapshot()), SkipNeReg(X(opcode), Y(opcode)), 0)
    {
      if registers[X(opcode)] != registers[Y(opcode)] {
        pc := Wrap16(pc as int + 2);
      }
    }

    /** `op_Annn`. */
    method OpAnnn()
      requires Valid()
      modifies this
      ensures Snapshot() == S.Exec(old(Snapshot()), SetIndex(NNN(opcode)), 0)
    {
      index := NNN(opcode);
    }

    /** `op_Bnnn`: V0 + nnn is at most 0x10FE, so nothing wraps. */
    method OpBnnn()
      requires Valid()
      modifies this
      ensures Snapshot() == S.Exec(old(Snapshot()), JumpOffset(NNN(opcode)), 0)
    {
      pc := (registers[0] as int + NNN(opcode) as int) as uint16;
    }

    /** `op_Cxkk` with `random` the byte drawn from the engine. */
    method OpCxkk(random: uint8)
      requires Valid()
      modifies registers
      ensures Snapshot() == S.Exec(old(Snapshot()), Random(X(opcode), KK(opcode)), random)
    {
      registers[X(opcode)] := And8(random, KK(opcode));
    }

    /** `op_Dxyn`: the origin is read before VF is cleared, then the row loop. */
    method OpDxyn()
      requires Valid() && S.Defined(Snapshot(), Draw(X(opcode), Y(opcode), N(opcode)))
      modifies registers, video
      ensures Snapshot() == S.Exec(old(Snapshot()), Draw(X(opcode), Y(opcode), N(opcode)), 0)
    {
      var vx, vy, height := X(opcode), Y(opcode), N(opcode);
      var xPos := registers[vx] as int % Sprite.VideoWidth;
      var yPos := registers[vy] as int % Sprite.VideoHeight;
      ghost var s := Snapshot();
      assert s == old(Snapshot());
      ghost var sprite := S.SpriteRows(s, height);
      assert (xPos, yPos) == S.Origin(s, vx, vy);
      assert Sprite.Fits(xPos, yPos, height) && |sprite| == height;
      assert forall r :: 0 <= r < height ==> memory[index as int + r] == sprite[r];
      ghost var target := Sprite.DrawRows(Sprite.Frame(video[..], false), sprite, xPos, yPos, 0);
      registers[0xF] := 0;
      DrawRows(sprite, xPos, yPos, height);
      S.DrawSpriteRows(s, vx, vy, height);
      assert video[..] == target.video;
      assert registers[..] == s.registers[0xF := S.Flag(target.collision)];
      assert keypad[..] == s.keypad && memory[..] == s.memory && stack[..] == s.stack;
      assert Snapshot() == s.(video := target.video, registers := s.registers[0xF := S.Flag(target.collision)]);
      assert Snapshot() == S.Exec(s, Draw(vx, vy, height), 0);
    }

    /** The row loop of `op_Dxyn`: row `row` is `memory[index + row]`. */
    method DrawRows(ghost sprite: seq<uint8>, xPos: nat, yPos: nat, height: Nibble)
      requires Valid() && |sprite| == height && (height == 0 || index as int + height <= S.MemorySize)
      requires forall r :: 0 <= r < height ==> memory[index as int + r] == sprite[r]
      requires Sprite.Fits(xPos, yPos, height) && registers[0xF] <= 1
      modifies registers, video
      ensures Sprite.Frame(video[..], registers[0xF] == 1)
        == Sprite.DrawRows(Sprite.Frame(old(video[..]), old(registers[0xF]) == 1), sprite, xPos, yPos, 0)
      ensures registers[0xF] <= 1 && forall i :: 0 <= i < 0xF ==> registers[i] == old(registers[i])
    {
      ghost var target := Sprite.DrawRows(Sprite.Frame(video[..], registers[0xF] == 1), sprite, xPos, yPos, 0);
      var row := 0;
      while row < height
        invariant 0 <= row <= height
        invariant forall i :: 0 <= i < 0xF ==> registers[i] == old(registers[i])
        invariant registers[0xF] <= 1
        invariant Sprite.DrawRows(Sprite.Frame(video[..], registers[0xF] == 1), sprite, xPos, yPos, row) == target
      {
        var spriteByte := memory[index as int + row];
        DrawRow(spriteByte, xPos, yPos, row);
        row := row + 1;
      }
    }

    /** The column loop of `op_Dxyn` for one sprite row: VF is set on a
        collision and never cleared. */
    method DrawRow(spriteByte: uint8, xPos: nat, yPos: nat, row: nat)
      requires Valid() && Sprite.Cell(xPos, yPos, row, 7) < Sprite.VideoSize && registers[0xF] <= 1
      modifies registers, video
      ensures Sprite.Frame(video[..], registers[0xF] == 1)
        == Sprite.DrawCols(Sprite.Frame(old(video[..]), old(registers[0xF]) == 1), spriteByte, xPos, yPos, row, 0)
      ensures registers[0xF] <= 1 && forall i :: 0 <= i < 0xF ==> registers[i] == old(registers[i])
    {
      var col := 0;
      while col < 8
        invariant 0 <= col <= 8
        invariant forall i :: 0 <= i < 0xF ==> registers[i] == old(registers[i])
        invariant registers[0xF] <= 1
        invariant Sprite.DrawCols(Sprite.Frame(video[..], registers[0xF] == 1), spriteByte, xPos, yPos, row, col)
          == Sprite.DrawCols(Sprite.Frame(old(video[..]), old(registers[0xF]) == 1), spriteByte, xPos, yPos, row, 0)
      {
        var p := (yPos + row) * Sprite.VideoWidth + (xPos + col);
        if Sprite.SpriteBit(spriteByte, col) {
          if video[p] == Sprite.Lit {
            registers[0xF] := 1;
          }
          video[p] := video[p] ^ Sprite.Lit;
        }
        col := col + 1;
      }
    }

    // -------------------------------------------------------------- Ex9E, ExA1

    /** `op_Ex9E`. */
    method OpEx9E()
      requires Valid() && (registers[X(opcode)] as int) < S.KeyCount
      modifies this
      ensures Snapshot() == S.Exec(old(Snapshot()), SkipKey(X(old(opcode))), 0)
    {
      if keypad[registers[X(opcode)]] != 0 {
        pc := Wrap16(pc as int + 2);
      }
    }

    /** `op_ExA1`. */
    method OpExA1()
      requires Valid() && (registers[X(opcode)] as int) < S.KeyCount
      modifies this
      ensures Snapshot() == S.Exec(old(Snapshot()), SkipNoKey(X(old(opcode))), 0)
    {
      if keypad[registers[X(opcode)]] == 0 {
        pc := Wrap16(pc as int + 2);
      }
    }

    // -------------------------------------------------------------- Fx07 .. Fx65

    /** `op_Fx07`. */
    method OpFx07()
      requires Valid()
      modifies registers
      ensures Snapshot() == S.Exec(old(Snapshot()), ReadDelay(X(opcode)), 0)
    {
      registers[X(opcode)] := delayTimer;
    }

    /** `op_Fx0A`: its chain of tests of keys 0 to 15 in turn is the search
        `FirstPressed`; with no key down `pc -= 2` repeats the instruction. */
    method OpFx0A()
      requires Valid()
      modifies this, registers
      ensures Snapshot() == S.Exec(old(Snapshot()), WaitKey(X(opcode)), 0)
    {
      match S.FirstPressed(keypad[..], 0)
      case Some(k) =>
        registers[X(opcode)] := k as uint8;
      case None =>
        pc := Wrap16(pc as int - 2);
    }

    /** `op_Fx15`. */
    method OpFx15()
      requires Valid()
      modifies this
      ensures Snapshot() == S.Exec(old(Snapshot()), SetDelay(X(opcode)), 0)
    {
      delayTimer := registers[X(opcode)];
    }

    /** `op_Fx18`. */
    method OpFx18()
      requires Valid()
      modifies this
      ensures Snapshot() == S.Exec(old(Snapshot()), SetSound(X(opcode)), 0)
    {
      soundTimer := registers[X(opcode)];
    }

    /** `op_Fx1E`: `index += Vx` on `uint16_t`. */
    method OpFx1E()
      requires Valid()
      modifies this
      ensures Snapshot() == S.Exec(old(Snapshot()), AddIndex(X(opcode)), 0)
    {
      index := Wrap16(index as int + registers[X(opcode)] as int);
    }

    /** `op_Fx29`. */
    method OpFx29()
      requires Valid()
      modifies this
      ensures Snapshot() == S.Exec(old(Snapshot()), Glyph(X(opcode)), 0)
    {
      index := (S.FontsetStart + 5 * registers[X(opcode)] as int) as uint16;
    }

    /** `op_Fx33`: peel off the ones, tens and hundreds by repeated division. */
    method OpFx33()
      requires Valid() && index as int + 2 < S.MemorySize
      modifies memory
      ensures Snapshot() == S.Exec(old(Snapshot()), StoreBcd(X(opcode)), 0)
    {
      var value := registers[X(opcode)];
      memory[index as int + 2] := value % 10;
      value := value / 10;
      memory[index as int + 1] := value % 10;
      value := value / 10;
      memory[index] := value % 10;
    }

    /** `op_Fx55`. */
    method OpFx55()
      requires Valid() && index as int + X(opcode) < S.MemorySize
      modifies memory
      ensures Snapshot() == S.Exec(old(Snapshot()), StoreRegs(X(opcode)), 0)
    {
      var vx := X(opcode);
      var i := 0;
      while i <= vx
        invariant 0 <= i <= vx + 1
        invariant forall j :: 0 <= j < i ==> memory[index as int + j] == registers[j]
        invariant forall j :: 0 <= j < S.MemorySize && !(index as int <= j < index as int + i) ==>
          memory[j] == old(memory[j])
      {
        memory[index as int + i] := registers[i];
        i := i + 1;
      }
      S.StoredRegisters(old(Snapshot()), vx, memory[..]);
    }

    /** `op_Fx65`. */
    method OpFx65()
      requires Valid() && index as int + X(opcode) < S.MemorySize
      modifies registers
      ensures Snapshot() == S.Exec(old(Snapshot()), LoadRegs(X(opcode)), 0)
    {
      var vx := X(opcode);
      var i := 0;
      while i <= vx
        invariant 0 <= i <= vx + 1
        invariant forall j :: 0 <= j < S.RegisterCount ==>
          registers[j] == if j < i then memory[index as int + j] else old(registers[j])
      {
        registers[i] := memory[index as int + i];
        i := i + 1;
      }
      ghost var t := S.LoadRegisters(old(Snapshot()), vx);
      assert registers[..] == t.registers;
      assert S.Exec(old(Snapshot()), LoadRegs(vx), 0) == t;
    }
  }
}
