/** The two handlers of the earlier handler file `src/opcodes.cpp` whose bodies
    differ from the dispatching interpreter, modelled as written, with what
    separates each from the intended behaviour that `MachineSpec` defines. */
module Drafts {
  import opened Bits
  import opened Opcode
  import S = MachineSpec
  import Sprite
  import Machine

  /** A quarter of the framebuffer: `memset` is given `video.size()`, a count of
      four-byte cells, as a count of bytes. */
  const ClearedCells := Sprite.VideoSize / 4

  /** `op_00E0` as written there: only the first `ClearedCells` cells are unlit. */
  function ClearScreenAsWritten(s: S.State): (t: S.State)
    requires S.Valid(s)
    ensures S.Valid(t) && t == s.(video := t.video)
    ensures forall p :: 0 <= p < ClearedCells ==> t.video[p] == 0
    ensures forall p :: ClearedCells <= p < Sprite.VideoSize ==> t.video[p] == s.video[p]
  {
    s.(video := seq(Sprite.VideoSize, p requires 0 <= p < Sprite.VideoSize =>
         if p < ClearedCells then 0 else s.video[p]))
  }

  /** The same `memset` on the class: the byte count covers a quarter of the cells. */
  method Op00E0AsWritten(c: Machine.Chip8)
    requires c.Valid()
    modifies c.video
    ensures c.Snapshot() == ClearScreenAsWritten(old(c.Snapshot()))
  {
    forall p | 0 <= p < c.video.Length / 4 {
      c.video[p] := 0;
    }
  }

  /** Any lit cell from `ClearedCells` on survives the as-written clear, where
      the intended clear unlights it. */
  lemma ClearScreenAsWrittenKeepsPixels(s: S.State, p: nat)
    requires S.Valid(s) && ClearedCells <= p < Sprite.VideoSize && s.video[p] == Sprite.Lit
    ensures ClearScreenAsWritten(s).video[p] == Sprite.Lit
    ensures S.ClearScreen(s).video[p] == 0
    ensures ClearScreenAsWritten(s) != S.ClearScreen(s)
  {
  }

  /** `op_8xy6` as written there: its body is the body of `op_8xy5`, a
      subtraction with a not-borrow flag. */
  function ShiftRightAsWritten(s: S.State, x: Nibble, y: Nibble): (t: S.State)
    requires S.Valid(s)
    ensures S.Valid(t) && t == s.(registers := t.registers)
    ensures x != 0xF && y != 0xF ==>
      && t.registers[x] as int == (s.registers[x] as int - s.registers[y] as int) % 0x100
      && t.registers[0xF] == S.Flag(s.registers[x] > s.registers[y])
    ensures t == S.SubWithBorrow(s, x, y)
  {
    var r := s.registers[0xF := S.Flag(s.registers[x] > s.registers[y])];
    s.(registers := r[x := Wrap8(r[x] as int - r[y] as int)])
  }

  /** The same body on the class. */
  method Op8xy6AsWritten(c: Machine.Chip8)
    requires c.Valid()
    modifies c.registers
    ensures c.Snapshot() == ShiftRightAsWritten(old(c.Snapshot()), X(c.opcode), Y(c.opcode))
  {
    var vx, vy := X(c.opcode), Y(c.opcode);
    if c.registers[vx] > c.registers[vy] {
      c.registers[0xF] := 1;
    } else {
      c.registers[0xF] := 0;
    }
    c.registers[vx] := Wrap8(c.registers[vx] as int - c.registers[vy] as int);
  }

  /** With Vy = 0 and Vx > 1 the as-written 8xy6 keeps Vx and sets VF = 1,
      where the intended shift halves Vx and puts its low bit in VF. */
  lemma ShiftRightAsWrittenDoesNotShift(s: S.State, x: Nibble, y: Nibble)
    requires S.Valid(s) && x != 0xF && y != 0xF && x != y
    requires s.registers[y] == 0 && s.registers[x] > 1
    ensures ShiftRightAsWritten(s, x, y).registers[x] == s.registers[x]
    ensures ShiftRightAsWritten(s, x, y).registers[0xF] == 1
    ensures S.ShiftRight(s, x).registers[x] < s.registers[x]
  {
  }

  /** The concrete instance: V0 = 2, V1 = 0, opcode 0x8016.  As written V0 stays
      2 and VF becomes 1; the shift gives V0 = 1, VF = 0. */
  lemma ShiftRightAsWrittenExample()
    ensures var s := S.PowerOn().(registers := S.PowerOn().registers[0 := 2]);
      && Decode(0x8016) == ShiftRight(0)
      && X(0x8016) == 0 && Y(0x8016) == 1
      && ShiftRightAsWritten(s, 0, 1).registers[0] == 2 && ShiftRightAsWritten(s, 0, 1).registers[0xF] == 1
      && S.ShiftRight(s, 0).registers[0] == 1 && S.ShiftRight(s, 0).registers[0xF] == 0
  {
    var s := S.PowerOn().(registers := S.PowerOn().registers[0 := 2]);
    assert s.registers[1] == 0;
  }
}
