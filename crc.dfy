/** The frame check sequence of a GDL 90 message: a CRC-16 with generator
    polynomial 0x1021 (x^16 + x^12 + x^5 + 1) and initial value 0, computed
    one byte at a time through a 256-entry lookup table.  The register is a
    16-bit word, so every shift drops the bits pushed past bit 15. */
module Crc16 {
  import opened Common

  const POLYNOMIAL: bv16 := 0x1021

  /** One clock of the bitwise CRC register: shift left by one and feed the
      polynomial back in when the bit shifted out was set. */
  function Round(crc: bv16): bv16 {
    (crc << 1) ^ (if crc & 0x8000 != 0 then POLYNOMIAL else 0)
  }

  function Rounds(crc: bv16, n: nat): bv16 {
    if n == 0 then crc else Round(Rounds(crc, n - 1))
  }

  /** Entry `i` of the lookup table: `i` in the high byte of an otherwise
      empty register, clocked eight times. */
  function TableEntry(i: int): bv16
    requires 0 <= i < 256
  {
    Rounds((i as bv16) << 8, 8)
  }

  predicate IsCrcTable(table: array<bv16>)
    reads table
  {
    table.Length == 256 && forall i | 0 <= i < 256 :: table[i] == TableEntry(i)
  }

  /** Builds the lookup table entry by entry, clocking the register eight
      times for each. */
  method CreateCrcTable() returns (table: array<bv16>)
    ensures IsCrcTable(table)
  {
    table := new bv16[256](_ => 0);
    var i := 0;
    while i < 256
      invariant 0 <= i <= 256
      invariant forall j | 0 <= j < i :: table[j] == TableEntry(j)
    {
      var crc: bv16 := (i as bv16) << 8;
      var bitctr := 0;
      while bitctr < 8
        invariant 0 <= bitctr <= 8
        invariant crc == Rounds((i as bv16) << 8, bitctr)
      {
        crc := Round(crc);
        bitctr := bitctr + 1;
      }
      table[i] := crc;
      i := i + 1;
    }
  }

  /** The register after one more byte: the table entry for the byte leaving
      the high end, combined with the shifted register and the new byte. */
  function Step(crc: bv16, b: byte): bv16 {
    TableEntry((crc >> 8) as int) ^ ((crc << 8) ^ (b as bv16))
  }

  /** The register after feeding `s`, from the state `crc`. */
  function Fold(crc: bv16, s: seq<byte>): bv16 {
    if s == [] then crc else Step(Fold(crc, s[..|s| - 1]), s[|s| - 1])
  }

  /** The checksum of a byte sequence: the register after all of it,
      starting from zero. */
  function Crc(s: seq<byte>): u16 {
    Fold(0, s) as int as u16
  }

  /** Feeding `a + b` is feeding `a`, then continuing with `b` from there:
      the checksum can be computed incrementally over a chain of inputs. */
  lemma {:induction false} FoldAppend(crc: bv16, a: seq<byte>, b: seq<byte>)
    ensures Fold(crc, a + b) == Fold(Fold(crc, a), b)
  {
    if b != [] {
      var k := |b| - 1;
      assert (a + b)[..|a + b| - 1] == a + b[..k];
      FoldAppend(crc, a, b[..k]);
    } else {
      assert a + b == a;
    }
  }

  /** The table-driven step, with the arithmetic in a lemma of its own so
      that the loop below stays cheap for the solver. */
  lemma StepIs(crc: bv16, b: byte)
    ensures 0 <= (crc >> 8) as int < 256
    ensures Step(crc, b) == TableEntry((crc >> 8) as int) ^ ((crc << 8) ^ (b as bv16))
  {}

  /** Runs the table-driven CRC over `data`. */
  method Checksum(table: array<bv16>, data: seq<byte>) returns (crc: u16)
    requires IsCrcTable(table)
    ensures crc == Crc(data)
  {
    var register: bv16 := 0;
    for k := 0 to |data|
      invariant register == Fold(0, data[..k])
    {
      assert data[..k + 1][..k] == data[..k];
      var index := (register >> 8) as int;
      StepIs(register, data[k]);
      register := table[index] ^ ((register << 8) ^ (data[k] as bv16));
    }
    assert data[..|data|] == data;
    crc := register as int as u16;
  }

  lemma RoundsEight(c: bv16)
    ensures Rounds(c, 8) == Round(Round(Round(Round(Round(Round(Round(Round(c))))))))
  {
    assert Rounds(c, 2) == Round(Rounds(c, 1));
    assert Rounds(c, 3) == Round(Rounds(c, 2));
    assert Rounds(c, 4) == Round(Rounds(c, 3));
    assert Rounds(c, 5) == Round(Rounds(c, 4));
    assert Rounds(c, 6) == Round(Rounds(c, 5));
    assert Rounds(c, 7) == Round(Rounds(c, 6));
  }

  /** The checksum of the heartbeat body 00 81 41 DB D0 08 02 is 0x8BB3,
      sent on the wire low byte first as B3 8B. */
  lemma HeartbeatChecksum()
    ensures Crc([0x00, 0x81, 0x41, 0xDB, 0xD0, 0x08, 0x02]) == 0x8BB3
  {
    RoundsEight(0x8100);
    RoundsEight(0xc000);
    RoundsEight(0xab00);
    RoundsEight(0x9800);
    assert TableEntry(0x81) == 0x81a9;
    assert TableEntry(0xc0) == 0xd94c;
    assert TableEntry(0xab) == 0x0481;
    assert TableEntry(0x98) == 0x02b1;
    var s: seq<byte> := [0x00, 0x81, 0x41, 0xDB, 0xD0, 0x08, 0x02];
    assert s[..2][..1] == s[..1];
    assert s[..3][..2] == s[..2];
    assert s[..4][..3] == s[..3];
    assert s[..5][..4] == s[..4];
    assert s[..6][..5] == s[..5];
    assert s[..6] == s[..|s| - 1];
    assert Fold(0, s[..1]) == 0;
    assert Fold(0, s[..2]) == 0x81;
    assert Fold(0, s[..3]) == 0x8141;
    assert Fold(0, s[..4]) == 0xc072;
    assert Fold(0, s[..5]) == 0xab9c;
    assert Fold(0, s[..6]) == 0x9889;
    assert Fold(0, s) == 0x8bb3;
  }
}
