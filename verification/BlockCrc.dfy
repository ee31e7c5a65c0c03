/** The block checksum of bzip2: a table-driven 32-bit CRC. The table is a
    parameter, the same on both sides. */
module BlockCrc {
  import opened Arith

  type CrcTable = t: seq<bv32> | |t| == 256 witness seq(256, _ => 0 as bv32)

  const INITIAL: bv32 := 0xffffffff

  function TopByte(crc: bv32): bv8 { (crc >> 24) as bv8 }

  function Up8(crc: bv32): bv32 { crc << 8 }

  function EntryAt(table: CrcTable, b: bv8): bv32 { table[b as int] }

  function MixByte(a: bv8, b: bv8): bv8 { a ^ b }

  function IndexFor(crc: bv32, ch: Byte): bv8 { MixByte(TopByte(crc), ch as bv8) }

  function Mix(a: bv32, b: bv32): bv32 { a ^ b }

  /** BZ_UPDATE_CRC. */
  function Update(table: CrcTable, crc: bv32, ch: Byte): bv32 {
    Mix(Up8(crc), EntryAt(table, IndexFor(crc, ch)))
  }

  function UpdateAll(table: CrcTable, crc: bv32, bytes: seq<Byte>): bv32 {
    if bytes == [] then crc
    else Update(table, UpdateAll(table, crc, bytes[..|bytes| - 1]), bytes[|bytes| - 1])
  }

  lemma {:induction false} UpdateConcat(table: CrcTable, crc: bv32, a: seq<Byte>, b: seq<Byte>)
    ensures UpdateAll(table, crc, a + b) == UpdateAll(table, UpdateAll(table, crc, a), b)
  {
    if b == [] {
      assert a + b == a;
    } else {
      assert (a + b)[..|a + b| - 1] == a + b[..|b| - 1];
      UpdateConcat(table, crc, a, b[..|b| - 1]);
    }
  }

  /** BZ_FINALISE_CRC. */
  function Finalise(crc: bv32): bv32 { !crc }

  function BlockSum(table: CrcTable, data: seq<Byte>): bv32 {
    Finalise(UpdateAll(table, INITIAL, data))
  }

  /** Rotate the stream checksum left and mix in a block checksum. */
  function Combine(combined: bv32, blockCrc: bv32): bv32 {
    ((combined << 1) | (combined >> 31)) ^ blockCrc
  }

  function CombineAll(crcs: seq<bv32>): bv32 {
    if crcs == [] then 0 else Combine(CombineAll(crcs[..|crcs| - 1]), crcs[|crcs| - 1])
  }
}
