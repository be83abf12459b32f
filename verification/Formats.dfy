/** Known bytes: what the formats of kvstore/src/tablet.cc and kvstore/src/bloom.h make of one small cell. They
    fix magic numbers, byte order and the order of the fields, which no round trip can see. */
module Formats {
  import opened Bytes
  import opened Table
  import opened Wal
  import opened RowCodec
  import opened TabletImage
  import opened Snapshot
  import opened WalDelta
  import Bloom

  /** The row "r" with the column "c" and the value "v". */
  function Cell(): RowImage {
    RowImage([0x72], [([0x63], [0x76])])
  }

  /** The least significant byte first. */
  lemma FourBytes(a: Byte, b: Byte, c: Byte, d: Byte)
    ensures PutU32(a as int + 0x100 * (b as int + 0x100 * (c as int + 0x100 * d as int))) == [a, b, c, d]
  {
    hide PutLE;
    var w := c as int + 0x100 * d as int;
    var v := b as int + 0x100 * w;
    LowFirst(a, v, 3);
    LowFirst(b, w, 2);
    LowFirst(c, d as int, 1);
    LowFirst(d, 0, 0);
    NoBytes();
  }

  lemma LowFirst(low: Byte, high: nat, n: nat)
    ensures PutLE(low as int + 0x100 * high, n + 1) == [low] + PutLE(high, n)
  {
    hide ByteOf;
    LowByte(low, high);
  }

  lemma LowByte(low: Byte, high: nat)
    ensures ByteOf(low as int + 0x100 * high) == low && (low as int + 0x100 * high) / 0x100 == high
  {
  }

  lemma NoBytes()
    ensures PutLE(0, 0) == []
  {
  }

  lemma EightBytes(a: Byte)
    ensures PutU64(a as int) == [a, 0, 0, 0, 0, 0, 0, 0]
  {
    hide PutLE;
    LowFirst(a, 0, 7);
    LowFirst(0, 0, 6);
    LowFirst(0, 0, 5);
    LowFirst(0, 0, 4);
    LowFirst(0, 0, 3);
    LowFirst(0, 0, 2);
    LowFirst(0, 0, 1);
    LowFirst(0, 0, 0);
    NoBytes();
  }

  lemma LittleEndian()
    ensures PutU32(1) == [1, 0, 0, 0] && PutU32(0) == [0, 0, 0, 0]
    ensures PutU64(1) == [1, 0, 0, 0, 0, 0, 0, 0] && PutU64(2) == [2, 0, 0, 0, 0, 0, 0, 0]
    ensures PutU32(WAL_MAGIC) == [0x34, 0x12, 0xcd, 0xab] && PutU32(CKPT_MAGIC) == [0xce, 0xfa, 0xde, 0xc0]
  {
    hide PutU32, PutU64;
    FourBytes(0, 0, 0, 0);
    FourBytes(1, 0, 0, 0);
    FourBytes(0x34, 0x12, 0xcd, 0xab);
    FourBytes(0xce, 0xfa, 0xde, 0xc0);
    EightBytes(1);
    EightBytes(2);
  }

  /** Log entries: magic, code, three lengths, three strings. */
  lemma EntryBytes()
    ensures EncodeEntry(PutEntry([0x72], [0x63], [0x76])) ==
            [0x34, 0x12, 0xcd, 0xab] + [1] + [1, 0, 0, 0] + [1, 0, 0, 0] + [1, 0, 0, 0] + ([0x72] + [0x63] + [0x76])
    ensures EncodeEntry(DeleteEntry([0x72], [0x63])) ==
            [0x34, 0x12, 0xcd, 0xab] + [2] + [1, 0, 0, 0] + [1, 0, 0, 0] + [0, 0, 0, 0] + ([0x72] + [0x63] + [])
  {
    hide PutU32;
    LittleEndian();
  }

  lemma OneByteText(c: Byte)
    ensures EncodeStr([c]) == [1, 0, 0, 0, c]
  {
    hide PutU32;
    LittleEndian();
  }

  lemma CellBytes()
    ensures EncodeRows([Cell()]) ==
            [1, 0, 0, 0, 0x72] + [1, 0, 0, 0] + [1, 0, 0, 0, 0x63] + [1, 0, 0, 0, 0x76]
  {
    hide PutU32, EncodeStr;
    LittleEndian();
    OneByteText(0x72);
    OneByteText(0x63);
    OneByteText(0x76);
    var cols := [([0x63], [0x76])];
    assert cols[1..] == [] && [Cell()][1..] == [];
    assert EncodeCols(cols) == EncodeStr([0x63]) + (EncodeStr([0x76]) + []);
    assert EncodeRows([Cell()]) == EncodeRow(Cell()) + [];
  }

  /** A checkpoint at version 1 and LSN 2: magic, version, LSN, number of rows, rows, filter. */
  lemma CheckpointBytes(filter: Bloom.Cells)
    ensures EncodeCkpt(1, 2, [Cell()], filter) ==
            [0xce, 0xfa, 0xde, 0xc0] + [1, 0, 0, 0, 0, 0, 0, 0] + [2, 0, 0, 0, 0, 0, 0, 0] + [1, 0, 0, 0]
            + [1, 0, 0, 0, 0x72] + [1, 0, 0, 0] + [1, 0, 0, 0, 0x63] + [1, 0, 0, 0, 0x76] + Bloom.BytesOf(filter)
  {
    hide PutU32, PutU64, EncodeRows, Bloom.BytesOf;
    LittleEndian();
    CellBytes();
  }

  /** A snapshot: number of rows, LSN, version, rows. */
  lemma SnapshotBytes()
    ensures EncodeSnapshot(2, 1, [Cell()]) ==
            [1, 0, 0, 0] + [2, 0, 0, 0, 0, 0, 0, 0] + [1, 0, 0, 0, 0, 0, 0, 0]
            + [1, 0, 0, 0, 0x72] + [1, 0, 0, 0] + [1, 0, 0, 0, 0x63] + [1, 0, 0, 0, 0x76]
  {
    hide PutU32, PutU64, EncodeRows;
    LittleEndian();
    CellBytes();
  }

  /** A delta: the requester's LSN, then each LSN with its entry. */
  lemma DeltaBytes(e: Entry)
    ensures EncodeDelta(1, 2, [e]) == [1, 0, 0, 0, 0, 0, 0, 0] + [2, 0, 0, 0, 0, 0, 0, 0] + EncodeEntry(e)
  {
    hide PutU64, EncodeEntry;
    LittleEndian();
    assert [e][1..] == [];
    assert EncodeRun(2, [e]) == PutU64(2) + (EncodeEntry(e) + []);
  }

  /** The three hashes of the key "a": those of the published FNV-1a vector and of the other two by hand. */
  lemma HashesOfA()
    ensures Bloom.HashOf([0x61], 0) == 177670
    ensures Bloom.HashOf([0x61], 1) == 0xaf63_dc4c_8601_ec8c
    ensures Bloom.HashOf([0x61], 2) == 97
  {
    assert [0x61][..0] == [];
    assert 14695981039346656037 % 0x100 == 0x25;
    XorA();
  }

  lemma XorA()
    ensures ((0x25 as bv8) ^ (0x61 as bv8)) as int == 0x44
  {
  }

  /** The filter of the key "a" alone: bit 6 of byte 22208, bit 4 of byte 15761 and bit 1 of byte 12. */
  lemma FilterOfA(i: nat)
    requires i < Bloom.BYTES
    ensures Bloom.Added(Bloom.Empty(), [0x61])[i]
            == if i == 22208 then 0x40 else if i == 15761 then 0x10 else if i == 12 then 0x02 else 0
  {
    hide Bloom.HashOf;
    HashesOfA();
  }
}
