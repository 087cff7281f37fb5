/*
 * The memory-mapped GPU register block of the kernel driver, as values.
 *
 * The block is a sequence of bytes; a register is a 32-bit little-endian
 * word at a byte offset. Offsets and the block size are unsigned 32-bit
 * integers in the driver; register values are `bv32`.
 */
module RegisterBlock {

  const TWO32: int := 0x1_0000_0000

  /** An unsigned 32-bit integer used as an offset or a size. */
  type u32 = x: int | 0 <= x < TWO32

  /** The bit pattern of an unsigned 32-bit integer. */
  function Bits(x: u32): bv32
  {
    x as bv32
  }

  /** Byte k (0 = least significant) of a word. */
  function ByteOf(v: bv32, k: nat): (b: bv8)
    requires k < 4
  {
    if k == 0 then (v & 0xff) as bv8
    else if k == 1 then ((v >> 8) & 0xff) as bv8
    else if k == 2 then ((v >> 16) & 0xff) as bv8
    else ((v >> 24) & 0xff) as bv8
  }

  /** The little-endian word made of four bytes, least significant first. */
  function Word(b0: bv8, b1: bv8, b2: bv8, b3: bv8): bv32
  {
    (b3 as bv32 << 24) | (b2 as bv32 << 16) | (b1 as bv32 << 8) | b0 as bv32
  }

  /** Joining four bytes into a word and splitting it again gives the bytes back. */
  lemma BytesOfWord(b0: bv8, b1: bv8, b2: bv8, b3: bv8)
    ensures var v := Word(b0, b1, b2, b3);
            ByteOf(v, 0) == b0 && ByteOf(v, 1) == b1 && ByteOf(v, 2) == b2 && ByteOf(v, 3) == b3
  {
  }

  /** Splitting a word into bytes and joining them again gives the word back. */
  lemma WordOfBytes(v: bv32)
    ensures Word(ByteOf(v, 0), ByteOf(v, 1), ByteOf(v, 2), ByteOf(v, 3)) == v
  {
  }

  /** The word stored at byte offset `o` (OSReadLittleInt32). */
  function ReadWord(mem: seq<bv8>, o: nat): bv32
    requires o + 4 <= |mem|
  {
    Word(mem[o], mem[o + 1], mem[o + 2], mem[o + 3])
  }

  /** The block after storing `v` little-endian at byte offset `o` (OSWriteLittleInt32). */
  function WriteWord(mem: seq<bv8>, o: nat, v: bv32): (r: seq<bv8>)
    requires o + 4 <= |mem|
    ensures |r| == |mem|
    ensures forall i :: 0 <= i < |mem| && (i < o || o + 4 <= i) ==> r[i] == mem[i]
  {
    mem[o := ByteOf(v, 0)][o + 1 := ByteOf(v, 1)][o + 2 := ByteOf(v, 2)][o + 3 := ByteOf(v, 3)]
  }

  /** Reading back a written word gives the value written. */
  lemma ReadWrittenWord(mem: seq<bv8>, o: nat, v: bv32)
    requires o + 4 <= |mem|
    ensures ReadWord(WriteWord(mem, o, v), o) == v
  {
    WordOfBytes(v);
  }

  /** A word that does not overlap the written one reads the same as before. */
  lemma ReadOtherWord(mem: seq<bv8>, o: nat, v: bv32, o': nat)
    requires o + 4 <= |mem| && o' + 4 <= |mem|
    requires o' + 4 <= o || o + 4 <= o'
    ensures ReadWord(WriteWord(mem, o, v), o') == ReadWord(mem, o')
  {
    var r := WriteWord(mem, o, v);
    assert r[o'] == mem[o'] && r[o' + 1] == mem[o' + 1] && r[o' + 2] == mem[o' + 2] && r[o' + 3] == mem[o' + 3];
  }

  /** Unsigned 32-bit subtraction, as C computes `a - b` on UInt32. */
  function Sub32(a: u32, b: u32): (r: u32)
    ensures a >= b ==> r == a - b
    ensures a < b ==> r == a - b + TWO32
  {
    (a - b) % TWO32
  }

  /**
   * The safety check of ReadRegister/WriteRegister exactly as written:
   * `fRadeonRegs == NULL || offset >= fRadeonSize - 4` rejects, with the
   * subtraction done in UInt32.
   */
  predicate AcceptsAsWritten(mapped: bool, size: u32, offset: u32)
  {
    mapped && offset < Sub32(size, 4)
  }

  /**
   * The check as evidently intended: the word at `offset` lies inside the
   * mapped block. Like the code, it still rejects the last word at size-4.
   */
  predicate Accessible(mapped: bool, size: u32, offset: u32)
  {
    mapped && size >= 4 && offset < size - 4
  }

  /** The checks agree on every block of at least 4 bytes, and an accepted word lies inside the block. */
  lemma AccessibleAgreesAsWritten(mapped: bool, size: u32, offset: u32)
    ensures size >= 4 ==> (Accessible(mapped, size, offset) <==> AcceptsAsWritten(mapped, size, offset))
    ensures Accessible(mapped, size, offset) ==> offset + 4 < size
    ensures Accessible(mapped, size, offset) ==> AcceptsAsWritten(mapped, size, offset)
  {
  }

  /**
   * The check as written lets through an offset past the end of a mapped
   * block shorter than 4 bytes: size 0 makes `size - 4` wrap to 0xfffffffc.
   */
  lemma AsWrittenOverrunsShortBlock()
    ensures AcceptsAsWritten(true, 0, 0) && 0 + 4 > 0
    ensures AcceptsAsWritten(true, 3, 0xfffffff0) && !Accessible(true, 3, 0xfffffff0)
  {
  }

  /** The block as the register layer sees it: mapped or not, its bytes and the size the driver recorded. */
  predicate WellFormed(mapped: bool, mem: seq<bv8>, size: u32)
  {
    mapped ==> size <= |mem|
  }

  /** ReadRegister: the word at `offset`, or 0 when the access is refused. */
  function Peek(mapped: bool, mem: seq<bv8>, size: u32, offset: u32): (v: bv32)
    requires WellFormed(mapped, mem, size)
    ensures !Accessible(mapped, size, offset) ==> v == 0
  {
    if Accessible(mapped, size, offset) then ReadWord(mem, offset) else 0
  }

  /** WriteRegister: the block after the write, unchanged when the access is refused. */
  function Poke(mapped: bool, mem: seq<bv8>, size: u32, offset: u32, value: bv32): (r: seq<bv8>)
    requires WellFormed(mapped, mem, size)
    ensures |r| == |mem|
    ensures !Accessible(mapped, size, offset) ==> r == mem
    ensures forall i :: 0 <= i < |mem| && (i < offset || offset + 4 <= i) ==> r[i] == mem[i]
  {
    if Accessible(mapped, size, offset) then WriteWord(mem, offset, value) else mem
  }

  /** Writing a register and reading it back gives the value written, if the offset is accessible. */
  lemma PokeThenPeek(mapped: bool, mem: seq<bv8>, size: u32, offset: u32, value: bv32)
    requires WellFormed(mapped, mem, size)
    ensures Peek(mapped, Poke(mapped, mem, size, offset, value), size, offset)
         == if Accessible(mapped, size, offset) then value else 0
  {
    if Accessible(mapped, size, offset) {
      ReadWrittenWord(mem, offset, value);
    }
  }

  /** A write leaves every register that does not overlap it unchanged. */
  lemma PokeFrame(mapped: bool, mem: seq<bv8>, size: u32, offset: u32, value: bv32, other: u32)
    requires WellFormed(mapped, mem, size)
    requires other + 4 <= offset || offset + 4 <= other
    ensures Peek(mapped, Poke(mapped, mem, size, offset, value), size, other) == Peek(mapped, mem, size, other)
  {
    if Accessible(mapped, size, offset) && Accessible(mapped, size, other) {
      ReadOtherWord(mem, offset, value, other);
    }
  }

  /** On an unmapped block every read is 0 and every write changes nothing. */
  lemma UnmappedIsInert(mem: seq<bv8>, size: u32, offset: u32, value: bv32)
    ensures Peek(false, mem, size, offset) == 0
    ensures Poke(false, mem, size, offset, value) == mem
  {
  }

  /** A second write to the same register replaces the first. */
  lemma PokeOverwrite(mapped: bool, mem: seq<bv8>, size: u32, offset: u32, a: bv32, b: bv32)
    requires WellFormed(mapped, mem, size)
    ensures Poke(mapped, Poke(mapped, mem, size, offset, a), size, offset, b) == Poke(mapped, mem, size, offset, b)
  {
    if Accessible(mapped, size, offset) {
      var r1 := Poke(mapped, Poke(mapped, mem, size, offset, a), size, offset, b);
      var r2 := Poke(mapped, mem, size, offset, b);
      assert forall i :: 0 <= i < |mem| ==> r1[i] == r2[i];
    }
  }

  /** Writing back the value a register holds changes nothing. */
  lemma PokeSame(mapped: bool, mem: seq<bv8>, size: u32, offset: u32)
    requires WellFormed(mapped, mem, size)
    ensures Poke(mapped, mem, size, offset, Peek(mapped, mem, size, offset)) == mem
  {
    if Accessible(mapped, size, offset) {
      BytesOfWord(mem[offset], mem[offset + 1], mem[offset + 2], mem[offset + 3]);
      var r := Poke(mapped, mem, size, offset, Peek(mapped, mem, size, offset));
      assert forall i :: 0 <= i < |mem| ==> r[i] == mem[i];
    }
  }
}
