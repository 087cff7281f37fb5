/*
 * Beam-position arithmetic and the bit logic of the display-head resync of
 * the kernel driver, as values.
 */
module BeamPosition {

  import opened RegisterBlock

  /** Width of the vertical beam-position fields of the CRTC registers. */
  const RADEON_VBEAMPOSITION_BITMASK: bv32 := 0x1fff

  /** The scanline both wait loops of the resync compare against. */
  const MIDLINE: int := 240

  const TWO31: int := 0x8000_0000

  /** `(SInt32) v`: the two's-complement reading of a 32-bit word. */
  function Signed(v: bv32): (r: int)
    ensures -TWO31 <= r < TWO31
    ensures r >= 0 ==> r == v as int
    ensures r < 0 ==> r == v as int - TWO32
  {
    if v as int < TWO31 then v as int else v as int - TWO32
  }

  /** A sum computed in SInt32, wrapping around as the hardware does. */
  function WrapSigned(x: int): (r: int)
    ensures -TWO31 <= r < TWO31
    ensures -TWO31 <= x < TWO31 ==> r == x
    ensures -TWO32 - TWO31 <= x < -TWO31 ==> r == x + TWO32
  {
    var m := x % TWO32;
    if m < TWO31 then m else m - TWO32
  }

  /** The raw scan position, masked to the beam-position width. */
  function RawLine(pos: bv32): (r: int)
    ensures 0 <= r <= 0x1fff
  {
    (pos & RADEON_VBEAMPOSITION_BITMASK) as int
  }

  /** The scanline at which vertical blank ends: bits 16 and up of V_BLANK_START_END, masked. */
  function BlankEnd(vblank: bv32): (r: int)
    ensures 0 <= r <= 0x1fff
  {
    ((vblank >> 16) & RADEON_VBEAMPOSITION_BITMASK) as int
  }

  /**
   * GetBeamPosition from the three register values it reads: the raw
   * position minus the end of vertical blank; a negative difference has
   * V_TOTAL added (in SInt32); a result still negative becomes 0.
   */
  function BeamFrom(pos: bv32, vblank: bv32, vtotal: bv32): (r: int)
    ensures 0 <= r < TWO31
    ensures RawLine(pos) >= BlankEnd(vblank) ==> r == RawLine(pos) - BlankEnd(vblank)
    ensures (RawLine(pos) < BlankEnd(vblank) && Signed(vtotal) >= BlankEnd(vblank) - RawLine(pos))
              ==> r == Signed(vtotal) + RawLine(pos) - BlankEnd(vblank)
  {
    var d := RawLine(pos) - BlankEnd(vblank);
    if d >= 0 then d
    else
      var w := WrapSigned(Signed(vtotal) + d);
      if w < 0 then 0 else w
  }

  /**
   * A negative difference that V_TOTAL does not lift to zero or above is
   * capped at 0.
   */
  lemma BeamClampedToZero(pos: bv32, vblank: bv32, vtotal: bv32)
    requires RawLine(pos) < BlankEnd(vblank)
    requires -TWO31 <= Signed(vtotal) + RawLine(pos) - BlankEnd(vblank) < 0
    ensures BeamFrom(pos, vblank, vtotal) == 0
  {
  }

  /**
   * A difference whose SInt32 sum with V_TOTAL falls below the 32-bit range
   * wraps around by 2^32 to a positive word, as two's-complement addition
   * does.
   */
  lemma BeamWrapsAround(pos: bv32, vblank: bv32, vtotal: bv32)
    requires Signed(vtotal) + RawLine(pos) - BlankEnd(vblank) < -TWO31
    ensures BeamFrom(pos, vblank, vtotal) == Signed(vtotal) + RawLine(pos) - BlankEnd(vblank) + TWO32
  {
  }

  /**
   * On a consistent display timing (raw position and blank end both below
   * V_TOTAL, V_TOTAL positive as a signed word) the beam position is a
   * scanline in [0, V_TOTAL).
   */
  lemma BeamWithinFrame(pos: bv32, vblank: bv32, vtotal: bv32)
    requires 0 < Signed(vtotal)
    requires RawLine(pos) < Signed(vtotal) && BlankEnd(vblank) < Signed(vtotal)
    ensures 0 <= BeamFrom(pos, vblank, vtotal) < Signed(vtotal)
  {
  }

  /** A raw position 500 with blank end 40 and a 900-line frame is scanline 460. */
  lemma BeamExample()
    ensures BeamFrom(500, 40 << 16, 900) == 460
    ensures BeamFrom(10, 40 << 16, 900) == 870
  {
    assert RawLine(500) == 500;
    assert BlankEnd(40 << 16) == 40;
    assert RawLine(10) == 10;
  }

  /** 2 to the power k. */
  function Pow2(k: nat): (p: nat)
    ensures p >= 1
  {
    if k == 0 then 1 else 2 * Pow2(k - 1)
  }

  /** Index of the lowest set bit of a positive number. */
  function LowestSetBit(v: nat): (k: nat)
    requires v > 0
    ensures k < v
  {
    if v % 2 == 1 then 0 else 1 + LowestSetBit(v / 2)
  }

  /** What is left of a positive number once its trailing zero bits are shifted out. */
  function OddPart(v: nat): (o: nat)
    requires v > 0
  {
    if v % 2 == 1 then v else OddPart(v / 2)
  }

  /**
   * The lowest set bit is set and every bit below it is clear: v is an odd
   * number times 2^LowestSetBit(v).
   */
  lemma {:induction false} LowestSetBitIsLowest(v: nat)
    requires v > 0
    ensures OddPart(v) % 2 == 1
    ensures v == OddPart(v) * Pow2(LowestSetBit(v))
  {
    if v % 2 == 0 {
      var u := v / 2;
      LowestSetBitIsLowest(u);
      var o, p := OddPart(u), Pow2(LowestSetBit(u));
      calc {
        v;
        2 * u;
        2 * (o * p);
        { MulAssocSwap(o, p); }
        o * (2 * p);
      }
    }
  }

  lemma MulAssocSwap(o: nat, p: nat)
    ensures 2 * (o * p) == o * (2 * p)
  {
  }

  /** The 1-based index of the lowest set bit that G80DispCommand computes, 0 for zero. */
  function SuperStage(v: nat): (s: nat)
    ensures v == 0 <==> s == 0
    ensures s <= v
  {
    if v == 0 then 0 else LowestSetBit(v) + 1
  }

  /** Bit i of the CRTC master-enable word: display head i is running. */
  function HeadBit(i: nat): (b: bv32)
    requires i < 2
  {
    if i == 0 then 1 else 2
  }

  /** The master-enable word `orig` with the bits of heads 0 .. n-1 cleared. */
  function Remaining(orig: bv32, n: nat): (w: bv32)
    requires n <= 2
  {
    if n == 0 then orig else if n == 1 then orig & !1 else orig & !3
  }

  /**
   * The clearing writes FastSynchronizeAllDisplayHeads makes to the
   * master-enable register for heads 0 .. n-1, given the word it read
   * first: for each head that was enabled in that word, the current word
   * with that head's bit cleared too.
   */
  function ClearWrites(orig: bv32, n: nat): (ws: seq<bv32>)
    requires n <= 2
    ensures |ws| <= n
  {
    var head0 := if n >= 1 && orig & HeadBit(0) != 0 then [Remaining(orig, 1)] else [];
    var head1 := if n == 2 && orig & HeadBit(1) != 0 then [Remaining(orig, 2)] else [];
    head0 + head1
  }

  /** Every word the resync writes: the clearing writes for both heads, then the original word. */
  function ResyncWrites(orig: bv32): (ws: seq<bv32>)
    ensures |ws| >= 1
  {
    ClearWrites(orig, 2) + [orig]
  }

  /** Clearing head i's bit in the word left by the earlier heads leaves the bits of heads 0 .. i cleared. */
  lemma ClearNextHead(orig: bv32, i: nat, cur: bv32)
    requires i < 2
    requires cur == Remaining(orig, i)
    ensures cur & !HeadBit(i) == Remaining(orig, i + 1)
  {
    if i == 1 {
      ClearHead1(orig);
    }
  }

  /** When head i was off in the original word, the word the earlier heads left is already the one for 0 .. i. */
  lemma SkipHead(orig: bv32, i: nat)
    requires i < 2
    requires orig & HeadBit(i) == 0
    ensures Remaining(orig, i) == Remaining(orig, i + 1)
  {
    if i == 0 {
      ClearHead0(orig);
    } else {
      SkipHead1(orig);
    }
  }

  lemma ClearHead0(orig: bv32)
    requires orig & 1 == 0
    ensures orig == orig & !1
  {
  }

  lemma ClearHead1(orig: bv32)
    ensures (orig & !1) & !2 == orig & !3
  {
  }

  lemma SkipHead1(orig: bv32)
    requires orig & 2 == 0
    ensures orig & !1 == orig & !3
  {
  }

  /** The clearing writes grow head by head. */
  lemma ClearWritesStep(orig: bv32, i: nat)
    requires i < 2
    ensures ClearWrites(orig, i + 1)
         == ClearWrites(orig, i) + (if orig & HeadBit(i) != 0 then [Remaining(orig, i + 1)] else [])
    ensures ClearWrites(orig, i) <= ClearWrites(orig, 2)
  {
    if i == 0 {
      assert ClearWrites(orig, 0) == [];
    } else {
      assert ClearWrites(orig, 2) == ClearWrites(orig, 1) + (if orig & HeadBit(1) != 0 then [Remaining(orig, 2)] else []);
    }
  }

  /**
   * The resync restores the original word last; it writes once per running
   * head; a clearing write never sets a bit, always differs from the
   * original and only clears head-enable bits.
   */
  lemma ResyncWritesRestore(orig: bv32)
    ensures ResyncWrites(orig)[|ResyncWrites(orig)| - 1] == orig
    ensures |ResyncWrites(orig)| == 1 + (if orig & 1 != 0 then 1 else 0) + (if orig & 2 != 0 then 1 else 0)
    ensures forall w :: w in ClearWrites(orig, 2) ==> w & !orig == 0 && w != orig && (orig & !w) & !3 == 0
  {
  }

  /**
   * The wait of the resync for head i: samples are the successive beam
   * positions; the first loop waits for a sample above the midline, the
   * second for the next one at or below it. Some(n): the wait ended after
   * consuming n samples; None: the samples ran out first.
   */
  ghost predicate WaitEndsAt(beams: seq<int>, n: nat)
  {
    exists m :: WaitRisesFalls(beams, m, n)
  }

  /** The first sample above the midline is sample m, and sample n-1 is the first one after it at or below. */
  predicate WaitRisesFalls(beams: seq<int>, m: nat, n: nat)
  {
    m < n - 1 && n <= |beams| && beams[n - 1] <= MIDLINE && beams[m] > MIDLINE &&
    (forall j :: 0 <= j < m ==> beams[j] <= MIDLINE) &&
    (forall j :: m < j < n - 1 ==> beams[j] > MIDLINE)
  }

  /** A wait ends at most at one place. */
  lemma WaitEndUnique(beams: seq<int>, n1: nat, n2: nat)
    requires WaitEndsAt(beams, n1) && WaitEndsAt(beams, n2)
    ensures n1 == n2
  {
    var m1 :| WaitRisesFalls(beams, m1, n1);
    var m2 :| WaitRisesFalls(beams, m2, n2);
    assert m1 == m2;
  }

  /** The two-phase wait ends within the samples. */
  ghost predicate WaitCompletes(beams: seq<int>)
  {
    exists n :: WaitEndsAt(beams, n)
  }

  /** Samples that never rise above the midline never end the wait. */
  lemma {:induction false} WaitNeverRises(beams: seq<int>)
    requires forall j :: 0 <= j < |beams| ==> beams[j] <= MIDLINE
    ensures !WaitCompletes(beams)
  {
    if n: nat :| WaitEndsAt(beams, n) {
      assert false;
    }
  }

  /** Samples that rise above the midline at m and stay there never end the wait. */
  lemma {:induction false} WaitNeverFalls(beams: seq<int>, m: nat)
    requires m < |beams| && beams[m] > MIDLINE
    requires forall j :: 0 <= j < m ==> beams[j] <= MIDLINE
    requires forall j :: m < j < |beams| ==> beams[j] > MIDLINE
    ensures !WaitCompletes(beams)
  {
    if n: nat :| WaitEndsAt(beams, n) {
      assert false;
    }
  }
}
