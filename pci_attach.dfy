/*
 * What start() of the kernel driver decides about a PCI graphics device,
 * as values: which Base Address Register holds the MMIO registers, which
 * memory ranges are candidates for the Radeon register block, and whether
 * the driver attaches.
 */
module PciAttach {

  /** PCI vendor ID of NVIDIA (configuration offset 0, section 6.2.1 of the PCI Local Bus Specification 3.0). */
  const PCI_VENDOR_ID_NVIDIA: int := 0x10de

  /** Configuration-space offsets of Base Address Registers 0 and 2 (section 6.2.5 of the PCI Local Bus Specification 3.0). */
  const kIOPCIConfigBaseAddress0: int := 0x10
  const kIOPCIConfigBaseAddress2: int := 0x18

  /** Smallest and largest length of a memory range that may be the Radeon register block. */
  const MIN_REGISTER_BLOCK: nat := 0x1000
  const MAX_REGISTER_BLOCK: nat := 0x10000

  datatype DeviceType = kPsychUnknown | kPsychGeForce | kPsychRadeon

  /** A physical memory range the device decodes. */
  datatype MemRange = MemRange(physAddr: nat, length: nat)

  /**
   * The PCI provider as start() sees it: the 16-bit vendor ID, its memory
   * ranges in index order, the range behind each Base Address Register that
   * has one, and the bytes a mapping of a BAR exposes, for each BAR whose
   * mapping succeeds.
   */
  datatype PciDevice = PciDevice(
    vendorId: nat,
    memoryRanges: seq<MemRange>,
    barRanges: map<int, MemRange>,
    mappable: map<int, seq<bv8>>)

  /** A range whose length lies in the size class of the control-register aperture. */
  predicate IsRegisterCandidate(r: MemRange)
  {
    MIN_REGISTER_BLOCK <= r.length <= MAX_REGISTER_BLOCK
  }

  /** The candidate ranges, in index order. */
  function Candidates(rs: seq<MemRange>): (cs: seq<MemRange>)
    ensures |cs| <= |rs|
  {
    if rs == [] then []
    else Candidates(rs[..|rs| - 1]) + (if IsRegisterCandidate(rs[|rs| - 1]) then [rs[|rs| - 1]] else [])
  }

  /** The candidates are exactly the ranges in the size class: nothing is invented and nothing is missed. */
  lemma {:induction false} CandidatesMembership(rs: seq<MemRange>)
    ensures forall c :: c in Candidates(rs) ==> c in rs && IsRegisterCandidate(c)
    ensures forall r :: r in rs && IsRegisterCandidate(r) ==> r in Candidates(rs)
  {
    if rs != [] {
      var init := rs[..|rs| - 1];
      CandidatesMembership(init);
      assert rs == init + [rs[|rs| - 1]];
    }
  }

  /** NVIDIA keeps its registers behind BAR 0; every other vendor is treated as a Radeon with registers behind BAR 2. */
  function TypeFor(vendorId: nat): (t: DeviceType)
    ensures t != kPsychUnknown
    ensures t == kPsychGeForce <==> vendorId == PCI_VENDOR_ID_NVIDIA
  {
    if vendorId == PCI_VENDOR_ID_NVIDIA then kPsychGeForce else kPsychRadeon
  }

  function BarFor(vendorId: nat): (bar: int)
    ensures bar == kIOPCIConfigBaseAddress0 <==> vendorId == PCI_VENDOR_ID_NVIDIA
    ensures bar == kIOPCIConfigBaseAddress0 || bar == kIOPCIConfigBaseAddress2
  {
    if vendorId == PCI_VENDOR_ID_NVIDIA then kIOPCIConfigBaseAddress0 else kIOPCIConfigBaseAddress2
  }

  /**
   * The Radeon cross-check: exactly one candidate range, and the range the
   * BAR resolves to has the same address and length. A GeForce is not probed.
   */
  predicate ProbePasses(dev: PciDevice): (ok: bool)
    ensures dev.vendorId == PCI_VENDOR_ID_NVIDIA ==> ok
    ensures ok && dev.vendorId != PCI_VENDOR_ID_NVIDIA ==>
              var cs := Candidates(dev.memoryRanges);
              |cs| == 1 && cs[0] in dev.memoryRanges && IsRegisterCandidate(cs[0]) &&
              kIOPCIConfigBaseAddress2 in dev.barRanges &&
              dev.barRanges[kIOPCIConfigBaseAddress2].physAddr == cs[0].physAddr &&
              dev.barRanges[kIOPCIConfigBaseAddress2].length == cs[0].length
  {
    CandidatesMembership(dev.memoryRanges);
    var cs := Candidates(dev.memoryRanges);
    var bar := BarFor(dev.vendorId);
    TypeFor(dev.vendorId) == kPsychGeForce ||
    (|cs| == 1 && bar in dev.barRanges &&
     cs[0].physAddr == dev.barRanges[bar].physAddr && cs[0].length == dev.barRanges[bar].length)
  }

  /** start() keeps the device and maps its registers iff the probe passes and the BAR can be mapped. */
  predicate Attaches(dev: PciDevice): (ok: bool)
    ensures ok && dev.vendorId == PCI_VENDOR_ID_NVIDIA ==> kIOPCIConfigBaseAddress0 in dev.mappable
    ensures ok && dev.vendorId != PCI_VENDOR_ID_NVIDIA ==>
              kIOPCIConfigBaseAddress2 in dev.mappable && |Candidates(dev.memoryRanges)| == 1
  {
    ProbePasses(dev) && BarFor(dev.vendorId) in dev.mappable
  }

  /** Filtering one more range appends it exactly when it is a candidate. */
  lemma {:induction false} CandidatesAppend(rs: seq<MemRange>, r: MemRange)
    ensures Candidates(rs + [r]) == Candidates(rs) + (if IsRegisterCandidate(r) then [r] else [])
  {
    assert (rs + [r])[..|rs + [r]| - 1] == rs;
  }

  /** Exactly one range in the size window, matching the BAR range, and a BAR that maps: a Radeon attaches. */
  lemma {:induction false} RadeonWithOneCandidateAttaches(dev: PciDevice, pre: seq<MemRange>, c: MemRange, post: seq<MemRange>)
    requires dev.vendorId != PCI_VENDOR_ID_NVIDIA
    requires dev.memoryRanges == pre + [c] + post
    requires IsRegisterCandidate(c)
    requires forall r :: r in pre + post ==> !IsRegisterCandidate(r)
    requires kIOPCIConfigBaseAddress2 in dev.barRanges && dev.barRanges[kIOPCIConfigBaseAddress2] == c
    requires kIOPCIConfigBaseAddress2 in dev.mappable
    ensures Attaches(dev)
  {
    NoCandidates(pre);
    NoCandidates(post);
    CandidatesAppend(pre, c);
    CandidatesConcat(pre + [c], post);
  }

  /** Two ranges in the size window make a Radeon stay unattached, whatever its BARs say. */
  lemma {:induction false} RadeonWithTwoCandidatesFails(dev: PciDevice, i: nat, j: nat)
    requires dev.vendorId != PCI_VENDOR_ID_NVIDIA
    requires i < j < |dev.memoryRanges|
    requires IsRegisterCandidate(dev.memoryRanges[i]) && IsRegisterCandidate(dev.memoryRanges[j])
    ensures !Attaches(dev)
  {
    CandidatesCountTwo(dev.memoryRanges, i, j);
  }

  /** A Radeon with no range in the size window stays unattached. */
  lemma RadeonWithNoCandidateFails(dev: PciDevice)
    requires dev.vendorId != PCI_VENDOR_ID_NVIDIA
    requires forall r :: r in dev.memoryRanges ==> !IsRegisterCandidate(r)
    ensures !Attaches(dev)
  {
    NoCandidates(dev.memoryRanges);
  }

  /** A GeForce attaches exactly when BAR 0 maps; its memory ranges are not examined. */
  lemma GeForceSkipsProbe(dev: PciDevice)
    requires dev.vendorId == PCI_VENDOR_ID_NVIDIA
    ensures Attaches(dev) <==> kIOPCIConfigBaseAddress0 in dev.mappable
  {
  }

  lemma {:induction false} NoCandidates(rs: seq<MemRange>)
    requires forall r :: r in rs ==> !IsRegisterCandidate(r)
    ensures Candidates(rs) == []
  {
    if rs != [] {
      NoCandidates(rs[..|rs| - 1]);
    }
  }

  lemma {:induction false} CandidatesConcat(rs: seq<MemRange>, ts: seq<MemRange>)
    ensures Candidates(rs + ts) == Candidates(rs) + Candidates(ts)
    decreases |ts|
  {
    if ts == [] {
      assert rs + ts == rs;
    } else {
      var init := ts[..|ts| - 1];
      var last := ts[|ts| - 1];
      assert rs + ts == (rs + init) + [last];
      assert ts == init + [last];
      CandidatesAppend(rs + init, last);
      CandidatesAppend(init, last);
      CandidatesConcat(rs, init);
    }
  }

  lemma {:induction false} CandidatesCountTwo(rs: seq<MemRange>, i: nat, j: nat)
    requires i < j < |rs|
    requires IsRegisterCandidate(rs[i]) && IsRegisterCandidate(rs[j])
    ensures |Candidates(rs)| >= 2
  {
    var a, b, c := rs[..i], rs[i..j], rs[j..];
    assert rs == a + b + c;
    assert rs[i] in b;
    assert rs[j] in c;
    CandidatesMembership(b);
    CandidatesMembership(c);
    CandidatesConcat(a + b, c);
    CandidatesConcat(a, b);
  }
}
