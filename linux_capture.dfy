/*
 * The Linux (libdc1394, IEEE-1394) video-capture layer of Screen: a bank
 * of ten device records with a count of the open ones, the colour-coding
 * and pixel-depth rules used when a capture mode is chosen, and the
 * isochronous packet-size computation for Format-7 modes.
 *
 * The camera library is outside the model: what dc1394_find_cameras
 * reports is a parameter, a camera is its index in that report, and the
 * floating-point frame-rate arithmetic that yields the packet count is
 * replaced by the packet count itself. A call that ends in
 * PsychErrorExitMsg returns the error and leaves the bank as it was at
 * that point.
 */
module LinuxCapture {

  import CaptureBank

  datatype Option<T> = None | Some(value: T)

  /** The size of the record bank, as this file defines it. */
  const PSYCH_MAX_CAPTUREDEVICES: nat := 10

  /** The ring-buffer count used when the caller does not choose one. */
  const DEFAULT_DMA_BUFFERS: int := 8

  /** Bounds of the IIDC isochronous packet count per frame. */
  const MIN_PACKETS: int := 1
  const MAX_PACKETS: int := 4095

  /** A PsychRectType: left, top, right, bottom. */
  datatype Rect = Rect(left: real, top: real, right: real, bottom: real)

  /** The "don't care" region of interest. */
  const DONT_CARE_ROI: Rect := Rect(0.0, 0.0, 1.0, 1.0)

  /** The fields of a device record that the slot bank and the open call maintain. */
  datatype PsychVidcapRecord = PsychVidcapRecord(
    valid: bool,
    camera: Option<nat>,
    grabberActive: bool,
    roirect: Rect,
    reqpixeldepth: int,
    numDmabuffers: int,
    allowNondmaFallback: int,
    fps: real,
    width: int,
    height: int,
    nrframes: int)

  /** A zero-filled record, as the static bank holds it before anything is opened. */
  const ZERO_RECORD: PsychVidcapRecord := PsychVidcapRecord(false, None, false, Rect(0.0, 0.0, 0.0, 0.0), 0, 0, 0, 0.0, 0, 0, 0)

  datatype VidcapError =
    | NotOnscreenWindow
    | InvalidDeviceIndex          // an index below -1: an internal error
    | TooManyDevices
    | NoFreeSlot
    | CameraDetectionFailed
    | NoCamera
    | NoSuchCamera
    | NegativeHandle
    | HandleBeyondDevices
    | NoSuchDevice

  /** Which records of the bank are valid. */
  function Validity(bank: seq<PsychVidcapRecord>): (s: seq<bool>)
    ensures |s| == |bank|
    ensures forall i :: 0 <= i < |bank| ==> s[i] == bank[i].valid
  {
    seq(|bank|, i requires 0 <= i < |bank| => bank[i].valid)
  }

  /** Replacing one record changes only that record's validity. */
  lemma ValidityUpdate(bank: seq<PsychVidcapRecord>, i: nat, r: PsychVidcapRecord)
    requires i < |bank|
    ensures Validity(bank[i := r]) == Validity(bank)[i := r.valid]
  {
    var after, expected := Validity(bank[i := r]), Validity(bank)[i := r.valid];
    forall j | 0 <= j < |bank|
      ensures after[j] == expected[j]
    {
      if j != i {
        assert bank[i := r][j] == bank[j];
      }
    }
  }

  /** What PsychGetVidcapRecord does with an index: hand out the record, raise an error, or read past the bank. */
  datatype RecordCheck = Accepted | Rejected(error: VidcapError) | ReadsPastBank

  /**
   * PsychGetVidcapRecord as written: after the sign test, the range test
   * looks at the number of open devices instead of the index, and the
   * validity test then indexes the bank with whatever index it was given.
   */
  function GetVidcapRecordAsWritten(valid: seq<bool>, numCaptureRecords: int, deviceIndex: int): (r: RecordCheck)
    requires |valid| == PSYCH_MAX_CAPTUREDEVICES
    ensures r == Accepted ==> 0 <= deviceIndex < |valid| && valid[deviceIndex] && numCaptureRecords < PSYCH_MAX_CAPTUREDEVICES
  {
    if deviceIndex < 0 then Rejected(NegativeHandle)
    else if numCaptureRecords >= PSYCH_MAX_CAPTUREDEVICES then Rejected(HandleBeyondDevices)
    else if deviceIndex >= |valid| then ReadsPastBank
    else if !valid[deviceIndex] then Rejected(NoSuchDevice)
    else Accepted
  }

  /** As written, the index one past the bank gets through both tests while fewer than ten devices are open. */
  lemma AsWrittenReadsPastBank(valid: seq<bool>, numCaptureRecords: int)
    requires |valid| == PSYCH_MAX_CAPTUREDEVICES
    requires numCaptureRecords < PSYCH_MAX_CAPTUREDEVICES
    ensures GetVidcapRecordAsWritten(valid, numCaptureRecords, PSYCH_MAX_CAPTUREDEVICES) == ReadsPastBank
  {
  }

  /** As written, once ten devices are open every handle is refused, the open ones included. */
  lemma AsWrittenRefusesOpenHandles(valid: seq<bool>, deviceIndex: int)
    requires |valid| == PSYCH_MAX_CAPTUREDEVICES
    requires 0 <= deviceIndex < |valid| && valid[deviceIndex]
    ensures GetVidcapRecordAsWritten(valid, PSYCH_MAX_CAPTUREDEVICES, deviceIndex) == Rejected(HandleBeyondDevices)
  {
  }

  /** PsychGetVidcapRecord as evidently intended: the index, not the count, is tested against the bank size. */
  function GetVidcapRecord(valid: seq<bool>, deviceIndex: int): (r: RecordCheck)
    requires |valid| == PSYCH_MAX_CAPTUREDEVICES
    ensures r == Accepted <==> 0 <= deviceIndex < |valid| && valid[deviceIndex]
    ensures r != ReadsPastBank
  {
    if deviceIndex < 0 then Rejected(NegativeHandle)
    else if deviceIndex >= PSYCH_MAX_CAPTUREDEVICES then Rejected(HandleBeyondDevices)
    else if !valid[deviceIndex] then Rejected(NoSuchDevice)
    else Accepted
  }

  /** The two checks agree on every index inside the bank while the bank is not full. */
  lemma GetVidcapRecordAgreesBelowCapacity(valid: seq<bool>, numCaptureRecords: int, deviceIndex: int)
    requires |valid| == PSYCH_MAX_CAPTUREDEVICES
    requires numCaptureRecords < PSYCH_MAX_CAPTUREDEVICES && deviceIndex < PSYCH_MAX_CAPTUREDEVICES
    ensures GetVidcapRecordAsWritten(valid, numCaptureRecords, deviceIndex) == GetVidcapRecord(valid, deviceIndex)
  {
  }

  /** libdc1394 colour codings; the ones the mode search cares about, and every other one. */
  datatype ColorCoding = COLOR_CODING_MONO8 | COLOR_CODING_RAW8 | COLOR_CODING_RGB8 | OtherCoding(code: int)

  /**
   * The colour-coding filter of the mode searches: a requested depth of
   * one or two layers takes RAW8 or MONO8, three or more takes RGB8, and
   * no request (zero or less) takes any of the three.
   */
  predicate ColorCodingAccepted(reqpixeldepth: int, colorCode: ColorCoding): (ok: bool)
    ensures ok ==> !colorCode.OtherCoding?
    ensures reqpixeldepth > 2 ==> (ok <==> colorCode == COLOR_CODING_RGB8)
    ensures 0 < reqpixeldepth <= 2 ==> (ok <==> colorCode in {COLOR_CODING_RAW8, COLOR_CODING_MONO8})
    ensures reqpixeldepth <= 0 ==> (ok <==> colorCode in {COLOR_CODING_RGB8, COLOR_CODING_RAW8, COLOR_CODING_MONO8})
    ensures ok && reqpixeldepth > 0 ==> NativeDepth(colorCode) == (if reqpixeldepth > 2 then 24 else 8)
  {
    if reqpixeldepth > 0 then
      !(reqpixeldepth < 3 && colorCode != COLOR_CODING_RAW8 && colorCode != COLOR_CODING_MONO8) &&
      !(reqpixeldepth > 2 && colorCode != COLOR_CODING_RGB8)
    else
      colorCode == COLOR_CODING_RGB8 || colorCode == COLOR_CODING_RAW8 || colorCode == COLOR_CODING_MONO8
  }

  /** The bits per pixel the capture engine delivers for a colour coding. */
  function NativeDepth(colorCode: ColorCoding): (d: int)
    ensures d == 8 || d == 24
    ensures d == 24 <==> colorCode == COLOR_CODING_RGB8
  {
    if colorCode == COLOR_CODING_RGB8 then 24 else 8
  }

  /**
   * The requested depth after the mode is chosen: no request and any
   * request of one to four layers become the native depth of the chosen
   * coding; anything else is an error (None).
   */
  function FinalPixelDepth(reqpixeldepth: int, colorCode: ColorCoding): (r: Option<int>)
    ensures r.Some? <==> 0 <= reqpixeldepth <= 4
    ensures r.Some? ==> r.value == NativeDepth(colorCode)
  {
    if reqpixeldepth == 0 then Some(NativeDepth(colorCode))
    else if 1 <= reqpixeldepth <= 4 then Some(NativeDepth(colorCode))
    else None
  }

  /**
   * Only the three supported codings pass the filter, and a coding that
   * passes for a request of one to four layers delivers 8 bits per pixel
   * for luminance requests and 24 for colour requests.
   */
  lemma AcceptedCodingMatchesRequest(reqpixeldepth: int, colorCode: ColorCoding)
    requires ColorCodingAccepted(reqpixeldepth, colorCode)
    ensures colorCode in {COLOR_CODING_MONO8, COLOR_CODING_RAW8, COLOR_CODING_RGB8}
    ensures 1 <= reqpixeldepth <= 2 ==> FinalPixelDepth(reqpixeldepth, colorCode) == Some(8)
    ensures 3 <= reqpixeldepth <= 4 ==> FinalPixelDepth(reqpixeldepth, colorCode) == Some(24)
  {
  }

  /** The packet count clamped to the IIDC range and scaled by eight. */
  function ClampPackets(numPackets: int): (r: int)
    ensures 8 * MIN_PACKETS <= r <= 8 * MAX_PACKETS && r % 8 == 0
    ensures MIN_PACKETS <= numPackets <= MAX_PACKETS ==> r == 8 * numPackets
    ensures numPackets < MIN_PACKETS ==> r == 8 * MIN_PACKETS
    ensures numPackets > MAX_PACKETS ==> r == 8 * MAX_PACKETS
  {
    if numPackets < MIN_PACKETS then 8 * MIN_PACKETS
    else if numPackets > MAX_PACKETS then 8 * MAX_PACKETS
    else 8 * numPackets
  }

  /** The smallest packet size the camera reports, where 0 stands for the largest. */
  function EffectiveMinPacket(pbmin: nat, pbmax: nat): nat
  {
    if pbmin == 0 then pbmax else pbmin
  }

  /**
   * The packet-size computation of PsychVideoFindFormat7Mode for an image
   * of `w` by `h` pixels of `depth` bits: split the image over the clamped
   * packet count, rounding up; raise the size to the smallest packet size
   * and round it down to a multiple of it; then step down by that size
   * while it exceeds the largest packet size.
   */
  method PacketSize(w: nat, h: nat, depth: nat, numPackets: int, pbmin0: nat, pbmax: nat) returns (packetSize: int)
    requires pbmin0 > 0 || pbmax > 0
    ensures var pbmin := EffectiveMinPacket(pbmin0, pbmax);
            var n := ClampPackets(numPackets);
            var q := if (w * h * depth + n - 1) / n < pbmin then pbmin else (w * h * depth + n - 1) / n;
            packetSize == if q - q % pbmin <= pbmax then q - q % pbmin else pbmax - pbmax % pbmin
    ensures packetSize % EffectiveMinPacket(pbmin0, pbmax) == 0 && 0 <= packetSize <= pbmax
    ensures EffectiveMinPacket(pbmin0, pbmax) <= pbmax ==> packetSize >= EffectiveMinPacket(pbmin0, pbmax)
  {
    var pbmin := pbmin0;
    if pbmin == 0 {
      pbmin := pbmax;
    }
    var n := ClampPackets(numPackets);
    packetSize := (w * h * depth + n - 1) / n;
    if packetSize < pbmin {
      packetSize := pbmin;
    }
    if packetSize % pbmin != 0 {
      packetSize := packetSize - packetSize % pbmin;
    }
    RoundDown(if (w * h * depth + n - 1) / n < pbmin then pbmin else (w * h * depth + n - 1) / n, pbmin);
    if pbmin <= pbmax {
      RoundDown(pbmax, pbmin);
    }
    packetSize := StepDown(packetSize, pbmin, pbmax);
  }

  /**
   * The closing loop of the packet-size computation: a multiple of the
   * smallest packet size is lowered by that size until it fits under the
   * largest, which leaves it alone when it already fits and otherwise
   * yields the top multiple that fits.
   */
  method StepDown(p: int, pbmin: nat, pbmax: nat) returns (packetSize: int)
    requires pbmin > 0 && p >= 0 && p % pbmin == 0
    ensures packetSize == if p <= pbmax then p else pbmax - pbmax % pbmin
    ensures packetSize % pbmin == 0 && 0 <= packetSize <= pbmax
  {
    packetSize := p;
    ghost var k := p / pbmin;
    MultipleOf(p, pbmin);
    while packetSize > pbmax
      invariant packetSize == k * pbmin && k >= 0
      invariant packetSize < p ==> k >= pbmax / pbmin && p > pbmax
      invariant packetSize <= p
      decreases packetSize
    {
      StepKeepsAbove(k, pbmin, pbmax);
      packetSize := packetSize - pbmin;
      k := k - 1;
    }
    if packetSize < p {
      TopMultiple(k, pbmin, pbmax);
      assert packetSize == pbmax - pbmax % pbmin;
    } else {
      assert p <= pbmax;
    }
    MulMod(k, pbmin);
  }

  /** A number whose remainder by `m` is zero is `m` times its quotient. */
  lemma MultipleOf(p: int, m: nat)
    requires m > 0 && p % m == 0
    ensures p == (p / m) * m
  {
  }

  /** Multiples of `m` leave no remainder. */
  lemma MulMod(k: int, m: nat)
    requires m > 0
    ensures (k * m) % m == 0
  {
    var q, r := (k * m) / m, (k * m) % m;
    assert k * m == q * m + r;
    assert (k - q) * m == r;
    MulSign(k - q, m);
  }

  /** Rounding a value of at least `m` down to a multiple of `m` keeps it at least `m`. */
  lemma RoundDown(p: int, m: nat)
    requires m > 0 && p >= m
    ensures (p - p % m) % m == 0 && p - p % m >= m
  {
    var q := p / m;
    assert p - p % m == q * m;
    MulMod(q, m);
    MulSign(q - 1, m);
    assert (q - 1) * m == q * m - m;
  }

  /** The sign of `a * m` for positive `m`: zero, negative and positive products come from zero, negative and positive `a`. */
  lemma MulSign(a: int, m: nat)
    requires m > 0
    ensures a <= 0 ==> a * m <= 0
    ensures a >= 0 ==> a * m >= 0
    ensures a * m < m && a * m + m > 0 ==> a == 0
  {
  }

  /** A multiple of `m` above `n` is at least one step above the top multiple of `m` not above `n`. */
  lemma StepKeepsAbove(k: int, m: nat, n: nat)
    requires m > 0 && k * m > n
    ensures k - 1 >= n / m
  {
    var q := n / m;
    assert q * m <= n;
    assert (k - q) * m == k * m - q * m;
    MulSign(k - q, m);
  }

  /** The multiple of `m` that is at most `n` but not below the top multiple is that top multiple. */
  lemma TopMultiple(k: int, m: nat, n: nat)
    requires m > 0 && k * m <= n && k >= n / m
    ensures k * m == n - n % m
  {
    var q := n / m;
    assert n - n % m == q * m;
    assert (k - q) * m == k * m - q * m;
    assert (k - q) * m <= n % m < m;
    MulSign(k - q, m);
  }

  class VidcapBank {
    var vidcapRecordBANK: array<PsychVidcapRecord>
    var numCaptureRecords: int
    var firsttime: bool

    /** The count is the number of valid records. */
    ghost predicate Valid()
      reads this, vidcapRecordBANK
    {
      vidcapRecordBANK.Length == PSYCH_MAX_CAPTUREDEVICES &&
      numCaptureRecords == CaptureBank.CountOpen(Validity(vidcapRecordBANK[..]))
    }

    /** The statics at load time: zero-filled records (all invalid), no devices, a cold start pending. */
    constructor ()
      ensures Valid()
      ensures forall i :: 0 <= i < vidcapRecordBANK.Length ==> vidcapRecordBANK[i] == ZERO_RECORD
      ensures numCaptureRecords == 0 && firsttime
    {
      vidcapRecordBANK := new PsychVidcapRecord[PSYCH_MAX_CAPTUREDEVICES](_ => ZERO_RECORD);
      numCaptureRecords := 0;
      firsttime := true;
      new;
      CaptureBank.CountOpenEmpty(Validity(vidcapRecordBANK[..]));
    }

    /** PsychVideoCaptureInit: every record invalid, no open device. */
    method PsychVideoCaptureInit()
      requires vidcapRecordBANK.Length == PSYCH_MAX_CAPTUREDEVICES
      modifies this`numCaptureRecords, vidcapRecordBANK
      ensures Valid()
      ensures forall i :: 0 <= i < vidcapRecordBANK.Length ==>
                vidcapRecordBANK[i] == old(vidcapRecordBANK[i]).(valid := false)
      ensures numCaptureRecords == 0
    {
      for i := 0 to PSYCH_MAX_CAPTUREDEVICES
        invariant forall j :: 0 <= j < i ==> vidcapRecordBANK[j] == old(vidcapRecordBANK[j]).(valid := false)
        invariant forall j :: i <= j < vidcapRecordBANK.Length ==> vidcapRecordBANK[j] == old(vidcapRecordBANK[j])
      {
        vidcapRecordBANK[i] := vidcapRecordBANK[i].(valid := false);
      }
      numCaptureRecords := 0;
      CaptureBank.CountOpenEmpty(Validity(vidcapRecordBANK[..]));
    }

    /** The first-free-slot scan: the lowest invalid index, or the bank size when every record is valid. */
    method FindFreeSlot() returns (slot: nat)
      requires Valid()
      ensures slot <= PSYCH_MAX_CAPTUREDEVICES
      ensures forall j :: 0 <= j < slot ==> vidcapRecordBANK[j].valid
      ensures slot < PSYCH_MAX_CAPTUREDEVICES ==> !vidcapRecordBANK[slot].valid
    {
      slot := 0;
      while slot < PSYCH_MAX_CAPTUREDEVICES && vidcapRecordBANK[slot].valid
        invariant slot <= PSYCH_MAX_CAPTUREDEVICES
        invariant forall j :: 0 <= j < slot ==> vidcapRecordBANK[j].valid
      {
        slot := slot + 1;
      }
    }

    /**
     * PsychOpenVideoCaptureDevice: clear the cold-start flag; check the
     * window, the device index (-1 means the first camera) and the device
     * count; claim the lowest free record; look for cameras
     * (`numCameras`, None when the search fails) and pick one. Each camera
     * failure gives the record back. On success the record is set up, its
     * index is the handle, and the count goes up by one.
     */
    method PsychOpenVideoCaptureDevice(isOnscreen: bool, deviceIndex: int, capturerectangle: Option<Rect>,
                                       reqdepth: int, num_dmabuffers: int, allow_lowperf_fallback: int,
                                       numCameras: Option<nat>)
      returns (ok: bool, capturehandle: int, err: Option<VidcapError>)
      requires Valid()
      modifies this`numCaptureRecords, this`firsttime, vidcapRecordBANK
      ensures Valid()
      ensures !firsttime
      ensures ok <==> err.None?
      ensures err.Some? ==> capturehandle == -1 && numCaptureRecords == old(numCaptureRecords) &&
                            Validity(vidcapRecordBANK[..]) == old(Validity(vidcapRecordBANK[..]))
      ensures !isOnscreen ==> err == Some(NotOnscreenWindow)
      ensures isOnscreen && deviceIndex < -1 ==> err == Some(InvalidDeviceIndex)
      ensures isOnscreen && deviceIndex >= -1 && old(numCaptureRecords) >= PSYCH_MAX_CAPTUREDEVICES ==>
                err == Some(TooManyDevices)
      ensures err != Some(NoFreeSlot)
      ensures err in {Some(NotOnscreenWindow), Some(InvalidDeviceIndex), Some(TooManyDevices)} ==>
                unchanged(vidcapRecordBANK)
      ensures err in {Some(CameraDetectionFailed), Some(NoCamera), Some(NoSuchCamera)} ==>
                exists s :: 0 <= s < PSYCH_MAX_CAPTUREDEVICES &&
                  !old(vidcapRecordBANK[s].valid) &&
                  (forall j :: 0 <= j < s ==> old(vidcapRecordBANK[j].valid)) &&
                  vidcapRecordBANK[..] == old(vidcapRecordBANK[..])[s :=
                    old(vidcapRecordBANK[s]).(camera := None, grabberActive := false)]
      ensures isOnscreen && deviceIndex >= -1 && old(numCaptureRecords) < PSYCH_MAX_CAPTUREDEVICES ==>
                err == (if numCameras.None? then Some(CameraDetectionFailed)
                        else if numCameras.value < 1 then Some(NoCamera)
                        else if deviceIndex >= numCameras.value then Some(NoSuchCamera)
                        else None)
      ensures ok ==>
                0 <= capturehandle < PSYCH_MAX_CAPTUREDEVICES &&
                !old(vidcapRecordBANK[capturehandle].valid) &&
                (forall j :: 0 <= j < capturehandle ==> old(vidcapRecordBANK[j].valid)) &&
                vidcapRecordBANK[..] == old(vidcapRecordBANK[..])[capturehandle :=
                  old(vidcapRecordBANK[capturehandle]).(
                    valid := true,
                    camera := Some(if deviceIndex == -1 then 0 else deviceIndex),
                    grabberActive := false,
                    roirect := if capturerectangle.Some? then capturerectangle.value else DONT_CARE_ROI,
                    fps := 0.0, width := 0, height := 0,
                    reqpixeldepth := reqdepth,
                    numDmabuffers := if num_dmabuffers > 0 then num_dmabuffers else DEFAULT_DMA_BUFFERS,
                    allowNondmaFallback := allow_lowperf_fallback,
                    nrframes := 0)] &&
                numCaptureRecords == old(numCaptureRecords) + 1
    {
      capturehandle := -1;
      firsttime := false;
      if !isOnscreen {
        return false, capturehandle, Some(NotOnscreenWindow);
      }
      if deviceIndex < -1 {
        return false, capturehandle, Some(InvalidDeviceIndex);
      }
      if numCaptureRecords >= PSYCH_MAX_CAPTUREDEVICES {
        return false, capturehandle, Some(TooManyDevices);
      }
      var slotid := FindFreeSlot();
      if slotid >= PSYCH_MAX_CAPTUREDEVICES {
        CaptureBank.FreeSlotExists(Validity(vidcapRecordBANK[..]));
        assert false;
      }
      ghost var validity0 := Validity(vidcapRecordBANK[..]);
      var capdev := vidcapRecordBANK[slotid].(valid := true, camera := None, grabberActive := false);
      var failure := CameraFailure(deviceIndex, numCameras);
      if failure.Some? {
        ValidityUpdate(vidcapRecordBANK[..], slotid, capdev.(valid := false));
        vidcapRecordBANK[slotid] := capdev.(valid := false);
        assert Validity(vidcapRecordBANK[..]) == validity0;
        assert capdev.(valid := false) == old(vidcapRecordBANK[slotid]).(camera := None, grabberActive := false);
        return false, capturehandle, failure;
      }
      capdev := capdev.(
        camera := Some(if deviceIndex == -1 then 0 else deviceIndex),
        roirect := if capturerectangle.Some? then capturerectangle.value else DONT_CARE_ROI,
        fps := 0.0, width := 0, height := 0,
        reqpixeldepth := reqdepth,
        numDmabuffers := if num_dmabuffers > 0 then num_dmabuffers else DEFAULT_DMA_BUFFERS,
        allowNondmaFallback := allow_lowperf_fallback,
        nrframes := 0, grabberActive := false);
      ValidityUpdate(vidcapRecordBANK[..], slotid, capdev);
      CaptureBank.CountOpenUpdate(validity0, slotid, true);
      vidcapRecordBANK[slotid] := capdev;
      capturehandle := slotid;
      numCaptureRecords := numCaptureRecords + 1;
      ok, err := true, None;
    }

    /** The camera checks of the open call, in order: the search itself, an empty bus, an index past the cameras found. */
    static method CameraFailure(deviceIndex: int, numCameras: Option<nat>) returns (failure: Option<VidcapError>)
      requires deviceIndex >= -1
      ensures failure == (if numCameras.None? then Some(CameraDetectionFailed)
                          else if numCameras.value < 1 then Some(NoCamera)
                          else if deviceIndex >= numCameras.value then Some(NoSuchCamera)
                          else None)
    {
      if numCameras.None? {
        return Some(CameraDetectionFailed);
      }
      if numCameras.value < 1 {
        return Some(NoCamera);
      }
      if deviceIndex != -1 && deviceIndex >= numCameras.value {
        return Some(NoSuchCamera);
      }
      failure := None;
    }

    /**
     * PsychCloseVideoCaptureDevice: look the handle up, stop the grabber
     * (which also zeroes the frame count), drop the camera, invalidate the record and count one device less,
     * never going below zero.
     */
    method PsychCloseVideoCaptureDevice(capturehandle: int) returns (err: Option<VidcapError>)
      requires Valid()
      modifies this`numCaptureRecords, vidcapRecordBANK
      ensures Valid()
      ensures var check := GetVidcapRecord(old(Validity(vidcapRecordBANK[..])), capturehandle);
              check.Rejected? ==> err == Some(check.error) && unchanged(this) && unchanged(vidcapRecordBANK)
      ensures 0 <= capturehandle < PSYCH_MAX_CAPTUREDEVICES && old(vidcapRecordBANK[capturehandle].valid) ==>
                err.None? &&
                vidcapRecordBANK[..] == old(vidcapRecordBANK[..])[capturehandle :=
                  old(vidcapRecordBANK[capturehandle]).(valid := false, camera := None, grabberActive := false, nrframes := 0)] &&
                numCaptureRecords == old(numCaptureRecords) - 1
    {
      var check := GetVidcapRecord(Validity(vidcapRecordBANK[..]), capturehandle);
      if check.Rejected? {
        return Some(check.error);
      }
      var capdev := vidcapRecordBANK[capturehandle].(grabberActive := false, nrframes := 0, camera := None, valid := false);
      ValidityUpdate(vidcapRecordBANK[..], capturehandle, capdev);
      CaptureBank.CountOpenUpdate(Validity(vidcapRecordBANK[..]), capturehandle, false);
      vidcapRecordBANK[capturehandle] := capdev;
      if numCaptureRecords > 0 {
        numCaptureRecords := numCaptureRecords - 1;
      }
      err := None;
    }

    /**
     * PsychDeleteAllCaptureDevices: close every valid record, lowest index
     * first; each closed record loses its camera, its grabber and its frame
     * count, and the free records stay as they were. Afterwards none is
     * valid and the count is zero.
     */
    method PsychDeleteAllCaptureDevices()
      requires Valid()
      modifies this`numCaptureRecords, vidcapRecordBANK
      ensures Valid()
      ensures forall i :: 0 <= i < PSYCH_MAX_CAPTUREDEVICES ==>
                vidcapRecordBANK[i] == if old(vidcapRecordBANK[i].valid)
                                       then old(vidcapRecordBANK[i]).(valid := false, camera := None, grabberActive := false, nrframes := 0)
                                       else old(vidcapRecordBANK[i])
      ensures forall i :: 0 <= i < vidcapRecordBANK.Length ==> !vidcapRecordBANK[i].valid
      ensures numCaptureRecords == 0
    {
      for i := 0 to PSYCH_MAX_CAPTUREDEVICES
        invariant Valid()
        invariant forall j :: 0 <= j < i ==>
                    vidcapRecordBANK[j] == if old(vidcapRecordBANK[j].valid)
                                           then old(vidcapRecordBANK[j]).(valid := false, camera := None, grabberActive := false, nrframes := 0)
                                           else old(vidcapRecordBANK[j])
        invariant forall j :: i <= j < PSYCH_MAX_CAPTUREDEVICES ==> vidcapRecordBANK[j] == old(vidcapRecordBANK[j])
        invariant forall j :: 0 <= j < i ==> !vidcapRecordBANK[j].valid
      {
        if vidcapRecordBANK[i].valid {
          var _ := PsychCloseVideoCaptureDevice(i);
        }
      }
      CaptureBank.CountOpenEmpty(Validity(vidcapRecordBANK[..]));
    }

    /** PsychExitVideoCapture: close every device as above and arm the cold-start flag. */
    method PsychExitVideoCapture()
      requires Valid()
      modifies this`numCaptureRecords, this`firsttime, vidcapRecordBANK
      ensures Valid()
      ensures forall i :: 0 <= i < PSYCH_MAX_CAPTUREDEVICES ==>
                vidcapRecordBANK[i] == if old(vidcapRecordBANK[i].valid)
                                       then old(vidcapRecordBANK[i]).(valid := false, camera := None, grabberActive := false, nrframes := 0)
                                       else old(vidcapRecordBANK[i])
      ensures forall i :: 0 <= i < vidcapRecordBANK.Length ==> !vidcapRecordBANK[i].valid
      ensures numCaptureRecords == 0 && firsttime
    {
      PsychDeleteAllCaptureDevices();
      firsttime := true;
    }
  }
}
