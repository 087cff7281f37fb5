/*
 * The engine-independent video-capture layer of Screen: a fixed bank of
 * capture slots, each free or owned by one capture engine (Quicktime or
 * LibDC1394), with a count of the open devices. Opening takes the lowest
 * free slot, whose index becomes the capture handle; closing frees it.
 *
 * The engines themselves are outside the model: whether they are built
 * in is fixed when the bank is made, and whether an engine's own open
 * call succeeds is a parameter. A call that ends in PsychErrorExitMsg
 * returns the error and leaves the bank as it was at that point.
 */
module CaptureBank {

  datatype Option<T> = None | Some(value: T)

  /** The size of the bank, from a Screen header that is not part of this model. */
  const PSYCH_MAX_CAPTUREDEVICES: nat

  /** The engine id of a free slot. */
  const FREE: int := -1

  /** The errors the capture layer raises through PsychErrorExitMsg. */
  datatype CaptureError =
    | NotOnscreenWindow
    | NegativeDeviceIndex
    | TooManyDevices
    | NoFreeSlot
    | UnsupportedEngine
    | InvalidHandle
    | NoDeviceForHandle

  /** The number of open slots in an occupancy sequence. */
  function CountOpen(s: seq<bool>): (n: nat)
    ensures n <= |s|
  {
    if s == [] then 0 else CountOpen(s[..|s| - 1]) + (if s[|s| - 1] then 1 else 0)
  }

  /** Opening or closing one slot moves the count by one; rewriting a slot's state with the same state does not. */
  lemma {:induction false} CountOpenUpdate(s: seq<bool>, i: nat, b: bool)
    requires i < |s|
    ensures CountOpen(s[i := b]) == CountOpen(s) - (if s[i] then 1 else 0) + (if b then 1 else 0)
  {
    var t := s[i := b];
    if i < |s| - 1 {
      assert t[..|t| - 1] == s[..|s| - 1][i := b];
      CountOpenUpdate(s[..|s| - 1], i, b);
    } else {
      assert t[..|t| - 1] == s[..|s| - 1];
    }
  }

  /** The count reaches the bank size exactly when every slot is open. */
  lemma {:induction false} CountOpenFull(s: seq<bool>)
    ensures CountOpen(s) == |s| <==> forall i :: 0 <= i < |s| ==> s[i]
  {
    if s != [] {
      var init := s[..|s| - 1];
      CountOpenFull(init);
      if CountOpen(s) == |s| {
        assert forall i :: 0 <= i < |s| - 1 ==> init[i];
      }
      if forall i :: 0 <= i < |s| ==> s[i] {
        assert forall i :: 0 <= i < |init| ==> init[i] == s[i];
      }
    }
  }

  /** The count is zero exactly when every slot is free. */
  lemma {:induction false} CountOpenEmpty(s: seq<bool>)
    ensures CountOpen(s) == 0 <==> forall i :: 0 <= i < |s| ==> !s[i]
  {
    if s != [] {
      var init := s[..|s| - 1];
      CountOpenEmpty(init);
      if CountOpen(s) == 0 {
        assert forall i :: 0 <= i < |s| - 1 ==> !init[i];
      }
      if forall i :: 0 <= i < |s| ==> !s[i] {
        assert forall i :: 0 <= i < |init| ==> init[i] == s[i];
      }
    }
  }

  /** Which slots of an engine-id bank are open. */
  function Occupied(bank: seq<int>): (s: seq<bool>)
    ensures |s| == |bank|
    ensures forall i :: 0 <= i < |bank| ==> (s[i] <==> bank[i] != FREE)
  {
    seq(|bank|, i requires 0 <= i < |bank| => bank[i] != FREE)
  }

  /** Giving one slot a new engine id changes only that slot's occupancy. */
  lemma OccupiedUpdate(bank: seq<int>, i: nat, e: int)
    requires i < |bank|
    ensures Occupied(bank[i := e]) == Occupied(bank)[i := e != FREE]
  {
    var after, expected := Occupied(bank[i := e]), Occupied(bank)[i := e != FREE];
    forall j | 0 <= j < |bank|
      ensures after[j] == expected[j]
    {
      if j != i {
        assert bank[i := e][j] == bank[j];
      }
    }
  }

  /** With fewer open devices than slots, the search for a free slot cannot fail. */
  lemma FreeSlotExists(s: seq<bool>)
    requires CountOpen(s) < |s|
    ensures exists i :: 0 <= i < |s| && !s[i]
  {
    CountOpenFull(s);
  }

  /** Where a handle-taking dispatcher goes: an error, an engine, or past every engine test. */
  datatype HandleRoute = HandleRejected | ToEngine(engineId: int) | NoEngine

  /** The engine a live slot id routes to, when that engine is built in. */
  function RouteTo(engineId: int, qtBuilt: bool, libdcBuilt: bool): (r: HandleRoute)
    ensures r.ToEngine? <==> (engineId == 0 && qtBuilt) || (engineId == 1 && libdcBuilt)
    ensures r.ToEngine? ==> r.engineId == engineId
    ensures !r.HandleRejected?
  {
    if engineId == 0 && qtBuilt then ToEngine(0)
    else if engineId == 1 && libdcBuilt then ToEngine(1)
    else NoEngine
  }

  /** PsychGetTextureFromCapture's handle check: in range and open. */
  function TextureRoute(bank: seq<int>, h: int, qtBuilt: bool, libdcBuilt: bool): (r: HandleRoute)
    requires |bank| == PSYCH_MAX_CAPTUREDEVICES
    ensures r.HandleRejected? <==> !(0 <= h < |bank|) || bank[h] == FREE
  {
    if h < 0 || h >= PSYCH_MAX_CAPTUREDEVICES || bank[h] == FREE then HandleRejected
    else RouteTo(bank[h], qtBuilt, libdcBuilt)
  }

  /**
   * The handle check of PsychVideoCaptureRate and PsychVideoCaptureSetParameter
   * as written: only the range is tested, so a free slot falls past both engine
   * tests and the function ends without a return value.
   */
  function RateRouteAsWritten(bank: seq<int>, h: int, qtBuilt: bool, libdcBuilt: bool): (r: HandleRoute)
    requires |bank| == PSYCH_MAX_CAPTUREDEVICES
    ensures r.HandleRejected? <==> !(0 <= h < |bank|)
  {
    if h < 0 || h >= PSYCH_MAX_CAPTUREDEVICES then HandleRejected
    else RouteTo(bank[h], qtBuilt, libdcBuilt)
  }

  /** A closed handle passes the as-written check and reaches no engine. */
  lemma RateRouteAsWrittenAcceptsClosedHandle(bank: seq<int>, h: int, qtBuilt: bool, libdcBuilt: bool)
    requires |bank| == PSYCH_MAX_CAPTUREDEVICES
    requires 0 <= h < |bank| && bank[h] == FREE
    ensures RateRouteAsWritten(bank, h, qtBuilt, libdcBuilt) == NoEngine
  {
  }

  /** The handle check as evidently intended: the same test PsychGetTextureFromCapture makes. */
  function RateRoute(bank: seq<int>, h: int, qtBuilt: bool, libdcBuilt: bool): (r: HandleRoute)
    requires |bank| == PSYCH_MAX_CAPTUREDEVICES
    ensures r.HandleRejected? <==> !(0 <= h < |bank|) || bank[h] == FREE
  {
    TextureRoute(bank, h, qtBuilt, libdcBuilt)
  }

  /** With the intended check, a handle that is accepted always reaches its engine: the result is always defined. */
  lemma RateRouteReachesEngine(bank: seq<int>, h: int, qtBuilt: bool, libdcBuilt: bool)
    requires |bank| == PSYCH_MAX_CAPTUREDEVICES
    requires forall i :: 0 <= i < |bank| ==> bank[i] == FREE || (bank[i] == 0 && qtBuilt) || (bank[i] == 1 && libdcBuilt)
    ensures RateRoute(bank, h, qtBuilt, libdcBuilt) != NoEngine
    ensures 0 <= h < |bank| && bank[h] != FREE ==> RateRoute(bank, h, qtBuilt, libdcBuilt) == ToEngine(bank[h])
  {
  }

  class MasterVidcapBank {
    var mastervidcapRecordBANK: array<int>
    var numCaptureRecords: int
    var firsttime: bool
    /** Whether the Quicktime (engine 0) and LibDC1394 (engine 1) engines are compiled in. */
    const qtBuilt: bool
    const libdcBuilt: bool

    /** The engine id `e` names an engine that is built in. */
    predicate EngineBuilt(e: int)
    {
      (e == 0 && qtBuilt) || (e == 1 && libdcBuilt)
    }

    /** The count is the number of open slots, and every open slot belongs to a built-in engine. */
    ghost predicate Valid()
      reads this, mastervidcapRecordBANK
    {
      mastervidcapRecordBANK.Length == PSYCH_MAX_CAPTUREDEVICES &&
      numCaptureRecords == CountOpen(Occupied(mastervidcapRecordBANK[..])) &&
      (forall i :: 0 <= i < mastervidcapRecordBANK.Length ==>
         mastervidcapRecordBANK[i] == FREE || EngineBuilt(mastervidcapRecordBANK[i]))
    }

    /** The statics at load time: a zero-filled bank (not yet initialised), no devices. */
    constructor (qt: bool, libdc: bool)
      ensures qtBuilt == qt && libdcBuilt == libdc
      ensures mastervidcapRecordBANK.Length == PSYCH_MAX_CAPTUREDEVICES
      ensures forall i :: 0 <= i < mastervidcapRecordBANK.Length ==> mastervidcapRecordBANK[i] == 0
      ensures numCaptureRecords == 0 && firsttime
    {
      qtBuilt := qt;
      libdcBuilt := libdc;
      mastervidcapRecordBANK := new int[PSYCH_MAX_CAPTUREDEVICES](_ => 0);
      numCaptureRecords := 0;
      firsttime := true;
    }

    /** PsychVideoCaptureInit: every slot free, no open device. */
    method PsychVideoCaptureInit()
      requires mastervidcapRecordBANK.Length == PSYCH_MAX_CAPTUREDEVICES
      modifies this`numCaptureRecords, mastervidcapRecordBANK
      ensures Valid()
      ensures forall i :: 0 <= i < mastervidcapRecordBANK.Length ==> mastervidcapRecordBANK[i] == FREE
      ensures numCaptureRecords == 0
    {
      for i := 0 to PSYCH_MAX_CAPTUREDEVICES
        invariant forall j :: 0 <= j < i ==> mastervidcapRecordBANK[j] == FREE
      {
        mastervidcapRecordBANK[i] := FREE;
      }
      numCaptureRecords := 0;
      CountOpenEmpty(Occupied(mastervidcapRecordBANK[..]));
    }

    /** The first-free-slot scan: the lowest free index, or the bank size when every slot is open. */
    method FindFreeSlot() returns (slot: nat)
      requires Valid()
      ensures slot <= PSYCH_MAX_CAPTUREDEVICES
      ensures forall j :: 0 <= j < slot ==> mastervidcapRecordBANK[j] != FREE
      ensures slot < PSYCH_MAX_CAPTUREDEVICES ==> mastervidcapRecordBANK[slot] == FREE
    {
      slot := 0;
      while slot < PSYCH_MAX_CAPTUREDEVICES && mastervidcapRecordBANK[slot] != FREE
        invariant slot <= PSYCH_MAX_CAPTUREDEVICES
        invariant forall j :: 0 <= j < slot ==> mastervidcapRecordBANK[j] != FREE
      {
        slot := slot + 1;
      }
    }

    /**
     * PsychOpenVideoCaptureDevice: check the window, the device index and
     * the device count, take the lowest free slot and hand it to the
     * requested engine; `engineOpens` is what that engine's open call
     * returns. On success the slot records the engine, its index is the
     * handle, and the count goes up by one.
     */
    method PsychOpenVideoCaptureDevice(engineId: int, isOnscreen: bool, deviceIndex: int, engineOpens: bool)
      returns (ok: bool, capturehandle: int, err: Option<CaptureError>)
      requires Valid()
      modifies this`numCaptureRecords, mastervidcapRecordBANK
      ensures Valid()
      ensures err.Some? || !ok ==> unchanged(this) && unchanged(mastervidcapRecordBANK) && capturehandle == -1
      ensures !isOnscreen ==> err == Some(NotOnscreenWindow)
      ensures isOnscreen && deviceIndex < 0 ==> err == Some(NegativeDeviceIndex)
      ensures isOnscreen && deviceIndex >= 0 && old(numCaptureRecords) >= PSYCH_MAX_CAPTUREDEVICES ==>
                err == Some(TooManyDevices)
      ensures err != Some(NoFreeSlot)
      ensures isOnscreen && deviceIndex >= 0 && old(numCaptureRecords) < PSYCH_MAX_CAPTUREDEVICES ==>
                if !EngineBuilt(engineId) then err == Some(UnsupportedEngine)
                else err.None? && ok == engineOpens
      ensures err.None? && ok ==>
                0 <= capturehandle < PSYCH_MAX_CAPTUREDEVICES &&
                old(mastervidcapRecordBANK[capturehandle]) == FREE &&
                (forall j :: 0 <= j < capturehandle ==> old(mastervidcapRecordBANK[j]) != FREE) &&
                mastervidcapRecordBANK[..] == old(mastervidcapRecordBANK[..])[capturehandle := engineId] &&
                numCaptureRecords == old(numCaptureRecords) + 1
    {
      capturehandle := -1;
      if !isOnscreen {
        return false, capturehandle, Some(NotOnscreenWindow);
      }
      if deviceIndex < 0 {
        return false, capturehandle, Some(NegativeDeviceIndex);
      }
      if numCaptureRecords >= PSYCH_MAX_CAPTUREDEVICES {
        return false, capturehandle, Some(TooManyDevices);
      }
      var slotid := FindFreeSlot();
      if slotid >= PSYCH_MAX_CAPTUREDEVICES {
        FreeSlotExists(Occupied(mastervidcapRecordBANK[..]));
        assert false;
      }
      if !EngineBuilt(engineId) {
        return false, capturehandle, Some(UnsupportedEngine);
      }
      if !engineOpens {
        return false, capturehandle, None;
      }
      OccupiedUpdate(mastervidcapRecordBANK[..], slotid, engineId);
      CountOpenUpdate(Occupied(mastervidcapRecordBANK[..]), slotid, true);
      mastervidcapRecordBANK[slotid] := engineId;
      capturehandle := slotid;
      numCaptureRecords := numCaptureRecords + 1;
      ok, err := true, None;
    }

    /**
     * PsychCloseVideoCaptureDevice: reject a handle out of range or on a
     * free slot; otherwise free the slot and count one device less, never
     * going below zero.
     */
    method PsychCloseVideoCaptureDevice(capturehandle: int) returns (err: Option<CaptureError>)
      requires Valid()
      modifies this`numCaptureRecords, mastervidcapRecordBANK
      ensures Valid()
      ensures !(0 <= capturehandle < PSYCH_MAX_CAPTUREDEVICES) ==>
                err == Some(InvalidHandle) && unchanged(this) && unchanged(mastervidcapRecordBANK)
      ensures 0 <= capturehandle < PSYCH_MAX_CAPTUREDEVICES && old(mastervidcapRecordBANK[capturehandle]) == FREE ==>
                err == Some(NoDeviceForHandle) && unchanged(this) && unchanged(mastervidcapRecordBANK)
      ensures 0 <= capturehandle < PSYCH_MAX_CAPTUREDEVICES && old(mastervidcapRecordBANK[capturehandle]) != FREE ==>
                err.None? &&
                mastervidcapRecordBANK[..] == old(mastervidcapRecordBANK[..])[capturehandle := FREE] &&
                numCaptureRecords == old(numCaptureRecords) - 1
    {
      if capturehandle < 0 || capturehandle >= PSYCH_MAX_CAPTUREDEVICES {
        return Some(InvalidHandle);
      }
      if mastervidcapRecordBANK[capturehandle] == FREE {
        return Some(NoDeviceForHandle);
      }
      OccupiedUpdate(mastervidcapRecordBANK[..], capturehandle, FREE);
      CountOpenUpdate(Occupied(mastervidcapRecordBANK[..]), capturehandle, false);
      mastervidcapRecordBANK[capturehandle] := FREE;
      if numCaptureRecords > 0 {
        numCaptureRecords := numCaptureRecords - 1;
      }
      err := None;
    }

    /** PsychDeleteAllCaptureDevices: close every open slot; afterwards every slot is free and the count is zero. */
    method PsychDeleteAllCaptureDevices()
      requires Valid()
      modifies this`numCaptureRecords, mastervidcapRecordBANK
      ensures Valid()
      ensures forall i :: 0 <= i < mastervidcapRecordBANK.Length ==> mastervidcapRecordBANK[i] == FREE
      ensures numCaptureRecords == 0
    {
      for i := 0 to PSYCH_MAX_CAPTUREDEVICES
        invariant Valid()
        invariant forall j :: 0 <= j < i ==> mastervidcapRecordBANK[j] == FREE
      {
        if mastervidcapRecordBANK[i] != FREE {
          var _ := PsychCloseVideoCaptureDevice(i);
        }
      }
      CountOpenEmpty(Occupied(mastervidcapRecordBANK[..]));
    }

    /** PsychExitVideoCapture: close every device and arm the cold-start flag. */
    method PsychExitVideoCapture()
      requires Valid()
      modifies this`numCaptureRecords, this`firsttime, mastervidcapRecordBANK
      ensures Valid()
      ensures forall i :: 0 <= i < mastervidcapRecordBANK.Length ==> mastervidcapRecordBANK[i] == FREE
      ensures numCaptureRecords == 0 && firsttime
    {
      PsychDeleteAllCaptureDevices();
      firsttime := true;
    }
  }
}
