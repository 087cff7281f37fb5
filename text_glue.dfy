/*
 * The text-drawing glue of Screen on Windows: the default text settings
 * of a new window, and the two parallel tables that translate between the
 * names of the text drawing modes and their constants.
 */
module TextGlue {

  datatype Option<T> = None | Some(value: T)

  /* Text drawing mode constants from the Screen headers, which are not part of this model: their values are left open. */
  const kPsychTextFill: int
  const kPsychTextStroke: int
  const kPsychTextFillStroke: int
  const kPsychTextInvisible: int
  const kPsychTextFillClip: int
  const kPsychTextStrokeClip: int
  const kPsychTextFillStrokeClip: int
  const kPsychTextClip: int

  /** The number of drawing modes: the length of both tables. */
  const kPsychNumTextDrawingModes: nat := 8

  /** The largest number of characters copied into a mode-name buffer. */
  const MODE_NAME_MAX: nat := 255

  const PsychTextDrawingModeNames: seq<string> :=
    ["TextFill", "TextStroke", "TextFillStroke", "TextInvisible",
     "FillClip", "StrokeClip", "TextFillStrokeClip", "TextClip"]

  const PsychTextDrawingModes: seq<int> :=
    [kPsychTextFill, kPsychTextStroke, kPsychTextFillStroke, kPsychTextInvisible,
     kPsychTextFillClip, kPsychTextStrokeClip, kPsychTextFillStrokeClip, kPsychTextClip]

  /** The mode constants name eight different modes, as an enumeration does. */
  predicate ModesDistinct()
  {
    forall i, j :: 0 <= i < j < |PsychTextDrawingModes| ==> PsychTextDrawingModes[i] != PsychTextDrawingModes[j]
  }

  /** The first index at or after `from` where `s` holds `x`, if any. */
  function FirstIndex<T(==)>(s: seq<T>, x: T, from: nat): (r: Option<nat>)
    ensures r.Some? ==> from <= r.value < |s| && s[r.value] == x
    ensures r.Some? ==> forall j :: from <= j < r.value ==> s[j] != x
    ensures r.None? ==> forall j :: from <= j < |s| ==> s[j] != x
    decreases |s| - from
  {
    if from >= |s| then None
    else if s[from] == x then Some(from)
    else FirstIndex(s, x, from + 1)
  }

  /**
   * PsychGetTextDrawingModeNameFromTextDrawingModeConstant: the name of
   * the first table entry holding `mode`, cut to 255 characters as the
   * buffer copy does; None stands for the internal error an unknown
   * constant raises.
   */
  function ModeNameOfConstant(mode: int): (r: Option<string>)
    ensures r.None? <==> mode !in PsychTextDrawingModes
    ensures r.Some? ==> |r.value| <= MODE_NAME_MAX
    ensures r.Some? ==> exists i :: 0 <= i < kPsychNumTextDrawingModes &&
                                   PsychTextDrawingModes[i] == mode && r.value == PsychTextDrawingModeNames[i] &&
                                   forall j :: 0 <= j < i ==> PsychTextDrawingModes[j] != mode
  {
    match FirstIndex(PsychTextDrawingModes, mode, 0)
    case None => None
    case Some(i) =>
      var name := PsychTextDrawingModeNames[i];
      Some(if |name| <= MODE_NAME_MAX then name else name[..MODE_NAME_MAX])
  }

  /**
   * PsychGetTextDrawingModeConstantFromTextDrawingModeName: the constant
   * beside the first table entry named `name`; None stands for the TRUE
   * (error) result, which leaves the caller's mode as it was.
   */
  function ModeConstantOfName(name: string): (r: Option<int>)
    ensures r.None? <==> name !in PsychTextDrawingModeNames
    ensures r.Some? ==> exists i :: 0 <= i < kPsychNumTextDrawingModes &&
                                   PsychTextDrawingModeNames[i] == name && r.value == PsychTextDrawingModes[i] &&
                                   forall j :: 0 <= j < i ==> PsychTextDrawingModeNames[j] != name
  {
    match FirstIndex(PsychTextDrawingModeNames, name, 0)
    case None => None
    case Some(i) => Some(PsychTextDrawingModes[i])
  }

  /** No two drawing modes share a name. */
  lemma NamesDistinct()
    ensures forall i, j :: 0 <= i < j < |PsychTextDrawingModeNames| ==>
              PsychTextDrawingModeNames[i] != PsychTextDrawingModeNames[j]
  {
  }

  /** Every name leads to a constant whose name is that name again, when the constants are distinct. */
  lemma NameRoundTrip(i: nat)
    requires ModesDistinct()
    requires i < kPsychNumTextDrawingModes
    ensures ModeConstantOfName(PsychTextDrawingModeNames[i]) == Some(PsychTextDrawingModes[i])
    ensures ModeNameOfConstant(PsychTextDrawingModes[i]) == Some(PsychTextDrawingModeNames[i])
  {
    NamesDistinct();
    var name := PsychTextDrawingModeNames[i];
    var k := FirstIndex(PsychTextDrawingModeNames, name, 0);
    assert k == Some(i);
    var m := FirstIndex(PsychTextDrawingModes, PsychTextDrawingModes[i], 0);
    assert m == Some(i);
  }

  /** Every known constant leads to a name that leads back to it, whether or not the constants are distinct. */
  lemma ConstantRoundTrip(mode: int)
    requires mode in PsychTextDrawingModes
    ensures ModeNameOfConstant(mode).Some?
    ensures ModeConstantOfName(ModeNameOfConstant(mode).value) == Some(mode)
  {
    NamesDistinct();
    var i :| FirstIndex(PsychTextDrawingModes, mode, 0) == Some(i);
    var name := PsychTextDrawingModeNames[i];
    assert FirstIndex(PsychTextDrawingModeNames, name, 0) == Some(i);
  }

  /** A colour as PsychLoadColorStruct leaves it for an index colour. */
  datatype PsychColor = IndexColor(index: int)

  /** The text settings of a window. */
  class PsychTextAttributes {
    var textMode: int
    var textPositionX: int
    var textPositionY: int
    var textSize: int
    var textStyle: int
    var textFontName: string
    var textFontNumber: int
    var textColor: PsychColor
    var textBackgroundColor: PsychColor
    var DisplayList: nat
    var needsRebuild: bool

    /**
     * PsychInitTextRecordSettings: fill mode at the origin, 18-point bold
     * "Courier New" with font number 0, index colour 0 in front and behind,
     * and no display list yet, so that the first DrawText builds one.
     */
    method PsychInitTextRecordSettings()
      modifies this
      ensures textMode == kPsychTextFill
      ensures textPositionX == 0 && textPositionY == 0
      ensures textSize == 18 && textStyle == 1
      ensures textFontName == "Courier New" && textFontNumber == 0
      ensures textColor == IndexColor(0) && textBackgroundColor == IndexColor(0)
      ensures DisplayList == 0 && needsRebuild
    {
      textMode := kPsychTextFill;
      textPositionX := 0;
      textPositionY := 0;
      textSize := 18;
      textStyle := 1;
      textFontName := "Courier New";
      textFontNumber := 0;
      textColor := IndexColor(0);
      textBackgroundColor := IndexColor(0);
      DisplayList := 0;
      needsRebuild := true;
    }
  }
}
