/*
 * The command dispatcher of moglcore, the MEX interface of MOGL: a
 * command string is looked up by binary search in up to three command
 * maps (glm when it is built in, then the hand-written and the generated
 * OpenGL wrappers), and the first hit runs. GLEW is initialised once,
 * before the first OpenGL wrapper runs.
 *
 * A command map is the sequence of its command strings; the handlers
 * themselves, GLEW and MATLAB are outside the model (the outcome of
 * glewInit is a parameter).
 */
module MoglCore {

  import opened BeamPosition

  /** The length of the command buffer, terminating NUL included. */
  const CMDLEN: nat := 64

  /** The iteration cap of the binary search. */
  const MAX_PROBES: nat := 100

  /**
   * The C library's strcmp on NUL-free strings, reduced to its sign:
   * negative when `a` sorts before `b`, zero when they are equal.
   */
  function StrCmp(a: string, b: string): (r: int)
    ensures -1 <= r <= 1
  {
    if a == [] then (if b == [] then 0 else -1)
    else if b == [] then 1
    else if a[0] < b[0] then -1
    else if a[0] > b[0] then 1
    else StrCmp(a[1..], b[1..])
  }

  /** strcmp reports equality exactly for equal strings. */
  lemma {:induction false} StrCmpZeroIffEqual(a: string, b: string)
    ensures StrCmp(a, b) == 0 <==> a == b
  {
    if a != [] && b != [] && a[0] == b[0] {
      StrCmpZeroIffEqual(a[1..], b[1..]);
      assert a == [a[0]] + a[1..];
      assert b == [b[0]] + b[1..];
    }
  }

  /** Swapping the arguments flips the sign. */
  lemma {:induction false} StrCmpFlip(a: string, b: string)
    ensures StrCmp(b, a) == -StrCmp(a, b)
  {
    if a != [] && b != [] && a[0] == b[0] {
      StrCmpFlip(a[1..], b[1..]);
    }
  }

  /** The order strcmp induces is transitive. */
  lemma {:induction false} StrCmpTransitive(a: string, b: string, c: string)
    requires StrCmp(a, b) < 0 && StrCmp(b, c) < 0
    ensures StrCmp(a, c) < 0
  {
    if a != [] && b != [] && c != [] && a[0] == b[0] && b[0] == c[0] {
      StrCmpTransitive(a[1..], b[1..], c[1..]);
    }
  }

  /** A command map whose entries ascend strictly in strcmp order. */
  predicate StrictlySorted(map': seq<string>)
  {
    forall i, j :: 0 <= i < j < |map'| ==> StrCmp(map'[i], map'[j]) < 0
  }

  /**
   * The binary search over the entries `m` to `n` of a map, after `count`
   * probes: the index it settles on, or -1 when the range empties or the
   * probe budget runs out first.
   */
  function SearchFrom(map': seq<string>, m: int, n: int, str: string, count: nat): (r: int)
    requires 0 <= m && n < |map'| && count <= MAX_PROBES
    ensures r == -1 || (m <= r <= n && map'[r] == str)
    decreases MAX_PROBES - count
  {
    if m <= n && count < MAX_PROBES then
      var i := (m + n) / 2;
      var k := StrCmp(str, map'[i]);
      StrCmpZeroIffEqual(str, map'[i]);
      if k == 0 then i
      else if k < 0 then SearchFrom(map', m, i - 1, str, count + 1)
      else SearchFrom(map', i + 1, n, str, count + 1)
    else -1
  }

  /**
   * On a strictly sorted map whose range is small enough for the probes
   * left, the search fails only when no entry in the range equals `str`
   * (that it never fails on such an entry's absence is SearchFrom's own
   * contract).
   */
  lemma {:induction false} SearchFromComplete(map': seq<string>, m: int, n: int, str: string, count: nat)
    requires 0 <= m && n < |map'| && count <= MAX_PROBES
    requires StrictlySorted(map')
    requires n - m + 1 < Pow2(MAX_PROBES - count)
    ensures SearchFrom(map', m, n, str, count) == -1 ==> forall j :: m <= j <= n ==> map'[j] != str
    decreases MAX_PROBES - count
  {
    if m <= n {
      assert count < MAX_PROBES;
      var i := (m + n) / 2;
      var k := StrCmp(str, map'[i]);
      assert Pow2(MAX_PROBES - count) == 2 * Pow2(MAX_PROBES - count - 1);
      HalvesFit(m, n, Pow2(MAX_PROBES - count - 1));
      if k < 0 {
        SearchFromComplete(map', m, i - 1, str, count + 1);
        AbsentAbove(map', i, str);
      } else if k > 0 {
        SearchFromComplete(map', i + 1, n, str, count + 1);
        AbsentBelow(map', i, str);
      }
    }
  }

  /** In a sorted map, an entry that `str` sorts before rules out that entry and every later one. */
  lemma AbsentAbove(map': seq<string>, i: int, str: string)
    requires StrictlySorted(map') && 0 <= i < |map'|
    requires StrCmp(str, map'[i]) < 0
    ensures forall j :: i <= j < |map'| ==> map'[j] != str
  {
    forall j | i <= j < |map'|
      ensures map'[j] != str
    {
      if j > i {
        StrCmpTransitive(str, map'[i], map'[j]);
      }
      StrCmpZeroIffEqual(str, map'[j]);
    }
  }

  /** In a sorted map, an entry that `str` sorts after rules out that entry and every earlier one. */
  lemma AbsentBelow(map': seq<string>, i: int, str: string)
    requires StrictlySorted(map') && 0 <= i < |map'|
    requires StrCmp(str, map'[i]) > 0
    ensures forall j :: 0 <= j <= i ==> map'[j] != str
  {
    forall j | 0 <= j <= i
      ensures map'[j] != str
    {
      StrCmpFlip(str, map'[i]);
      if j < i {
        StrCmpTransitive(map'[j], map'[i], str);
      }
      StrCmpZeroIffEqual(map'[j], str);
    }
  }

  /** Both halves left by a probe at the midpoint fit a budget half as large. */
  lemma HalvesFit(m: int, n: int, half: nat)
    requires m <= n && n - m + 1 < 2 * half
    ensures (m + n) / 2 - m < half && n - (m + n) / 2 < half
  {
  }

  /**
   * binsearch: probe the middle of the remaining range, at most 100
   * times, and return the index of an entry equal to `str` or -1.
   */
  method BinSearch(map': seq<string>, mapsize: int, str: string) returns (r: int, ghost probes: nat)
    requires mapsize <= |map'|
    ensures r == SearchFrom(map', 0, mapsize - 1, str, 0)
    ensures mapsize == |map'| ==> r == Lookup(map', str)
    ensures mapsize <= 0 ==> r == -1 && probes == 0
    ensures probes <= MAX_PROBES
  {
    var m, n, count := 0, mapsize - 1, 0;
    ghost var target := SearchFrom(map', 0, mapsize - 1, str, 0);
    while m <= n && count < MAX_PROBES
      invariant 0 <= m && n < |map'| && count <= MAX_PROBES
      invariant n <= mapsize - 1 && (count == 0 || mapsize > 0)
      invariant SearchFrom(map', m, n, str, count) == target
      decreases MAX_PROBES - count
    {
      var hit, i, m', n' := Probe(map', m, n, str, count);
      count := count + 1;
      if hit {
        SearchIsLookup(map', str);
        return i, count;
      }
      m, n := m', n';
    }
    SearchIsLookup(map', str);
    return -1, count;
  }

  /** One probe of binsearch: compare with the middle entry, and either hit it or keep the half that can still hold `str`. */
  method Probe(map': seq<string>, m: int, n: int, str: string, count: nat) returns (hit: bool, i: int, m': int, n': int)
    requires 0 <= m <= n < |map'| && count < MAX_PROBES
    ensures m <= i <= n
    ensures hit ==> SearchFrom(map', m, n, str, count) == i
    ensures !hit ==> 0 <= m' && n' < |map'| && n' <= n &&
                     SearchFrom(map', m, n, str, count) == SearchFrom(map', m', n', str, count + 1)
  {
    i := (m + n) / 2;
    var k := StrCmp(str, map'[i]);
    SearchStep(map', m, n, str, count);
    hit, m', n' := k == 0, m, n;
    if k < 0 {
      n' := i - 1;
    } else if k > 0 {
      m' := i + 1;
    }
  }

  /** One probe of the search: a hit ends it, otherwise it goes on in the half that can still hold `str`. */
  lemma SearchStep(map': seq<string>, m: int, n: int, str: string, count: nat)
    requires 0 <= m <= n < |map'| && count < MAX_PROBES
    ensures var i := (m + n) / 2;
            var k := StrCmp(str, map'[i]);
            SearchFrom(map', m, n, str, count) ==
              if k == 0 then i
              else if k < 0 then SearchFrom(map', m, i - 1, str, count + 1)
              else SearchFrom(map', i + 1, n, str, count + 1)
  {
  }

  /** On a strictly sorted map of fewer than 2^100 entries, binsearch misses exactly the absent commands. */
  lemma BinSearchComplete(map': seq<string>, str: string)
    requires StrictlySorted(map')
    requires |map'| < Pow2(MAX_PROBES)
    ensures SearchFrom(map', 0, |map'| - 1, str, 0) == -1 <==> str !in map'
  {
    SearchFromComplete(map', 0, |map'| - 1, str, 0);
  }

  /** The command as mxGetString leaves it in the 64-byte buffer: at most 63 characters. */
  function CommandString(arg: string): (c: string)
    ensures |c| < CMDLEN
    ensures c <= arg
    ensures |arg| < CMDLEN ==> c == arg
  {
    if |arg| < CMDLEN then arg else arg[..CMDLEN - 1]
  }

  /** Where a call of moglcore ends. */
  datatype MapName = GlmMap | ManualMap | AutoMap
  datatype Outcome =
    | Preinit                          // "PREINIT": return before any lookup
    | Ran(which: MapName, index: nat)  // the handler at `index` of the map ran
    | GlewFailed                       // GLEW initialisation failed; nothing ran
    | UsageError                       // no string command, or no map knows it

  datatype Option<T> = None | Some(value: T)

  /** The search result for a whole map. */
  function Lookup(map': seq<string>, cmd: string): (r: int)
    ensures r == -1 || (0 <= r < |map'| && map'[r] == cmd)
  {
    SearchFrom(map', 0, |map'| - 1, cmd, 0)
  }

  /** A search over a whole map is its lookup. */
  lemma SearchIsLookup(map': seq<string>, str: string)
    ensures Lookup(map', str) == SearchFrom(map', 0, |map'| - 1, str, 0)
  {
  }

  class MoglCore {
    /** Set until GLEW has been initialised successfully. */
    var firsttime: bool
    /** The glm command map, when glm is built in. */
    const glmMap: Option<seq<string>>
    const manualMap: seq<string>
    const autoMap: seq<string>

    constructor (glm: Option<seq<string>>, manual: seq<string>, auto: seq<string>)
      ensures firsttime
      ensures glmMap == glm && manualMap == manual && autoMap == auto
    {
      glmMap := glm;
      manualMap := manual;
      autoMap := auto;
      firsttime := true;
    }

    /**
     * mexFunction: `arg` is the first argument when it is a string.
     * "PREINIT" returns at once; a glm command runs without GLEW; any
     * other command first needs GLEW (tried while `firsttime` is set, with
     * outcome `glewInitOk`) and then runs from the manual map, else from
     * the auto map, else is a usage error.
     */
    method MexFunction(arg: Option<string>, glewInitOk: bool) returns (outcome: Outcome)
      modifies this`firsttime
      ensures arg.None? ==> outcome == UsageError && firsttime == old(firsttime)
      ensures arg.Some? && CommandString(arg.value) == "PREINIT" ==> outcome == Preinit && firsttime == old(firsttime)
      ensures arg.Some? && CommandString(arg.value) != "PREINIT" ==>
                var cmd := CommandString(arg.value);
                if glmMap.Some? && Lookup(glmMap.value, cmd) >= 0 then
                  outcome == Ran(GlmMap, Lookup(glmMap.value, cmd)) && firsttime == old(firsttime)
                else if old(firsttime) && !glewInitOk then
                  outcome == GlewFailed && firsttime
                else
                  !firsttime &&
                  outcome == (if Lookup(manualMap, cmd) >= 0 then Ran(ManualMap, Lookup(manualMap, cmd))
                              else if Lookup(autoMap, cmd) >= 0 then Ran(AutoMap, Lookup(autoMap, cmd))
                              else UsageError)
      ensures outcome.Ran? ==> outcome.index < |MapOf(outcome.which)| &&
                               arg.Some? && MapOf(outcome.which)[outcome.index] == CommandString(arg.value)
    {
      if arg.None? {
        return UsageError;
      }
      var cmd := CommandString(arg.value);
      if cmd == "PREINIT" {
        return Preinit;
      }
      if glmMap.Some? {
        var i, _ := BinSearch(glmMap.value, |glmMap.value|, cmd);
        if i >= 0 {
          return Ran(GlmMap, i);
        }
      }
      if firsttime {
        if !glewInitOk {
          return GlewFailed;
        }
        firsttime := false;
      }
      var i, _ := BinSearch(manualMap, |manualMap|, cmd);
      if i >= 0 {
        return Ran(ManualMap, i);
      }
      var j, _ := BinSearch(autoMap, |autoMap|, cmd);
      if j >= 0 {
        return Ran(AutoMap, j);
      }
      outcome := UsageError;
    }

    function MapOf(which: MapName): (m: seq<string>)
      ensures which == GlmMap ==> m == (if glmMap.Some? then glmMap.value else [])
    {
      match which
      case GlmMap => if glmMap.Some? then glmMap.value else []
      case ManualMap => manualMap
      case AutoMap => autoMap
    }
  }

  /**
   * With strictly sorted maps of fewer than 2^100 entries, a command that
   * reaches the usage error after GLEW is ready is in neither OpenGL map,
   * and one in the manual map always runs from there.
   */
  lemma DispatchOrder(manual: seq<string>, auto: seq<string>, cmd: string)
    requires StrictlySorted(manual) && |manual| < Pow2(MAX_PROBES)
    requires StrictlySorted(auto) && |auto| < Pow2(MAX_PROBES)
    ensures Lookup(manual, cmd) == -1 && Lookup(auto, cmd) == -1 <==> cmd !in manual && cmd !in auto
    ensures cmd in manual ==> Lookup(manual, cmd) >= 0
  {
    BinSearchComplete(manual, cmd);
    BinSearchComplete(auto, cmd);
  }
}
