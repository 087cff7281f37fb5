/*
 * The subfunction registry of a Psychtoolbox module: the project's
 * initialisation registers a base function, an exit function, the module
 * name and a bounded table of named subfunctions; the dispatcher then
 * resolves a command string to the subfunction to run, remembering its
 * name and whether help was asked for.
 *
 * The file-static variables of the C source are the fields of one
 * Registry object. Function pointers are identities (NULL or a number);
 * the name comparison used by the lookup, PsychMatch, is defined outside
 * this file and is a parameter here.
 */
module Registry {

  datatype Option<T> = None | Some(value: T)

  /** A C function pointer: NULL or the identity of a function. */
  datatype FunctionPtr = NULL | Fn(id: nat)

  datatype PsychError =
    | PsychError_none
    | PsychError_internal
    | PsychError_registerLimit
    | PsychError_registered
    | PsychError_longString

  /* Capacity limits from the Psychtoolbox headers, which are not part of this model: their values are left open. */
  const PSYCH_MAX_FUNCTIONS: nat
  const PSYCH_MAX_FUNCTION_NAME_LENGTH: nat

  /** One slot of the function table; a slot never filled has the empty name. */
  datatype PsychFunctionTableEntry = Entry(name: string, func: FunctionPtr)

  /** Some slot of the table, filled or not, carries `name`. */
  predicate Listed(entries: seq<PsychFunctionTableEntry>, name: string)
  {
    exists i :: 0 <= i < |entries| && entries[i].name == name
  }

  /**
   * What PsychRegister answers to a subfunction `name`: a full table
   * first, then a name equal to any slot's name, then a name too long to
   * store. The name is compared against every slot, including the ones
   * never filled.
   */
  function SubfunctionVerdict(entries: seq<PsychFunctionTableEntry>, count: nat, name: string): (r: PsychError)
    ensures r in {PsychError_none, PsychError_registerLimit, PsychError_registered, PsychError_longString}
    ensures count == PSYCH_MAX_FUNCTIONS ==> r == PsychError_registerLimit
    ensures count != PSYCH_MAX_FUNCTIONS && Listed(entries, name) ==> r == PsychError_registered
    ensures r == PsychError_none ==>
              count != PSYCH_MAX_FUNCTIONS && !Listed(entries, name) && |name| <= PSYCH_MAX_FUNCTION_NAME_LENGTH
  {
    if count == PSYCH_MAX_FUNCTIONS then PsychError_registerLimit
    else if Listed(entries, name) then PsychError_registered
    else if |name| > PSYCH_MAX_FUNCTION_NAME_LENGTH then PsychError_longString
    else PsychError_none
  }

  /**
   * The shape registration keeps: the first `count` slots hold distinct,
   * non-empty names that fit the length limit, and every later slot has the
   * empty name.
   */
  ghost predicate TableInvariant(entries: seq<PsychFunctionTableEntry>, count: nat)
  {
    |entries| == PSYCH_MAX_FUNCTIONS && count <= PSYCH_MAX_FUNCTIONS &&
    (forall i :: count <= i < |entries| ==> entries[i].name == "") &&
    (forall i :: 0 <= i < count ==> entries[i].name != "" && |entries[i].name| <= PSYCH_MAX_FUNCTION_NAME_LENGTH) &&
    (forall i, j :: 0 <= i < j < count ==> entries[i].name != entries[j].name)
  }

  /** A successful registration fills slot `count` and keeps the table's shape. */
  lemma RegisterKeepsInvariant(entries: seq<PsychFunctionTableEntry>, count: nat, name: string, f: FunctionPtr)
    requires TableInvariant(entries, count)
    requires SubfunctionVerdict(entries, count, name) == PsychError_none
    ensures count < |entries|
    ensures TableInvariant(entries[count := Entry(name, f)], count + 1)
  {
    assert entries[count].name == "";
    assert !Listed(entries, name);
  }

  /** A too-long name leaves its function pointer in slot `count` but keeps the table's shape. */
  lemma LongNameKeepsInvariant(entries: seq<PsychFunctionTableEntry>, count: nat, f: FunctionPtr)
    requires TableInvariant(entries, count)
    requires count < PSYCH_MAX_FUNCTIONS
    ensures TableInvariant(entries[count := Entry(entries[count].name, f)], count)
  {
  }

  /** While there is room, the empty name is refused: it equals the name of the first free slot. */
  lemma EmptyNameIsRegistered(entries: seq<PsychFunctionTableEntry>, count: nat)
    requires TableInvariant(entries, count)
    ensures SubfunctionVerdict(entries, count, "") != PsychError_none
    ensures count < PSYCH_MAX_FUNCTIONS ==> SubfunctionVerdict(entries, count, "") == PsychError_registered
  {
    if count < PSYCH_MAX_FUNCTIONS {
      assert entries[count].name == "";
    }
  }

  /** A name that has been registered once is refused from then on. */
  lemma SecondRegistrationRefused(entries: seq<PsychFunctionTableEntry>, count: nat, name: string, f: FunctionPtr)
    requires TableInvariant(entries, count)
    requires SubfunctionVerdict(entries, count, name) == PsychError_none
    ensures var after := entries[count := Entry(name, f)];
            SubfunctionVerdict(after, count + 1, name) in {PsychError_registered, PsychError_registerLimit}
  {
    var after := entries[count := Entry(name, f)];
    assert after[count].name == name;
    assert Listed(after, name);
  }

  /**
   * The index of the first of the slots `from` up to `count` whose name
   * matches `command`, if any.
   */
  function FirstMatch(entries: seq<PsychFunctionTableEntry>, count: nat, command: string,
                      matches: (string, string) -> bool, from: nat): (r: Option<nat>)
    requires count <= |entries|
    ensures r.Some? ==> from <= r.value < count && matches(entries[r.value].name, command)
    ensures r.Some? ==> forall j :: from <= j < r.value ==> !matches(entries[j].name, command)
    ensures r.None? ==> forall j :: from <= j < count ==> !matches(entries[j].name, command)
    decreases count - from
  {
    if from >= count then None
    else if matches(entries[from].name, command) then Some(from)
    else FirstMatch(entries, count, command, matches, from + 1)
  }

  /** One step of the table scan: a match at `from` ends it, otherwise it goes on at the next slot. */
  lemma FirstMatchStep(entries: seq<PsychFunctionTableEntry>, count: nat, command: string,
                       matches: (string, string) -> bool, from: nat)
    requires from < count <= |entries|
    ensures FirstMatch(entries, count, command, matches, from) ==
              if matches(entries[from].name, command) then Some(from)
              else FirstMatch(entries, count, command, matches, from + 1)
  {
  }

  /** The scan finds nothing past the last registered function. */
  lemma FirstMatchEnd(entries: seq<PsychFunctionTableEntry>, count: nat, command: string,
                      matches: (string, string) -> bool)
    requires count <= |entries|
    ensures FirstMatch(entries, count, command, matches, count) == None
  {
  }

  /**
   * A command with a trailing '?' asks for help on the command without it;
   * `help` says whether it did, and the command comes back without the '?'.
   */
  function StripHelp(command: string): (r: (string, bool))
    requires |command| > 0
    ensures r.1 <==> command[|command| - 1] == '?'
    ensures r.1 ==> r.0 + "?" == command
    ensures !r.1 ==> r.0 == command
  {
    if command[|command| - 1] == '?' then (command[..|command| - 1], true) else (command, false)
  }

  class Registry {
    var exitFunction: FunctionPtr
    var baseFunction: FunctionPtr
    var functionTable: array<PsychFunctionTableEntry>
    var moduleName: string
    var nameRegistered: bool
    /** Index of the slot whose name is the current function name; None is the NULL pointer. */
    var currentFunction: Option<nat>
    var numFunctions: nat
    /** The project table's give-help flag. */
    var giveHelp: bool
    /** Whether PsychEnableSubfunctions has been called. */
    var subfunctionsEnabled: bool

    /** The part of the invariant that only the registration calls can disturb. */
    ghost predicate TableValid()
      reads this`functionTable, this`numFunctions, functionTable
    {
      TableInvariant(functionTable[..], numFunctions)
    }

    ghost predicate Valid()
      reads this, functionTable
    {
      TableValid() &&
      |moduleName| <= PSYCH_MAX_FUNCTION_NAME_LENGTH &&
      (currentFunction.Some? ==> currentFunction.value < numFunctions)
    }

    /** The file-static variables at load time: every pointer NULL, every name empty, no function. */
    constructor ()
      ensures Valid()
      ensures exitFunction == NULL && baseFunction == NULL
      ensures moduleName == "" && !nameRegistered
      ensures numFunctions == 0 && currentFunction.None?
      ensures forall i :: 0 <= i < functionTable.Length ==> functionTable[i] == Entry("", NULL)
      ensures !subfunctionsEnabled && !giveHelp
    {
      exitFunction := NULL;
      baseFunction := NULL;
      functionTable := new PsychFunctionTableEntry[PSYCH_MAX_FUNCTIONS](_ => Entry("", NULL));
      moduleName := "";
      nameRegistered := false;
      currentFunction := None;
      numFunctions := 0;
      giveHelp := false;
      subfunctionsEnabled := false;
    }

    /**
     * PsychRegister: with no name, register the base function (both
     * missing is an internal error); with no function, register the module
     * name; otherwise register a subfunction.
     */
    method PsychRegister(name: Option<string>, func: FunctionPtr) returns (err: PsychError)
      requires Valid()
      modifies this, functionTable
      ensures Valid()
      ensures functionTable == old(functionTable)
      ensures exitFunction == old(exitFunction) && currentFunction == old(currentFunction) && giveHelp == old(giveHelp)
      ensures name.None? && func.NULL? ==> err == PsychError_internal && unchanged(this) && unchanged(functionTable)
      ensures name.None? && func.Fn? ==>
                (err == if old(baseFunction).NULL? then PsychError_none else PsychError_registered) &&
                baseFunction == (if old(baseFunction).NULL? then func else old(baseFunction)) &&
                moduleName == old(moduleName) && nameRegistered == old(nameRegistered) &&
                numFunctions == old(numFunctions) && subfunctionsEnabled == old(subfunctionsEnabled) &&
                unchanged(functionTable)
      ensures name.Some? && func.NULL? ==>
                (err == if old(nameRegistered) then PsychError_registered
                        else if |name.value| > PSYCH_MAX_FUNCTION_NAME_LENGTH then PsychError_longString
                        else PsychError_none) &&
                moduleName == (if err == PsychError_none then name.value else old(moduleName)) &&
                nameRegistered == (old(nameRegistered) || err == PsychError_none) &&
                baseFunction == old(baseFunction) && numFunctions == old(numFunctions) &&
                subfunctionsEnabled == old(subfunctionsEnabled) && unchanged(functionTable)
      ensures name.Some? && func.Fn? ==>
                err == SubfunctionVerdict(old(functionTable[..]), old(numFunctions), name.value) &&
                baseFunction == old(baseFunction) && moduleName == old(moduleName) &&
                nameRegistered == old(nameRegistered)
      ensures name.Some? && func.Fn? && err == PsychError_none ==>
                functionTable[..] == old(functionTable[..])[old(numFunctions) := Entry(name.value, func)] &&
                numFunctions == old(numFunctions) + 1 && subfunctionsEnabled
      ensures name.Some? && func.Fn? && err == PsychError_longString ==>
                functionTable[..] == old(functionTable[..])[old(numFunctions) := Entry("", func)] &&
                numFunctions == old(numFunctions) && subfunctionsEnabled == old(subfunctionsEnabled)
      ensures name.Some? && func.Fn? && err in {PsychError_registerLimit, PsychError_registered} ==>
                unchanged(functionTable) && numFunctions == old(numFunctions) &&
                subfunctionsEnabled == old(subfunctionsEnabled)
    {
      if name.None? {
        if func.NULL? {
          return PsychError_internal;
        }
        err := PsychRegisterBase(func);
        return;
      }
      if func.NULL? {
        err := PsychRegisterModuleName(name.value);
        return;
      }
      err := RegisterSubfunction(name.value, func);
    }

    /** The subfunction branch of PsychRegister: capacity check, duplicate scan over every slot, then store. */
    method RegisterSubfunction(name: string, func: FunctionPtr) returns (err: PsychError)
      requires Valid()
      modifies this`numFunctions, this`subfunctionsEnabled, functionTable
      ensures Valid()
      ensures err == SubfunctionVerdict(old(functionTable[..]), old(numFunctions), name)
      ensures err == PsychError_none ==>
                functionTable[..] == old(functionTable[..])[old(numFunctions) := Entry(name, func)] &&
                numFunctions == old(numFunctions) + 1 && subfunctionsEnabled
      ensures err == PsychError_longString ==>
                functionTable[..] == old(functionTable[..])[old(numFunctions) := Entry("", func)] &&
                numFunctions == old(numFunctions) && subfunctionsEnabled == old(subfunctionsEnabled)
      ensures err in {PsychError_registerLimit, PsychError_registered} ==>
                unchanged(functionTable) && numFunctions == old(numFunctions) &&
                subfunctionsEnabled == old(subfunctionsEnabled)
    {
      if numFunctions == PSYCH_MAX_FUNCTIONS {
        return PsychError_registerLimit;
      }
      ghost var entries := functionTable[..];
      for i := 0 to PSYCH_MAX_FUNCTIONS
        invariant forall j :: 0 <= j < i ==> functionTable[j].name != name
      {
        if name == functionTable[i].name {
          assert entries[i].name == name;
          return PsychError_registered;
        }
      }
      assert !Listed(entries, name);
      functionTable[numFunctions] := Entry(functionTable[numFunctions].name, func);
      if |name| > PSYCH_MAX_FUNCTION_NAME_LENGTH {
        LongNameKeepsInvariant(entries, numFunctions, func);
        return PsychError_longString;
      }
      functionTable[numFunctions] := Entry(name, func);
      RegisterKeepsInvariant(entries, numFunctions, name, func);
      numFunctions := numFunctions + 1;
      subfunctionsEnabled := true;
      err := PsychError_none;
    }

    /** PsychRegisterExit: the exit function can be set once; a later call is refused and changes nothing. */
    method PsychRegisterExit(exitFunc: FunctionPtr) returns (err: PsychError)
      modifies this`exitFunction
      ensures old(exitFunction).NULL? ==> err == PsychError_none && exitFunction == exitFunc
      ensures old(exitFunction).Fn? ==> err == PsychError_registered && exitFunction == old(exitFunction)
    {
      if exitFunction.NULL? {
        exitFunction := exitFunc;
        return PsychError_none;
      }
      return PsychError_registered;
    }

    /** PsychRegisterModuleName: the module name can be set once, and only to a name that fits. */
    method PsychRegisterModuleName(name: string) returns (err: PsychError)
      requires Valid()
      modifies this`moduleName, this`nameRegistered
      ensures Valid()
      ensures old(nameRegistered) ==> err == PsychError_registered && unchanged(this)
      ensures !old(nameRegistered) && |name| > PSYCH_MAX_FUNCTION_NAME_LENGTH ==>
                err == PsychError_longString && unchanged(this)
      ensures !old(nameRegistered) && |name| <= PSYCH_MAX_FUNCTION_NAME_LENGTH ==>
                err == PsychError_none && moduleName == name && nameRegistered
    {
      if nameRegistered {
        return PsychError_registered;
      }
      if |name| > PSYCH_MAX_FUNCTION_NAME_LENGTH {
        return PsychError_longString;
      }
      moduleName := name;
      nameRegistered := true;
      err := PsychError_none;
    }

    /** PsychRegisterBase: the base function can be set once. */
    method PsychRegisterBase(baseFunc: FunctionPtr) returns (err: PsychError)
      modifies this`baseFunction
      ensures old(baseFunction).NULL? ==> err == PsychError_none && baseFunction == baseFunc
      ensures old(baseFunction).Fn? ==> err == PsychError_registered && baseFunction == old(baseFunction)
    {
      if baseFunction.Fn? {
        return PsychError_registered;
      }
      baseFunction := baseFunc;
      err := PsychError_none;
    }

    /**
     * PsychGetProjectFunction: no command selects the base function and
     * clears the current name. Otherwise a trailing '?' is cut off the
     * command (returned as `command'`) and sets the help flag, and the
     * first registered slot whose name matches gives the function and
     * becomes the current name; no match gives NULL and leaves the current
     * name as it was.
     */
    method PsychGetProjectFunction(command: Option<string>, matches: (string, string) -> bool)
      returns (f: FunctionPtr, command': Option<string>)
      requires Valid()
      requires command.Some? ==> |command.value| > 0
      modifies this`currentFunction, this`giveHelp
      ensures Valid()
      ensures command.None? ==>
                f == baseFunction && currentFunction.None? && giveHelp == old(giveHelp) && command' == command
      ensures command.Some? ==>
                var (stripped, help) := StripHelp(command.value);
                command' == Some(stripped) && giveHelp == help &&
                (match FirstMatch(functionTable[..], numFunctions, stripped, matches, 0)
                 case Some(i) => f == functionTable[i].func && currentFunction == Some(i)
                 case None => f == NULL && currentFunction == old(currentFunction))
    {
      if command.None? {
        currentFunction := None;
        return baseFunction, command;
      }
      var c := command.value;
      if c[|c| - 1] == '?' {
        giveHelp := true;
        c := c[..|c| - 1];
      } else {
        giveHelp := false;
      }
      assert StripHelp(command.value) == (c, giveHelp);
      command' := Some(c);
      var found := ScanTable(c, matches);
      match found
      case Some(i) =>
        currentFunction := Some(i);
        f := functionTable[i].func;
      case None =>
        f := NULL;
    }

    /** The scan of PsychGetProjectFunction: the first registered slot whose name `matches` the command. */
    method ScanTable(c: string, matches: (string, string) -> bool) returns (found: Option<nat>)
      requires numFunctions <= functionTable.Length
      ensures found == FirstMatch(functionTable[..], numFunctions, c, matches, 0)
    {
      ghost var target := FirstMatch(functionTable[..], numFunctions, c, matches, 0);
      for i := 0 to numFunctions
        invariant FirstMatch(functionTable[..], numFunctions, c, matches, i) == target
      {
        FirstMatchStep(functionTable[..], numFunctions, c, matches, i);
        if matches(functionTable[i].name, c) {
          return Some(i);
        }
      }
      FirstMatchEnd(functionTable[..], numFunctions, c, matches);
      found := None;
    }

    /** PsychGetFunctionName: the current function name, or "" when there is none. */
    function PsychGetFunctionName(): (r: string)
      requires Valid()
      reads this, functionTable
      ensures r == "" <==> currentFunction.None?
      ensures currentFunction.Some? ==> r == functionTable[currentFunction.value].name
    {
      match currentFunction
      case None => ""
      case Some(i) => functionTable[i].name
    }
  }
}
