/**
 * The parts of a Pawn abstract machine (an `AMX` reached through the
 * `AMXScript` handle) that the crash reporter reads or changes: its
 * registers, its stack, its code cells, its native and public tables and its
 * error codes. How the machine executes code is not modelled: `Exec` and
 * `CallNative` change the registers arbitrarily and return the error code the
 * execution produced, given as a parameter.
 */
module AmxVm {
  import opened Optional

  // Error codes of the abstract machine, with the values of amx.h.
  const AMX_ERR_NONE: int := 0
  const AMX_ERR_EXIT: int := 1
  const AMX_ERR_ASSERT: int := 2
  const AMX_ERR_STACKERR: int := 3
  const AMX_ERR_BOUNDS: int := 4
  const AMX_ERR_MEMACCESS: int := 5
  const AMX_ERR_INVINSTR: int := 6
  const AMX_ERR_STACKLOW: int := 7
  const AMX_ERR_HEAPLOW: int := 8
  const AMX_ERR_CALLBACK: int := 9
  const AMX_ERR_NATIVE: int := 10
  const AMX_ERR_DIVIDE: int := 11
  const AMX_ERR_SLEEP: int := 12
  const AMX_ERR_INVSTATE: int := 13
  const AMX_ERR_MEMORY: int := 16
  const AMX_ERR_FORMAT: int := 17
  const AMX_ERR_VERSION: int := 18
  const AMX_ERR_NOTFOUND: int := 19
  const AMX_ERR_INDEX: int := 20
  const AMX_ERR_DEBUG: int := 21
  const AMX_ERR_INIT: int := 22

  /** Size of a cell in bytes: one push moves STK down by this much. */
  const CellSize: int := 4

  /** An entry of the native table: the resolved name and the bound address (0 while unresolved). */
  datatype Native = Native(name: string, address: int)

  /** An entry of the public table: name and code address of the entry point. */
  datatype Public = Public(name: string, address: int)

  /** AMXScript::GetNativeAddress: the address bound to native `index`, 0 outside the table. */
  function NativeAddress(natives: seq<Native>, index: int): (a: int)
    ensures !(0 <= index < |natives|) ==> a == 0
  {
    if 0 <= index < |natives| then natives[index].address else 0
  }

  /** AMXScript::GetNativeName: the name of native `index`, a null pointer outside the table. */
  function NativeName(natives: seq<Native>, index: int): (n: Option<string>)
    ensures n.Some? <==> 0 <= index < |natives|
  {
    if 0 <= index < |natives| then Some(natives[index].name) else None
  }

  /** AMXScript::GetPublicAddress: the entry point of public `index`, 0 outside the table. */
  function PublicAddress(publics: seq<Public>, index: int): int
  {
    if 0 <= index < |publics| then publics[index].address else 0
  }

  /**
   * AMXScript::GetPublicIndex: the index of the public called `name`, or -1
   * when the script defines none.
   */
  function FindPublic(publics: seq<Public>, name: string): (r: int)
    ensures -1 <= r < |publics|
    ensures r >= 0 ==> publics[r].name == name
    ensures r == -1 <==> forall j :: 0 <= j < |publics| ==> publics[j].name != name
    decreases |publics|
  {
    if publics == [] then -1
    else if publics[|publics| - 1].name == name && FindPublic(publics[..|publics| - 1], name) == -1
    then |publics| - 1
    else FindPublic(publics[..|publics| - 1], name)
  }

  /** The state of one abstract machine. */
  class Amx {
    var cip: int
    var frm: int
    var stk: int
    var hea: int
    var stp: int
    var hlw: int
    var pri: int
    /** The cells pushed on the machine's stack, the most recent last. */
    var stack: seq<int>
    /** The callback the host installed for native calls (a function pointer). */
    var callback: int
    /** The code section: the cell stored at each byte offset. */
    const code: map<int, int>
    const natives: seq<Native>
    const publics: seq<Public>
    /** RelocateAmxOpcode(AMX_OP_BOUNDS) and RelocateAmxOpcode(AMX_OP_SYSREQ_C). */
    const opBounds: int
    const opSysreqC: int
    /** Whether the loaded program carries debug information (AMXDebugInfo::IsPresent). */
    const debugPresent: bool

    constructor (code: map<int, int>, natives: seq<Native>, publics: seq<Public>,
                 opBounds: int, opSysreqC: int, debugPresent: bool, callback: int)
      ensures this.code == code && this.natives == natives && this.publics == publics
      ensures this.opBounds == opBounds && this.opSysreqC == opSysreqC
      ensures this.debugPresent == debugPresent && this.callback == callback
      ensures cip == 0 && frm == 0 && stk == 0 && hea == 0 && stp == 0 && hlw == 0 && pri == 0
      ensures stack == []
    {
      this.code, this.natives, this.publics := code, natives, publics;
      this.opBounds, this.opSysreqC, this.debugPresent := opBounds, opSysreqC, debugPresent;
      this.callback := callback;
      cip, frm, stk, hea, stp, hlw, pri := 0, 0, 0, 0, 0, 0, 0;
      stack := [];
    }

    /** The code cell at byte offset `offset`; memory outside the code section reads as 0. */
    function CodeAt(offset: int): (c: int)
      ensures offset in code ==> c == code[offset]
    {
      if offset in code then code[offset] else 0
    }

    /** AMXScript::PushStack: one more cell on the stack, STK one cell lower. */
    method PushStack(value: int)
      modifies this`stack, this`stk
      ensures stack == old(stack) + [value]
      ensures stk == old(stk) - CellSize
    {
      stack := stack + [value];
      stk := stk - CellSize;
    }

    /** AMXScript::PopStack: the most recently pushed cell comes off, STK one cell higher. */
    method PopStack() returns (value: int)
      requires stack != []
      modifies this`stack, this`stk
      ensures value == old(stack)[|old(stack)| - 1]
      ensures stack == old(stack)[..|old(stack)| - 1]
      ensures stk == old(stk) + CellSize
    {
      value := stack[|stack| - 1];
      stack := stack[..|stack| - 1];
      stk := stk + CellSize;
    }

    /** AMXScript::SetFrm. */
    method SetFrm(value: int)
      modifies this`frm
      ensures frm == value
    {
      frm := value;
    }

    /**
     * amx_Exec: runs public `index`. What the script does is not modelled:
     * the registers and the stack end in any state, and the call returns
     * `outcome`, the error code of that run.
     */
    method Exec(index: int, outcome: int) returns (error: int)
      modifies this`cip, this`frm, this`stk, this`hea, this`pri, this`stack
      ensures error == outcome
    {
      cip, frm, stk, hea, pri := *, *, *, *, *;
      stack := *;
      error := outcome;
    }

    /**
     * The host's native-call callback (the one CrashDetect saves as
     * prev_callback_): runs native `index` and returns `outcome`.
     */
    method CallNative(index: int, outcome: int) returns (error: int)
      modifies this`cip, this`frm, this`stk, this`hea, this`pri, this`stack
      ensures error == outcome
    {
      cip, frm, stk, hea, pri := *, *, *, *, *;
      stack := *;
      error := outcome;
    }
  }
}
