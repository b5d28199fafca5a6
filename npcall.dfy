/** The record of one crossing between host code and script code (npcall.h). */
module NpCalls {
  import opened AmxVm

  /** NPCall::Type. */
  datatype CallType = NATIVE | PUBLIC

  /**
   * An NPCall: which machine, which native or public was entered, and the
   * machine's frame pointer and instruction pointer when it was entered.
   * The record is a value: it has accessors and no mutators.
   */
  datatype NPCall = NPCall(callType: CallType, amx: Amx, index: int, frm: int, cip: int)
  {
    predicate IsPublic()
    {
      callType == PUBLIC
    }

    predicate IsNative()
    {
      callType == NATIVE
    }
  }

  /** NPCall::Public: a call into public `index` of `amx`, made in the machine's current frame. */
  function PublicCall(amx: Amx, index: int): (c: NPCall)
    reads amx
    ensures c.IsPublic() && !c.IsNative()
    ensures c.amx == amx && c.index == index && c.frm == amx.frm && c.cip == amx.cip
  {
    NPCall(PUBLIC, amx, index, amx.frm, amx.cip)
  }

  /** NPCall::Native: a call of native `index` from `amx`, made in the machine's current frame. */
  function NativeCall(amx: Amx, index: int): (c: NPCall)
    reads amx
    ensures c.IsNative() && !c.IsPublic()
    ensures c.amx == amx && c.index == index && c.frm == amx.frm && c.cip == amx.cip
  {
    NPCall(NATIVE, amx, index, amx.frm, amx.cip)
  }

  /** Every record is either a public call or a native call, never both. */
  lemma ExactlyOneKind(c: NPCall)
    ensures c.IsPublic() != c.IsNative()
    ensures c.IsPublic() <==> c.callType == PUBLIC
    ensures c.IsNative() <==> c.callType == NATIVE
  {
  }
}
