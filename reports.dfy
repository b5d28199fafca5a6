/**
 * What the crash reporter writes, as functions of the state it reads: the
 * classification of error codes, the detail lines of a run-time error, the
 * script backtrace walk over the call records, the host backtrace, the
 * splitting of printed text into log lines and the splitting of the
 * AMX_PATH search list.
 */
module Reports {
  import opened Optional
  import opened Text
  import opened AmxVm
  import opened NpCalls
  import opened AmxDebugInfo
  import opened Collaborators

  /** amx_Exec's index for sampgdk's calls, whose INDEX errors are not reported. */
  const AMX_EXEC_GDK: int := -10

  /** The prefix Printf puts before every message. */
  const DebugPrefix: string := "[debug] "

  // The first lines of the two backtraces.
  const AmxBacktraceHeader: string := "AMX backtrace:"
  const NativeBacktraceHeader: string := "Native backtrace:"

  /** One message as it reaches the log. */
  function DebugLine(message: string): string
  {
    DebugPrefix + message
  }

  /** The log lines for a list of messages. */
  function DebugLines(messages: seq<string>): (lines: seq<string>)
    ensures |lines| == |messages|
    ensures forall i :: 0 <= i < |messages| ==> lines[i] == DebugLine(messages[i])
  {
    seq(|messages|, i requires 0 <= i < |messages| => DebugLine(messages[i]))
  }

  lemma DebugLinesOne(message: string)
    ensures DebugLines([message]) == [DebugLine(message)]
  {
  }

  lemma DebugLinesAppend(a: seq<string>, b: seq<string>)
    ensures DebugLines(a + b) == DebugLines(a) + DebugLines(b)
  {
  }

  /**
   * PrintLines: each '\n'-terminated segment of `text`, as a C string
   * (up to its first NUL), becomes one log line.
   */
  function PrintedLines(text: string): (lines: seq<string>)
    ensures |lines| == |Segments(text)|
  {
    DebugLines(CStrings(Segments(text)))
  }

  function CStrings(ss: seq<string>): (cs: seq<string>)
    ensures |cs| == |ss|
    ensures forall i :: 0 <= i < |ss| ==> cs[i] == CString(ss[i])
  {
    seq(|ss|, i requires 0 <= i < |ss| => CString(ss[i]))
  }

  /** Printing text made of whole lines without NULs logs exactly those lines, in order. */
  lemma PrintedLinesOfTerminated(lines: seq<string>)
    requires forall i :: 0 <= i < |lines| ==> '\n' !in lines[i] && '\0' !in lines[i]
    ensures PrintedLines(Terminated(lines)) == DebugLines(lines)
  {
    SegmentsOfTerminated(lines);
    forall i | 0 <= i < |lines|
      ensures CString(lines[i]) == lines[i]
    {
      CStringOfPlain(lines[i]);
    }
  }

  /** One more '\n'-terminated segment logs one more line. */
  lemma PrintedLinesAppendLine(u: string, v: string)
    requires EndsLine(u) && '\n' !in v
    ensures PrintedLines(u + v + "\n") == PrintedLines(u) + [DebugLine(CString(v))]
  {
    SegmentsAppendLine(u, v);
    assert CStrings(Segments(u) + [v]) == CStrings(Segments(u)) + [CString(v)];
    DebugLinesAppend(CStrings(Segments(u)), [CString(v)]);
  }

  /**
   * A step of PrintLines at a '\n' at `i`: the C string read from `current`
   * once that '\n' is a NUL is the segment before it, and it is the one
   * line the text up to and including the '\n' logs beyond `text[..current]`.
   */
  lemma PrintLinesStep(text: string, buffer: string, current: nat, i: nat)
    requires |buffer| == |text| && current <= i < |text| && text[i] == '\n'
    requires forall j :: current <= j < |text| ==> buffer[j] == text[j]
    requires EndsLine(text[..current]) && forall j :: current <= j < i ==> text[j] != '\n'
    ensures CString(buffer[i := '\0'][current..]) == CString(text[current..i])
    ensures PrintedLines(text[..i + 1]) == PrintedLines(text[..current]) + [DebugLine(CString(text[current..i]))]
    ensures EndsLine(text[..i + 1])
  {
    var segment := text[current..i];
    assert '\n' !in segment;
    var b := buffer[i := '\0'];
    assert b[current..] == segment + "\0" + b[i + 1..];
    CStringStopsAtNul(segment, b[i + 1..]);
    assert text[..i + 1] == text[..current] + segment + "\n";
    PrintedLinesAppendLine(text[..current], segment);
  }

  /** Text after the last '\n' is never logged; an empty text logs nothing. */
  lemma PrintedLinesIgnoreTail(text: string, tail: string)
    requires EndsLine(text) && '\n' !in tail
    ensures PrintedLines(text + tail) == PrintedLines(text)
    ensures PrintedLines("") == [] && PrintedLines(tail) == []
  {
    SegmentsIgnoreTail(text, tail);
    SegmentsIgnoreTail("", tail);
    assert "" + tail == tail;
  }

  // ---------------------------------------------------------------------
  // Error classification.

  /** The codes for which amx_Exec returns before amx_Error runs; DoAmxExec reports these itself. */
  predicate ReturnsEarly(code: int)
  {
    code == AMX_ERR_CALLBACK || code == AMX_ERR_NOTFOUND || code == AMX_ERR_INIT
      || code == AMX_ERR_INDEX || code == AMX_ERR_SLEEP
  }

  /** Codes HandleExecError never reports: a normal return, sleep, and sampgdk's INDEX. */
  predicate Ignored(code: int, index: int)
  {
    code == AMX_ERR_NONE || code == AMX_ERR_SLEEP || (code == AMX_ERR_INDEX && index == AMX_EXEC_GDK)
  }

  /** Codes whose report includes the script backtrace. */
  predicate PrintsBacktrace(code: int)
  {
    code != AMX_ERR_NOTFOUND && code != AMX_ERR_INDEX && code != AMX_ERR_CALLBACK && code != AMX_ERR_INIT
  }

  /**
   * None of the codes DoAmxExec reports itself ever prints a backtrace:
   * each is either ignored or one of the four without one.
   */
  lemma EarlyReturnsPrintNoBacktrace(code: int, index: int)
    requires ReturnsEarly(code)
    ensures Ignored(code, index) || !PrintsBacktrace(code)
    ensures !PrintsBacktrace(code) <==> code != AMX_ERR_SLEEP
  {
  }

  // ---------------------------------------------------------------------
  // PrintError.

  /** The first line of every report. */
  const RunTimeError := "Run time error "
  const OpenQuote := ": \""
  const CloseQuote := "\""

  function ErrorHeader(code: int, env: Env): string
  {
    RunTimeError + IntToString(code) + OpenQuote + env.errorString(code) + CloseQuote
  }

  /**
   * The detail line for a bounds error: only when the instruction at CIP is
   * BOUNDS, with the index from PRI and the bound from the operand cell.
   */
  function BoundsDetail(amx: Amx): (d: Option<string>)
    reads amx
  {
    if amx.CodeAt(amx.cip) != amx.opBounds then None
    else if amx.pri < 0 then Some(" Accessing element at negative index " + IntToString(amx.pri))
    else Some(" Accessing element at index " + IntToString(amx.pri)
              + " past array upper bound " + IntToString(amx.CodeAt(amx.cip + CellSize)))
  }

  /** The detail line for a failed native call: the native an SYSREQ.C just before CIP called. */
  function NativeDetail(amx: Amx): Option<string>
    reads amx
  {
    if amx.CodeAt(amx.cip - 2 * CellSize) != amx.opSysreqC then None
    else
      var name := NativeName(amx.natives, amx.CodeAt(amx.cip - CellSize));
      Some(" " + (if name.Some? then name.value else "(null)"))
  }

  /** The single detail line of every case of the switch but NOTFOUND. */
  function DetailLine(amx: Amx, code: int): Option<string>
    reads amx
  {
    if code == AMX_ERR_BOUNDS then BoundsDetail(amx)
    else if code == AMX_ERR_STACKERR then
      Some(" Stack pointer (STK) is 0x" + Hex(amx.stk, true) + ", heap pointer (HEA) is 0x" + Hex(amx.hea, true))
    else if code == AMX_ERR_STACKLOW then
      Some(" Stack pointer (STK) is 0x" + Hex(amx.stk, true) + ", stack top (STP) is 0x" + Hex(amx.stp, true))
    else if code == AMX_ERR_HEAPLOW then
      Some(" Heap pointer (HEA) is 0x" + Hex(amx.hea, true) + ", heap bottom (HLW) is 0x" + Hex(amx.hlw, true))
    else if code == AMX_ERR_INVINSTR then
      Some(" Unknown opcode 0x" + Hex(amx.CodeAt(amx.cip), false) + " at address 0x" + Hex08(amx.cip))
    else if code == AMX_ERR_NATIVE then NativeDetail(amx)
    else None
  }

  /** The detail lines for NOTFOUND: one per native still bound to address 0, in table order. */
  function UnresolvedNatives(natives: seq<Native>): (lines: seq<string>)
    ensures |lines| <= |natives|
    decreases |natives|
  {
    if natives == [] then []
    else
      var last := natives[|natives| - 1];
      UnresolvedNatives(natives[..|natives| - 1]) + (if last.address == 0 then [" " + last.name] else [])
  }

  function OptionLines(o: Option<string>): (lines: seq<string>)
    ensures |lines| <= 1
  {
    if o.Some? then [o.value] else []
  }

  /** PrintError: the messages of one run-time error report, read from the machine's current state. */
  function ErrorMessages(amx: Amx, code: int, env: Env): (msgs: seq<string>)
    reads amx
    ensures |msgs| >= 1 && msgs[0] == ErrorHeader(code, env)
  {
    [ErrorHeader(code, env)]
      + (if code == AMX_ERR_NOTFOUND then UnresolvedNatives(amx.natives) else OptionLines(DetailLine(amx, code)))
  }

  /**
   * NOTFOUND lists exactly the natives whose address is 0: every listed
   * name belongs to one, every one is listed, and the listing keeps the
   * table order.
   */
  lemma {:induction false} UnresolvedNativesExact(natives: seq<Native>)
    ensures forall i :: 0 <= i < |UnresolvedNatives(natives)| ==>
      exists j :: 0 <= j < |natives| && natives[j].address == 0 && UnresolvedNatives(natives)[i] == " " + natives[j].name
    ensures forall j :: 0 <= j < |natives| && natives[j].address == 0 ==>
      " " + natives[j].name in UnresolvedNatives(natives)
    ensures (forall j :: 0 <= j < |natives| ==> natives[j].address != 0) <==> UnresolvedNatives(natives) == []
    decreases |natives|
  {
    if natives != [] {
      var init := natives[..|natives| - 1];
      UnresolvedNativesExact(init);
      var u := UnresolvedNatives(natives);
      var ui := UnresolvedNatives(init);
      assert u[..|ui|] == ui;
      forall i | 0 <= i < |u|
        ensures exists j :: 0 <= j < |natives| && natives[j].address == 0 && u[i] == " " + natives[j].name
      {
        if i < |ui| {
          assert u[i] == ui[i];
          var j :| 0 <= j < |init| && init[j].address == 0 && ui[i] == " " + init[j].name;
          assert natives[j] == init[j];
        } else {
          assert natives[|natives| - 1].address == 0;
          assert u[i] == " " + natives[|natives| - 1].name;
        }
      }
      forall j | 0 <= j < |natives| && natives[j].address == 0
        ensures " " + natives[j].name in u
      {
        if j < |init| {
          assert init[j] == natives[j];
          var k :| 0 <= k < |ui| && ui[k] == " " + natives[j].name;
          assert u[k] == ui[k];
        } else {
          assert u[|u| - 1] == " " + natives[j].name;
        }
      }
    } else {
      assert UnresolvedNatives(natives) == [];
    }
  }

  /** Scanning one more native of the table. */
  lemma UnresolvedNativesSnoc(natives: seq<Native>, i: nat)
    requires i < |natives|
    ensures UnresolvedNatives(natives[..i + 1])
            == UnresolvedNatives(natives[..i]) + (if natives[i].address == 0 then [" " + natives[i].name] else [])
  {
    assert natives[..i + 1][..i] == natives[..i];
  }

  /** The order of NOTFOUND's list: the unresolved natives of a prefix are listed first. */
  lemma {:induction false} UnresolvedNativesAppend(a: seq<Native>, b: seq<Native>)
    ensures UnresolvedNatives(a + b) == UnresolvedNatives(a) + UnresolvedNatives(b)
    decreases |b|
  {
    if b == [] {
      assert a + b == a;
    } else {
      var b' := b[..|b| - 1];
      assert (a + b)[..|a + b| - 1] == a + b';
      assert (a + b)[|a + b| - 1] == b[|b| - 1];
      UnresolvedNativesAppend(a, b');
    }
  }

  /**
   * The bounds line: none unless the instruction at CIP is BOUNDS; then the
   * negative-index line exactly when PRI is negative, and otherwise the
   * past-the-bound line naming the index and the bound.
   */
  lemma BoundsCases(amx: Amx)
    ensures BoundsDetail(amx).None? <==> amx.CodeAt(amx.cip) != amx.opBounds
    ensures BoundsDetail(amx).Some? && amx.pri < 0 ==>
      BoundsDetail(amx).value == " Accessing element at negative index " + IntToString(amx.pri)
    ensures BoundsDetail(amx).Some? && amx.pri >= 0 ==>
      BoundsDetail(amx).value == " Accessing element at index " + IntToString(amx.pri)
                                 + " past array upper bound " + IntToString(amx.CodeAt(amx.cip + CellSize))
  {
  }

  /**
   * Codes outside the switch get the header alone; every code gets at most
   * one detail line except NOTFOUND, which gets one per unresolved native.
   */
  lemma ErrorMessagesShape(amx: Amx, code: int, env: Env)
    ensures code !in {AMX_ERR_BOUNDS, AMX_ERR_NOTFOUND, AMX_ERR_STACKERR, AMX_ERR_STACKLOW,
                      AMX_ERR_HEAPLOW, AMX_ERR_INVINSTR, AMX_ERR_NATIVE}
            ==> ErrorMessages(amx, code, env) == [ErrorHeader(code, env)]
    ensures code == AMX_ERR_NOTFOUND ==> |ErrorMessages(amx, code, env)| == 1 + |UnresolvedNatives(amx.natives)|
    ensures code != AMX_ERR_NOTFOUND ==> |ErrorMessages(amx, code, env)| <= 2
    ensures code in {AMX_ERR_STACKERR, AMX_ERR_STACKLOW, AMX_ERR_HEAPLOW, AMX_ERR_INVINSTR}
            ==> |ErrorMessages(amx, code, env)| == 2
  {
  }

  /**
   * The report depends only on the error code and on the state of the
   * machine it is given: two machines alike in registers, code and natives
   * get the same report.
   */
  lemma ErrorMessagesDependOnScriptOnly(a: Amx, b: Amx, code: int, env: Env)
    requires a.cip == b.cip && a.pri == b.pri && a.stk == b.stk && a.hea == b.hea
    requires a.stp == b.stp && a.hlw == b.hlw && a.code == b.code && a.natives == b.natives
    requires a.opBounds == b.opBounds && a.opSysreqC == b.opSysreqC
    ensures ErrorMessages(a, code, env) == ErrorMessages(b, code, env)
  {
    DetailLineSame(a, b, code);
  }

  lemma DetailLineSame(a: Amx, b: Amx, code: int)
    requires a.cip == b.cip && a.pri == b.pri && a.stk == b.stk && a.hea == b.hea
    requires a.stp == b.stp && a.hlw == b.hlw && a.code == b.code && a.natives == b.natives
    requires a.opBounds == b.opBounds && a.opSysreqC == b.opSysreqC
    ensures DetailLine(a, code) == DetailLine(b, code)
  {
    if code == AMX_ERR_BOUNDS {
      assert a.CodeAt(a.cip) == b.CodeAt(b.cip);
      assert a.CodeAt(a.cip + CellSize) == b.CodeAt(b.cip + CellSize);
    } else if code == AMX_ERR_INVINSTR {
      assert a.CodeAt(a.cip) == b.CodeAt(b.cip);
    } else if code == AMX_ERR_NATIVE {
      assert a.CodeAt(a.cip - 2 * CellSize) == b.CodeAt(b.cip - 2 * CellSize);
      assert a.CodeAt(a.cip - CellSize) == b.CodeAt(b.cip - CellSize);
    }
  }

  // ---------------------------------------------------------------------
  // Backtraces.

  /**
   * One line of a backtrace: a native the script called, or a frame printed
   * by a frame printer followed, when known, by the module it comes from.
   */
  datatype BtLine =
    | NativeLine(level: nat, name: Option<string>, address: int, origin: string)
    | FrameLine(level: nat, frame: string, from: string)

  /** The line as it is written to the stream, without its terminator. */
  function RenderLine(l: BtLine): string
  {
    var from := if l.NativeLine? then l.origin else l.from;
    var body := match l
      case NativeLine(_, name, address, _) =>
        "native " + (if name.Some? then name.value else "<unknown>") + " () [" + HexDword(address) + "]"
      case FrameLine(_, frame, _) => frame;
    var tail := body + (if from != "" then " from " + from else "");
    LevelTag(l.level) + tail
  }

  /** The start of every backtrace line: '#', the level in decimal, and a space. */
  function LevelTag(level: nat): string
  {
    "#" + NatToString(level) + " "
  }

  /** Every backtrace line starts with its level tag, whatever follows it. */
  lemma RenderLineStartsWithLevel(l: BtLine)
    ensures LevelTag(l.level) <= RenderLine(l)
  {
    var tag := LevelTag(l.level);
    var r := RenderLine(l);
    assert r == tag + r[|tag|..];
  }

  function RenderAll(ls: seq<BtLine>): (ss: seq<string>)
    ensures |ss| == |ls|
    ensures forall i :: 0 <= i < |ls| ==> ss[i] == RenderLine(ls[i])
  {
    seq(|ls|, i requires 0 <= i < |ls| => RenderLine(ls[i]))
  }

  lemma RenderAllAppend(a: seq<BtLine>, b: seq<BtLine>)
    ensures RenderAll(a + b) == RenderAll(a) + RenderAll(b)
  {
  }

  /** Writing one more line to a stream that holds terminated lines. */
  lemma TerminatedSnoc(printed: seq<BtLine>, l: BtLine)
    ensures Terminated(RenderAll(printed + [l])) == Terminated(RenderAll(printed)) + RenderLine(l) + "\n"
  {
    var r := RenderAll(printed + [l]);
    assert r[..|r| - 1] == RenderAll(printed);
  }

  /** A backtrace text: a header line, then one terminated line per backtrace line. */
  function BacktraceText(header: string, ls: seq<BtLine>): string
  {
    header + "\n" + Terminated(RenderAll(ls))
  }

  /** Writing one more line to a backtrace text. */
  lemma BacktraceTextSnoc(header: string, printed: seq<BtLine>, l: BtLine)
    ensures BacktraceText(header, printed + [l]) == BacktraceText(header, printed) + RenderLine(l) + "\n"
  {
    TerminatedSnoc(printed, l);
    var h, t, r := header + "\n", Terminated(RenderAll(printed)), RenderLine(l);
    AppendAssoc(h, t + r, "\n");
    AppendAssoc(h, t, r);
  }

  /** Logging a backtrace text gives its header and its lines when none of them holds a '\n' or a NUL. */
  lemma PrintedBacktrace(header: string, ls: seq<BtLine>)
    requires '\n' !in header && '\0' !in header
    requires forall i :: 0 <= i < |ls| ==> '\n' !in RenderLine(ls[i]) && '\0' !in RenderLine(ls[i])
    ensures PrintedLines(BacktraceText(header, ls)) == DebugLines([header] + RenderAll(ls))
  {
    var all := [header] + RenderAll(ls);
    forall i | 0 <= i < |all|
      ensures '\n' !in all[i] && '\0' !in all[i]
    {
      if i > 0 {
        assert all[i] == RenderLine(ls[i - 1]);
      }
    }
    TerminatedCons(header, RenderAll(ls));
    PrintedLinesOfTerminated(all);
  }

  lemma TerminatedCons(head: string, rest: seq<string>)
    ensures Terminated([head] + rest) == head + "\n" + Terminated(rest)
  {
    TerminatedAppend([head], rest);
    assert [head][..0] == [];
  }

  /** What the script walk needs besides the records: the machine, its stack, and its script's data. */
  datatype WalkCtx = WalkCtx(top: Amx, stack: seq<int>, stk: int, info: DebugInfo, amxName: string, env: Env)

  /** The result of a walk: its lines, and the FRM it left in the machine if it changed it. */
  datatype WalkEnd = WalkEnd(lines: seq<BtLine>, frmSet: Option<int>)

  /**
   * The frames printed for a public record entered at (`cip`, `frm`): the
   * stack walker's frames over the machine with `cip` and `frm` pushed and
   * FRM at the new top, the outermost one marked as called from the
   * public's entry point; when the walker finds none, a single frame at the
   * entry point.
   */
  function PublicFrames(ctx: WalkCtx, call: NPCall, cip: int, frm: int): (frames: seq<AmxStackFrame>)
    ensures |frames| >= 1
    ensures frames[|frames| - 1].callerAddress == PublicAddress(ctx.top.publics, call.index)
  {
    var sp := ctx.stk - 2 * CellSize;
    var trace := ctx.env.amxTrace(ctx.stack + [cip, frm], sp);
    var entry := PublicAddress(ctx.top.publics, call.index);
    if trace == [] then [AmxStackFrame(sp, 0, 0, entry)]
    else trace[..|trace| - 1] + [trace[|trace| - 1].(callerAddress := entry)]
  }

  /** The script name after a frame: shown only when there is no debug information to name it. */
  function FrameFrom(ctx: WalkCtx): string
  {
    if !ctx.info.IsLoaded() && ctx.amxName != "" then ctx.amxName else ""
  }

  function PublicLines(ctx: WalkCtx, frames: seq<AmxStackFrame>, level: nat): (ls: seq<BtLine>)
    ensures |ls| == |frames|
    ensures forall i :: 0 <= i < |ls| ==> ls[i] == FrameLine(level + i, ctx.env.printAmxFrame(frames[i], ctx.info), FrameFrom(ctx))
  {
    seq(|frames|, i requires 0 <= i < |frames| =>
      FrameLine(level + i, ctx.env.printAmxFrame(frames[i], ctx.info), FrameFrom(ctx)))
  }

  function NativeBtLine(ctx: WalkCtx, index: int, address: int, level: nat): BtLine
  {
    NativeLine(level, NativeName(ctx.top.natives, index), address, ctx.env.fileName(ctx.env.modulePath(address)))
  }

  /**
   * The script backtrace walk from the top record down (`calls` holds the
   * records, the most recent last), numbering lines from `level`. It ends
   * when the records run out, when CIP is 0, or at the first record of
   * another machine. A native record prints one line unless the native is
   * unbound; a public record prints its frames and continues from the CIP
   * and FRM the record saved.
   */
  function Walk(calls: seq<NPCall>, cip: int, frm: int, level: nat, ctx: WalkCtx): (r: WalkEnd)
    ensures forall i :: 0 <= i < |r.lines| ==> r.lines[i].level == level + i
    ensures forall i :: 0 <= i < |r.lines| && r.lines[i].NativeLine? ==> r.lines[i].address != 0
    decreases |calls|
  {
    if calls == [] || cip == 0 then WalkEnd([], None)
    else
      var call := calls[|calls| - 1];
      var rest := calls[..|calls| - 1];
      if call.amx != ctx.top then WalkEnd([], None)
      else if call.IsNative() then
        var address := NativeAddress(ctx.top.natives, call.index);
        if address == 0 then Walk(rest, cip, frm, level, ctx)
        else
          var r := Walk(rest, cip, frm, level + 1, ctx);
          WalkEnd([NativeBtLine(ctx, call.index, address, level)] + r.lines, r.frmSet)
      else
        var here := PublicLines(ctx, PublicFrames(ctx, call, cip, frm), level);
        var r := Walk(rest, call.cip, call.frm, level + |here|, ctx);
        WalkEnd(here + r.lines, if r.frmSet.Some? then r.frmSet else Some(frm))
  }

  /** One step of the walk at a native record of the walked machine. */
  lemma WalkNativeStep(calls: seq<NPCall>, cip: int, frm: int, level: nat, ctx: WalkCtx)
    requires calls != [] && cip != 0
    requires calls[|calls| - 1].amx == ctx.top && calls[|calls| - 1].IsNative()
    ensures var call, rest := calls[|calls| - 1], calls[..|calls| - 1];
      var address := NativeAddress(ctx.top.natives, call.index);
      Walk(calls, cip, frm, level, ctx)
        == if address == 0 then Walk(rest, cip, frm, level, ctx)
           else WalkEnd([NativeBtLine(ctx, call.index, address, level)] + Walk(rest, cip, frm, level + 1, ctx).lines,
                        Walk(rest, cip, frm, level + 1, ctx).frmSet)
  {
  }

  /** One step of the walk at a public record of the walked machine. */
  lemma WalkPublicStep(calls: seq<NPCall>, cip: int, frm: int, level: nat, ctx: WalkCtx)
    requires calls != [] && cip != 0
    requires calls[|calls| - 1].amx == ctx.top && calls[|calls| - 1].IsPublic()
    ensures var call, rest := calls[|calls| - 1], calls[..|calls| - 1];
      var here := PublicLines(ctx, PublicFrames(ctx, call, cip, frm), level);
      var r := Walk(rest, call.cip, call.frm, level + |here|, ctx);
      Walk(calls, cip, frm, level, ctx) == WalkEnd(here + r.lines, if r.frmSet.Some? then r.frmSet else Some(frm))
  {
  }

  /**
   * Midway through the walk: `printed` has been written, and the records
   * `calls` remain, from `cip` and `frm`, with the machine's FRM at `current`;
   * the lines still to come and the FRM at the end are those of the whole walk.
   */
  ghost predicate WalkRemains(whole: WalkEnd, frm0: int, printed: seq<BtLine>, calls: seq<NPCall>,
                              cip: int, frm: int, current: int, ctx: WalkCtx)
  {
    var r := Walk(calls, cip, frm, |printed|, ctx);
    whole.lines == printed + r.lines && FrmAfter(whole, frm0) == FrmAfter(r, current)
  }

  /** A public record carries the walk over: its frame lines are written and FRM is set to its frame. */
  lemma WalkPublicKeeps(whole: WalkEnd, frm0: int, printed: seq<BtLine>, calls: seq<NPCall>,
                        cip: int, frm: int, current: int, ctx: WalkCtx)
    requires calls != [] && cip != 0
    requires calls[|calls| - 1].amx == ctx.top && calls[|calls| - 1].IsPublic()
    requires WalkRemains(whole, frm0, printed, calls, cip, frm, current, ctx)
    ensures var call := calls[|calls| - 1];
      var here := PublicLines(ctx, PublicFrames(ctx, call, cip, frm), |printed|);
      WalkRemains(whole, frm0, printed + here, calls[..|calls| - 1], call.cip, call.frm, frm, ctx)
  {
    WalkPublicStep(calls, cip, frm, |printed|, ctx);
    var call, rest := calls[|calls| - 1], calls[..|calls| - 1];
    var here := PublicLines(ctx, PublicFrames(ctx, call, cip, frm), |printed|);
    AppendAssoc(printed, here, Walk(rest, call.cip, call.frm, |printed| + |here|, ctx).lines);
  }

  /** A native record carries the walk over: its line, if any, is written and FRM stays. */
  lemma WalkNativeKeeps(whole: WalkEnd, frm0: int, printed: seq<BtLine>, calls: seq<NPCall>,
                        cip: int, frm: int, current: int, ctx: WalkCtx)
    requires calls != [] && cip != 0
    requires calls[|calls| - 1].amx == ctx.top && calls[|calls| - 1].IsNative()
    requires WalkRemains(whole, frm0, printed, calls, cip, frm, current, ctx)
    ensures var call := calls[|calls| - 1];
      var here := NativeRecordLines(ctx, call.index, |printed|);
      WalkRemains(whole, frm0, printed + here, calls[..|calls| - 1], cip, frm, current, ctx)
  {
    WalkNativeStep(calls, cip, frm, |printed|, ctx);
    var call, rest := calls[|calls| - 1], calls[..|calls| - 1];
    var address := NativeAddress(ctx.top.natives, call.index);
    if address != 0 {
      AppendAssoc(printed, [NativeBtLine(ctx, call.index, address, |printed|)], Walk(rest, cip, frm, |printed| + 1, ctx).lines);
    } else {
      assert printed + [] == printed;
    }
  }

  /** The line a native record adds to the walk: none when its address is 0. */
  function NativeRecordLines(ctx: WalkCtx, index: int, level: nat): seq<BtLine>
  {
    var address := NativeAddress(ctx.top.natives, index);
    if address == 0 then [] else [NativeBtLine(ctx, index, address, level)]
  }

  /** The FRM of the machine after a walk that found it at `current`. */
  function FrmAfter(r: WalkEnd, current: int): int
  {
    if r.frmSet.Some? then r.frmSet.value else current
  }

  /**
   * Only the records above the first record of another machine matter:
   * whatever lies below it, the walk prints the same.
   */
  lemma {:induction false} WalkStopsAtForeign(below: seq<NPCall>, below': seq<NPCall>, foreign: NPCall,
                                              above: seq<NPCall>, cip: int, frm: int, level: nat, ctx: WalkCtx)
    requires foreign.amx != ctx.top
    requires forall i :: 0 <= i < |above| ==> above[i].amx == ctx.top
    ensures Walk(below + [foreign] + above, cip, frm, level, ctx) == Walk(below' + [foreign] + above, cip, frm, level, ctx)
    decreases |above|
  {
    var c1 := below + [foreign] + above;
    var c2 := below' + [foreign] + above;
    if above == [] {
      assert c1[|c1| - 1] == foreign && c2[|c2| - 1] == foreign;
    } else if cip != 0 {
      var above' := above[..|above| - 1];
      var call := above[|above| - 1];
      assert c1[|c1| - 1] == call && c2[|c2| - 1] == call && call.amx == ctx.top;
      assert c1[..|c1| - 1] == below + [foreign] + above';
      assert c2[..|c2| - 1] == below' + [foreign] + above';
      var r1, r2 := c1[..|c1| - 1], c2[..|c2| - 1];
      if call.IsNative() {
        var address := NativeAddress(ctx.top.natives, call.index);
        var level' := if address == 0 then level else level + 1;
        assert Walk(r1, cip, frm, level', ctx) == Walk(r2, cip, frm, level', ctx) by {
          WalkStopsAtForeign(below, below', foreign, above', cip, frm, level', ctx);
        }
        WalkSameNativeTop(c1, c2, cip, frm, level, ctx);
      } else {
        var level' := level + |PublicFrames(ctx, call, cip, frm)|;
        assert Walk(r1, call.cip, call.frm, level', ctx) == Walk(r2, call.cip, call.frm, level', ctx) by {
          WalkStopsAtForeign(below, below', foreign, above', call.cip, call.frm, level', ctx);
        }
        WalkSamePublicTop(c1, c2, cip, frm, level, ctx);
      }
    }
  }

  /** Two record lists with the same native record on top walk alike when the records below it do. */
  lemma WalkSameNativeTop(c1: seq<NPCall>, c2: seq<NPCall>, cip: int, frm: int, level: nat, ctx: WalkCtx)
    requires c1 != [] && c2 != [] && cip != 0 && c1[|c1| - 1] == c2[|c2| - 1]
    requires c1[|c1| - 1].amx == ctx.top && c1[|c1| - 1].IsNative()
    requires var address := NativeAddress(ctx.top.natives, c1[|c1| - 1].index);
      var level' := if address == 0 then level else level + 1;
      Walk(c1[..|c1| - 1], cip, frm, level', ctx) == Walk(c2[..|c2| - 1], cip, frm, level', ctx)
    ensures Walk(c1, cip, frm, level, ctx) == Walk(c2, cip, frm, level, ctx)
  {
    WalkNativeStep(c1, cip, frm, level, ctx);
    WalkNativeStep(c2, cip, frm, level, ctx);
  }

  /** Two record lists with the same public record on top walk alike when the records below it do. */
  lemma WalkSamePublicTop(c1: seq<NPCall>, c2: seq<NPCall>, cip: int, frm: int, level: nat, ctx: WalkCtx)
    requires c1 != [] && c2 != [] && cip != 0 && c1[|c1| - 1] == c2[|c2| - 1]
    requires c1[|c1| - 1].amx == ctx.top && c1[|c1| - 1].IsPublic()
    requires var call := c1[|c1| - 1];
      var level' := level + |PublicFrames(ctx, call, cip, frm)|;
      Walk(c1[..|c1| - 1], call.cip, call.frm, level', ctx) == Walk(c2[..|c2| - 1], call.cip, call.frm, level', ctx)
    ensures Walk(c1, cip, frm, level, ctx) == Walk(c2, cip, frm, level, ctx)
  {
    WalkPublicStep(c1, cip, frm, level, ctx);
    WalkPublicStep(c2, cip, frm, level, ctx);
  }

  /** A walk whose top record is a public call or a bound native prints at least one line. */
  lemma WalkStartsWithLine(calls: seq<NPCall>, cip: int, frm: int, ctx: WalkCtx)
    requires calls != [] && cip != 0 && calls[|calls| - 1].amx == ctx.top
    requires calls[|calls| - 1].IsPublic()
             || NativeAddress(ctx.top.natives, calls[|calls| - 1].index) != 0
    ensures |Walk(calls, cip, frm, 0, ctx).lines| >= 1
  {
  }

  /** The host backtrace lines: one per frame, numbered from 0, followed by the frame's module path. */
  function NativeLines(frames: seq<NativeStackFrame>, env: Env): (ls: seq<BtLine>)
    ensures |ls| == |frames|
    ensures forall i :: 0 <= i < |ls| ==> ls[i].level == i
  {
    seq(|frames|, i requires 0 <= i < |frames| =>
      FrameLine(i, env.printNativeFrame(frames[i]), env.modulePath(frames[i].returnAddress)))
  }

  /** PrintNativeBacktrace(stream, context): nothing when the host walker finds no frame. */
  function NativeBacktraceText(env: Env, context: int): (text: string)
    ensures env.nativeTrace(context) == [] <==> text == ""
  {
    var frames := env.nativeTrace(context);
    if frames == [] then "" else BacktraceText(NativeBacktraceHeader, NativeLines(frames, env))
  }

  // ---------------------------------------------------------------------
  // AMX_PATH.

  /** `s` cut at every `sep`: the parts between separators, empty ones included. */
  function SplitOn(s: string, sep: char): (parts: seq<string>)
    ensures |parts| >= 1
    decreases |s|
  {
    var k := FindFrom(s, sep, 0);
    if k == |s| then [s] else [s[..k]] + SplitOn(s[k + 1..], sep)
  }

  /** No part holds the separator. */
  lemma {:induction false} SplitOnPartsFree(s: string, sep: char)
    ensures forall i :: 0 <= i < |SplitOn(s, sep)| ==> sep !in SplitOn(s, sep)[i]
    decreases |s|
  {
    var k := FindFrom(s, sep, 0);
    if k < |s| {
      SplitOnPartsFree(s[k + 1..], sep);
      var parts := SplitOn(s, sep);
      assert parts == [s[..k]] + SplitOn(s[k + 1..], sep);
      assert sep !in s[..k];
      forall i | 0 <= i < |parts|
        ensures sep !in parts[i]
      {
        if i > 0 {
          assert parts[i] == SplitOn(s[k + 1..], sep)[i - 1];
        }
      }
    } else {
      assert sep !in s;
    }
  }

  /** The parts joined back with `sep` between them. */
  function JoinWith(parts: seq<string>, sep: char): string
    requires |parts| >= 1
  {
    if |parts| == 1 then parts[0] else parts[0] + [sep] + JoinWith(parts[1..], sep)
  }

  /** Splitting loses nothing: joining the parts gives back the list. */
  lemma {:induction false} JoinSplit(s: string, sep: char)
    ensures JoinWith(SplitOn(s, sep), sep) == s
    decreases |s|
  {
    var k := FindFrom(s, sep, 0);
    if k < |s| {
      JoinSplit(s[k + 1..], sep);
      assert s == s[..k] + [sep] + s[k + 1..];
    }
  }

  /** The non-empty parts, in order. */
  function NonEmpty(parts: seq<string>): (r: seq<string>)
    ensures |r| <= |parts|
  {
    if parts == [] then []
    else (if parts[0] != "" then [parts[0]] else []) + NonEmpty(parts[1..])
  }

  /** NonEmpty keeps exactly the non-empty parts: each kept one is a part, and each non-empty part is kept. */
  lemma {:induction false} NonEmptyKeepsExactly(parts: seq<string>)
    ensures forall i :: 0 <= i < |NonEmpty(parts)| ==> NonEmpty(parts)[i] != "" && NonEmpty(parts)[i] in parts
    ensures forall p :: p in parts && p != "" ==> p in NonEmpty(parts)
  {
    if parts != [] {
      var rest := parts[1..];
      NonEmptyKeepsExactly(rest);
      var here := if parts[0] != "" then [parts[0]] else [];
      var r := NonEmpty(parts);
      assert r == here + NonEmpty(rest);
      forall i | 0 <= i < |r|
        ensures r[i] != "" && r[i] in parts
      {
        if i < |here| {
          assert r[i] == parts[0];
        } else {
          assert r[i] == NonEmpty(rest)[i - |here|];
          assert NonEmpty(rest)[i - |here|] in rest;
        }
      }
      forall p | p in parts && p != ""
        ensures p in r
      {
        if p != parts[0] {
          assert p in rest;
          assert p in NonEmpty(rest);
        }
      }
    }
  }

  /**
   * The search paths AMX_PATH adds, as the loop of Load finds them: from
   * `begin`, the text up to the next separator (or the end) is a path
   * unless it is empty, and the search resumes after the separator.
   */
  function PathsFrom(s: string, sep: char, begin: nat): seq<string>
    decreases |s| - begin
  {
    if begin >= |s| then []
    else
      var end := FindFrom(s, sep, begin);
      var path := s[begin..end];
      (if path != "" then [path] else []) + PathsFrom(s, sep, end + 1)
  }

  /** The loop adds exactly the non-empty parts of the list, in order. */
  lemma {:induction false} PathsFromIsNonEmptySplit(s: string, sep: char, begin: nat)
    requires begin <= |s|
    ensures PathsFrom(s, sep, begin) == NonEmpty(SplitOn(s[begin..], sep))
    decreases |s| - begin
  {
    if begin == |s| {
      assert s[begin..] == "";
      assert SplitOn("", sep) == [""];
    } else {
      var end := FindFrom(s, sep, begin);
      PathsFromUnfold(s, sep, begin, end);
      NonEmptySplitStep(s, sep, begin, end);
      if end < |s| {
        PathsFromIsNonEmptySplit(s, sep, end + 1);
      }
    }
  }

  /** The non-empty parts from `begin`: the path up to `end` if it is not empty, then those after `end`. */
  lemma NonEmptySplitStep(s: string, sep: char, begin: nat, end: nat)
    requires begin < |s| && end == FindFrom(s, sep, begin)
    ensures NonEmpty(SplitOn(s[begin..], sep))
            == (if s[begin..end] != "" then [s[begin..end]] else [])
               + (if end < |s| then NonEmpty(SplitOn(s[end + 1..], sep)) else [])
  {
    var path := s[begin..end];
    var rest := if end < |s| then SplitOn(s[end + 1..], sep) else [];
    assert SplitOn(s[begin..], sep) == [path] + rest by {
      SplitOnStep(s, sep, begin, end);
    }
    NonEmptyCons(path, rest);
  }

  /** One step of PathsFrom, at the separator `end` that ends the path from `begin`. */
  lemma PathsFromUnfold(s: string, sep: char, begin: nat, end: nat)
    requires begin < |s| && end == FindFrom(s, sep, begin)
    ensures PathsFrom(s, sep, begin)
            == (if s[begin..end] != "" then [s[begin..end]] else []) + PathsFrom(s, sep, end + 1)
    ensures end == |s| ==> PathsFrom(s, sep, end + 1) == []
  {
  }

  /** One step of NonEmpty. */
  lemma NonEmptyCons(p: string, rest: seq<string>)
    ensures NonEmpty([p] + rest) == (if p != "" then [p] else []) + NonEmpty(rest)
  {
    assert ([p] + rest)[1..] == rest;
  }

  /** Splitting the text from `begin`: the part up to the next separator, then the parts after it. */
  lemma SplitOnStep(s: string, sep: char, begin: nat, end: nat)
    requires begin < |s| && end == FindFrom(s, sep, begin)
    ensures SplitOn(s[begin..], sep) == [s[begin..end]] + (if end < |s| then SplitOn(s[end + 1..], sep) else [])
  {
    var t := s[begin..];
    var k := end - begin;
    assert FindFrom(t, sep, 0) == k by {
      FindFromShift(s, sep, begin);
    }
    var head := s[begin..end];
    assert t[..k] == head by {
      SliceOfSuffix(s, begin, 0, k);
    }
    if end < |s| {
      var tail := s[end + 1..];
      assert t[k + 1..] == tail by {
        SliceOfSuffix(s, begin, k + 1, |t|);
      }
      assert SplitOn(t, sep) == [head] + SplitOn(tail, sep) by {
        SplitOnUnfold(t, sep, k);
      }
    } else {
      assert k == |t| && t[..k] == t;
      assert SplitOn(t, sep) == [head] by {
        SplitOnUnfold(t, sep, k);
      }
    }
  }

  /** One step of SplitOn, at the first separator `k` of `t`. */
  lemma SplitOnUnfold(t: string, sep: char, k: nat)
    requires k == FindFrom(t, sep, 0)
    ensures SplitOn(t, sep) == if k == |t| then [t] else [t[..k]] + SplitOn(t[k + 1..], sep)
  {
  }

  /** Searching a suffix finds the same separator, shifted. */
  lemma {:induction false} FindFromShift(s: string, c: char, begin: nat)
    requires begin <= |s|
    ensures FindFrom(s, c, begin) == begin + FindFrom(s[begin..], c, 0)
  {
    var t := s[begin..];
    assert forall j :: begin <= j < |s| ==> s[j] == t[j - begin];
  }
}
