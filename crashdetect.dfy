/**
 * The crash reporter itself: the process-wide state every script's service
 * shares (the guard against nested error reports, the stack of call
 * records and the registry of services), the log, and the per-script
 * service with its hooks into script execution and its error, crash and
 * interrupt reports.
 */
module CrashDetectPlugin {
  import opened Optional
  import opened Text
  import opened AmxVm
  import opened NpCalls
  import opened AmxDebugInfo
  import opened Collaborators
  import opened Reports

  // The messages of the crash and interrupt reports.
  const CrashedIn: string := "Server crashed while executing "
  const CrashedUnknown: string := "Server crashed due to an unknown error"
  const InterruptedIn: string := "Server received interrupt signal while executing "
  const InterruptedUnknown: string := "Server received interrupt signal"

  /** The public a script defines to hear about its run-time errors. */
  const OnRuntimeErrorName: string := "OnRuntimeError"

  /** The server log (logprintf): the messages written so far, in order. */
  class Log {
    var lines: seq<string>

    constructor ()
      ensures lines == []
    {
      lines := [];
    }

    /** CrashDetect::Printf: one message, behind the "[debug] " prefix. */
    method Printf(message: string)
      modifies this`lines
      ensures lines == old(lines) + [DebugLine(message)]
    {
      lines := lines + [DebugLine(message)];
    }

    /**
     * CrashDetect::PrintLines: works on its own copy of `text`, turning each
     * '\n' into a NUL and printing the C string that starts where the
     * previous line ended.
     */
    method PrintLines(text: string)
      modifies this`lines
      ensures lines == old(lines) + PrintedLines(text)
    {
      ghost var start := lines;
      var buffer := text;
      var current := 0;
      var i := 0;
      while i < |buffer|
        invariant |buffer| == |text| && 0 <= current <= i <= |text|
        invariant forall j :: current <= j < |text| ==> buffer[j] == text[j]
        invariant EndsLine(text[..current]) && forall j :: current <= j < i ==> text[j] != '\n'
        invariant lines == start + PrintedLines(text[..current])
      {
        if buffer[i] == '\n' {
          PrintLinesStep(text, buffer, current, i);
          buffer := buffer[i := '\0'];
          Printf(CString(buffer[current..]));
          AppendAssoc(start, PrintedLines(text[..current]), [DebugLine(CString(text[current..i]))]);
          current := i + 1;
        }
        i := i + 1;
      }
      assert text == text[..current] + text[current..];
      assert '\n' !in text[current..];
      PrintedLinesIgnoreTail(text[..current], text[current..]);
    }
  }

  /**
   * The static members of CrashDetect, one object for the whole process:
   * the guard that blocks nested error reports, the call records (the most
   * recent last) and the AMXService registry from machines to services.
   */
  class Statics {
    var blockExecErrors: bool
    var npCalls: seq<NPCall>
    var services: map<Amx, CrashDetect>

    constructor ()
      ensures !blockExecErrors && npCalls == [] && services == map[]
    {
      blockExecErrors, npCalls, services := false, [], map[];
    }

    /** Every recorded machine has its service (CrashDetect::Get finds it). */
    ghost predicate Registered()
      reads this`npCalls, this`services
    {
      forall i :: 0 <= i < |npCalls| ==> npCalls[i].amx in services && services[npCalls[i].amx].amx == npCalls[i].amx
    }
  }

  /** The machine of the most recent call record, as a frame. */
  function TopAmx(g: Statics): set<Amx>
    reads g`npCalls
  {
    if g.npCalls == [] then {} else {g.npCalls[|g.npCalls| - 1].amx}
  }

  /** The objects a script backtrace reads: the top machine and its service. */
  function TopFrame(g: Statics): set<object>
    reads g`npCalls, g`services
  {
    if g.npCalls == [] then {}
    else
      var top := g.npCalls[|g.npCalls| - 1].amx;
      if top in g.services then {top, g.services[top]} else {top}
  }

  /** What a script backtrace starts from: the call records, the top machine's CIP and FRM, and its walk context. */
  datatype WalkStart = NoRecords | Start(calls: seq<NPCall>, cip: int, frm: int, ctx: WalkCtx)

  /** The walk context of the most recent call record's machine. */
  function TopCtx(g: Statics, env: Env): WalkCtx
    reads g`npCalls, g`services, TopFrame(g)
    requires g.Registered() && g.npCalls != []
  {
    var top := g.npCalls[|g.npCalls| - 1].amx;
    var svc := g.services[top];
    WalkCtx(top, top.stack, top.stk, svc.debugInfo, svc.amxName, env)
  }

  /** The state PrintAmxBacktrace reads. */
  function TopStart(g: Statics, env: Env): WalkStart
    reads g`npCalls, g`services, TopFrame(g)
    requires g.Registered()
  {
    if g.npCalls == [] then NoRecords
    else
      var top := g.npCalls[|g.npCalls| - 1].amx;
      Start(g.npCalls, top.cip, top.frm, TopCtx(g, env))
  }

  /** The backtrace text for a starting state: nothing without records or when CIP is 0. */
  function StartText(s: WalkStart): (text: string)
    ensures text == "" <==> s.NoRecords? || s.cip == 0
  {
    if s.NoRecords? || s.cip == 0 then ""
    else BacktraceText(AmxBacktraceHeader, Walk(s.calls, s.cip, s.frm, 0, s.ctx).lines)
  }

  /**
   * PrintAmxBacktrace(stream): nothing without a call record or when the
   * top machine's CIP is 0; otherwise the header and the walk's lines.
   */
  function AmxBacktraceText(g: Statics, env: Env): (text: string)
    reads g`npCalls, g`services, TopFrame(g)
    requires g.Registered()
    ensures text == "" <==> g.npCalls == [] || g.npCalls[|g.npCalls| - 1].amx.cip == 0
  {
    StartText(TopStart(g, env))
  }

  /** What PrintAmxBacktrace() adds to the log. */
  function AmxBacktraceLog(g: Statics, env: Env): seq<string>
    reads g`npCalls, g`services, TopFrame(g)
    requires g.Registered()
  {
    PrintedLines(StartText(TopStart(g, env)))
  }

  /** The FRM the top machine has after the walk. */
  function FrmAfterBacktrace(g: Statics, env: Env): int
    reads g`npCalls, g`services, TopFrame(g)
    requires g.Registered() && g.npCalls != []
  {
    var s := TopStart(g, env);
    if s.cip == 0 then s.frm else FrmAfter(Walk(s.calls, s.cip, s.frm, 0, s.ctx), s.frm)
  }

  /**
   * PrintAmxBacktrace(stream): walks a copy of the call records. For each
   * public record it pushes CIP and FRM on the machine, points FRM at them
   * for the stack walker, and pops them again; the machine's stack and STK
   * come back as they were, and FRM keeps the value it was set back to
   * after the last public record.
   */
  method AmxBacktraceTo(g: Statics, env: Env) returns (text: string)
    requires g.Registered()
    modifies TopAmx(g)`stack, TopAmx(g)`stk, TopAmx(g)`frm
    ensures text == old(AmxBacktraceText(g, env))
    ensures g.npCalls != [] ==> g.npCalls[|g.npCalls| - 1].amx.stack == old(g.npCalls[|g.npCalls| - 1].amx.stack)
    ensures g.npCalls != [] ==> g.npCalls[|g.npCalls| - 1].amx.stk == old(g.npCalls[|g.npCalls| - 1].amx.stk)
    ensures g.npCalls != [] ==> g.npCalls[|g.npCalls| - 1].amx.frm == old(FrmAfterBacktrace(g, env))
  {
    if g.npCalls == [] {
      return "";
    }
    var top := g.npCalls[|g.npCalls| - 1].amx;
    if top.cip == 0 {
      return "";
    }
    assert top in g.services;
    text := WalkRecordsTo(top, g.npCalls, g.services, env, TopCtx(g, env));
  }

  /**
   * The walk of PrintAmxBacktrace(stream) over the call records, from the
   * top machine's CIP and FRM, once the header is due.
   */
  method WalkRecordsTo(top: Amx, records: seq<NPCall>, services: map<Amx, CrashDetect>, env: Env, ghost ctx: WalkCtx)
    returns (text: string)
    requires top in services
    requires ctx == WalkCtx(top, top.stack, top.stk, services[top].debugInfo, services[top].amxName, env)
    modifies top`stack, top`stk, top`frm
    ensures text == BacktraceText(AmxBacktraceHeader, Walk(records, old(top.cip), old(top.frm), 0, ctx).lines)
    ensures top.stack == old(top.stack) && top.stk == old(top.stk)
    ensures top.frm == FrmAfter(Walk(records, old(top.cip), old(top.frm), 0, ctx), old(top.frm))
  {
    text := AmxBacktraceHeader + "\n";
    var calls := records;
    var cip, frm := top.cip, top.frm;
    var level: nat := 0;
    ghost var whole := Walk(records, cip, frm, 0, ctx);
    ghost var frm0 := top.frm;
    ghost var printed: seq<BtLine> := [];
    assert Terminated(RenderAll([])) == "";
    assert text == BacktraceText(AmxBacktraceHeader, printed);
    while calls != [] && cip != 0 && calls[|calls| - 1].amx == top
      invariant top.stack == ctx.stack && top.stk == ctx.stk
      invariant level == |printed|
      invariant WalkRemains(whole, frm0, printed, calls, cip, frm, top.frm, ctx)
      invariant text == BacktraceText(AmxBacktraceHeader, printed)
      decreases |calls|
    {
      var call := calls[|calls| - 1];
      var amx := call.amx;
      if call.IsNative() {
        WalkNativeKeeps(whole, frm0, printed, calls, cip, frm, top.frm, ctx);
        text, level, printed := NativeRecordTo(amx, call, env, text, level, ctx, printed);
      } else {
        WalkPublicKeeps(whole, frm0, printed, calls, cip, frm, top.frm, ctx);
        var svc := services[amx];
        text, level, printed := PublicRecordTo(amx, call, cip, frm, svc.debugInfo, svc.amxName, env,
                                               text, level, ctx, printed);
        frm, cip := call.frm, call.cip;
      }
      calls := calls[..|calls| - 1];
    }
    ghost var r := Walk(calls, cip, frm, |printed|, ctx);
    assert r == WalkEnd([], None);
    assert whole.lines == printed + r.lines && FrmAfter(whole, frm0) == FrmAfter(r, top.frm);
    assert printed + r.lines == printed;
  }

  /** The part of PrintAmxBacktrace(stream) for one native record: a line unless its address is 0. */
  method NativeRecordTo(amx: Amx, call: NPCall, env: Env, text: string, level: nat,
                        ghost ctx: WalkCtx, ghost printed: seq<BtLine>)
    returns (text': string, level': nat, ghost printed': seq<BtLine>)
    requires ctx.top == amx && ctx.env == env
    requires text == BacktraceText(AmxBacktraceHeader, printed) && level == |printed|
    ensures printed' == printed + NativeRecordLines(ctx, call.index, level)
    ensures text' == BacktraceText(AmxBacktraceHeader, printed') && level' == |printed'|
  {
    var address := NativeAddress(amx.natives, call.index);
    if address != 0 {
      var line := NativeLine(level, NativeName(amx.natives, call.index), address,
                             env.fileName(env.modulePath(address)));
      BacktraceTextSnoc(AmxBacktraceHeader, printed, line);
      text', level', printed' := text + RenderLine(line) + "\n", level + 1, printed + [line];
    } else {
      text', level', printed' := text, level, printed;
      assert printed + [] == printed;
    }
  }

  /**
   * The part of PrintAmxBacktrace(stream) for one public record: CIP and
   * FRM pushed, FRM pointed at them, the stack walker's frames collected,
   * both cells popped again and FRM set back, then one numbered line per
   * frame.
   */
  method PublicRecordTo(amx: Amx, call: NPCall, cip: int, frm: int, debugInfo: DebugInfo, amxName: string,
                        env: Env, text: string, level: nat, ghost ctx: WalkCtx, ghost printed: seq<BtLine>)
    returns (text': string, level': nat, ghost printed': seq<BtLine>)
    requires ctx == WalkCtx(amx, amx.stack, amx.stk, debugInfo, amxName, env)
    requires text == BacktraceText(AmxBacktraceHeader, printed) && level == |printed|
    modifies amx`stack, amx`stk, amx`frm
    ensures amx.stack == old(amx.stack) && amx.stk == old(amx.stk) && amx.frm == frm
    ensures printed' == printed + PublicLines(ctx, PublicFrames(ctx, call, cip, frm), level)
    ensures text' == BacktraceText(AmxBacktraceHeader, printed') && level' == |printed'|
  {
    var frames := PublicFramesOf(amx, call, cip, frm, env, ctx);
    var from := if !debugInfo.IsLoaded() && amxName != "" then amxName else "";
    text', level', printed' := FrameLinesTo(frames, debugInfo, from, env, text, level, ctx, printed);
  }

  /**
   * The stack-walking half of one public record: CIP and FRM pushed, FRM
   * pointed at them, the stack walker's frames collected with the entry
   * point as the outermost caller, both cells popped again and FRM set back.
   */
  method PublicFramesOf(amx: Amx, call: NPCall, cip: int, frm: int, env: Env, ghost ctx: WalkCtx)
    returns (frames: seq<AmxStackFrame>)
    requires ctx.top == amx && ctx.stack == amx.stack && ctx.stk == amx.stk && ctx.env == env
    modifies amx`stack, amx`stk, amx`frm
    ensures amx.stack == old(amx.stack) && amx.stk == old(amx.stk) && amx.frm == frm
    ensures frames == PublicFrames(ctx, call, cip, frm)
  {
    ghost var stack0, stk0 := amx.stack, amx.stk;
    amx.PushStack(cip);
    amx.PushStack(frm);
    assert amx.stack == stack0 + [cip, frm] && amx.stk == stk0 - 2 * CellSize;
    amx.SetFrm(amx.stk);
    var trace := env.amxTrace(amx.stack, amx.frm);
    assert trace == env.amxTrace(ctx.stack + [cip, frm], ctx.stk - 2 * CellSize);
    var entry := PublicAddress(amx.publics, call.index);
    if trace != [] {
      frames := trace[..|trace| - 1] + [trace[|trace| - 1].(callerAddress := entry)];
    } else {
      frames := [AmxStackFrame(amx.frm, 0, 0, entry)];
    }
    assert frames == PublicFrames(ctx, call, cip, frm);
    var frm' := amx.PopStack();
    var cip' := amx.PopStack();
    assert amx.stack == stack0 && amx.stk == stk0;
    assert frm' == frm;
    amx.SetFrm(frm');
  }

  /** The numbered lines PrintAmxBacktrace writes for the frames of one public record. */
  method FrameLinesTo(frames: seq<AmxStackFrame>, debugInfo: DebugInfo, from: string, env: Env,
                      text: string, level: nat, ghost ctx: WalkCtx, ghost printed: seq<BtLine>)
    returns (text': string, level': nat, ghost printed': seq<BtLine>)
    requires debugInfo == ctx.info && env == ctx.env && from == FrameFrom(ctx)
    requires text == BacktraceText(AmxBacktraceHeader, printed) && level == |printed|
    ensures printed' == printed + PublicLines(ctx, frames, level)
    ensures text' == BacktraceText(AmxBacktraceHeader, printed') && level' == |printed'|
  {
    ghost var here := PublicLines(ctx, frames, level);
    text', level', printed' := text, level, printed;
    var i := 0;
    while i < |frames|
      invariant 0 <= i <= |frames| && level' == level + i
      invariant printed' == printed + here[..i] && level' == |printed'|
      invariant text' == BacktraceText(AmxBacktraceHeader, printed')
    {
      var line := FrameLine(level', env.printAmxFrame(frames[i], debugInfo), from);
      assert line == here[i];
      BacktraceTextSnoc(AmxBacktraceHeader, printed', line);
      TakeSnoc(printed, here, i);
      text' := text' + RenderLine(line) + "\n";
      printed' := printed' + [line];
      level' := level' + 1;
      i := i + 1;
    }
    assert here[..|frames|] == here;
  }

  /** One more element of `h` taken after `p`. */
  lemma TakeSnoc<T>(p: seq<T>, h: seq<T>, i: nat)
    requires i < |h|
    ensures p + h[..i + 1] == (p + h[..i]) + [h[i]]
  {
    assert h[..i + 1] == h[..i] + [h[i]];
  }

  /** PrintAmxBacktrace(): the backtrace text, printed line by line. */
  method PrintAmxBacktrace(g: Statics, log: Log, env: Env)
    requires g.Registered()
    modifies log`lines, TopAmx(g)`stack, TopAmx(g)`stk, TopAmx(g)`frm
    ensures log.lines == old(log.lines) + old(AmxBacktraceLog(g, env))
  {
    var text := AmxBacktraceTo(g, env);
    log.PrintLines(text);
  }

  /**
   * PrintNativeBacktrace(stream, context): a header and one numbered line
   * per host frame, followed by the frame's module path when it has one;
   * nothing when the host walker finds no frame.
   */
  method NativeBacktraceTo(env: Env, context: int) returns (text: string)
    ensures text == NativeBacktraceText(env, context)
  {
    var frames := env.nativeTrace(context);
    if frames == [] {
      return "";
    }
    text := NativeBacktraceHeader + "\n";
    ghost var all := NativeLines(frames, env);
    ghost var printed: seq<BtLine> := [];
    assert Terminated(RenderAll([])) == "";
    var level := 0;
    while level < |frames|
      invariant 0 <= level <= |frames| && |printed| == level
      invariant printed == all[..level]
      invariant text == BacktraceText(NativeBacktraceHeader, printed)
    {
      var frame := frames[level];
      var line := FrameLine(level, env.printNativeFrame(frame), env.modulePath(frame.returnAddress));
      BacktraceTextSnoc(NativeBacktraceHeader, printed, line);
      text := text + RenderLine(line) + "\n";
      printed := printed + [line];
      assert all[..level + 1] == all[..level] + [all[level]];
      level := level + 1;
    }
    assert all[..|frames|] == all;
  }

  /** PrintNativeBacktrace(context). */
  method PrintNativeBacktrace(log: Log, env: Env, context: int)
    modifies log`lines
    ensures log.lines == old(log.lines) + PrintedLines(NativeBacktraceText(env, context))
  {
    var text := NativeBacktraceTo(env, context);
    log.PrintLines(text);
  }

  /**
   * PrintError: the header, then the detail of the switch. NOTFOUND prints
   * one line per native still bound to address 0.
   */
  method PrintError(log: Log, amx: Amx, code: int, env: Env)
    modifies log`lines
    ensures log.lines == old(log.lines) + DebugLines(ErrorMessages(amx, code, env))
  {
    ghost var start := log.lines;
    var header := ErrorHeader(code, env);
    log.Printf(header);
    DebugLinesOne(header);
    ghost var more: seq<string>;
    if code == AMX_ERR_NOTFOUND {
      PrintUnresolved(log, amx.natives);
      more := UnresolvedNatives(amx.natives);
    } else {
      var detail := DetailLine(amx, code);
      if detail.Some? {
        log.Printf(detail.value);
        DebugLinesOne(detail.value);
      }
      more := OptionLines(detail);
    }
    assert ErrorMessages(amx, code, env) == [header] + more;
    assert log.lines == (start + DebugLines([header])) + DebugLines(more);
    DebugLinesAppend([header], more);
    AppendAssoc(start, DebugLines([header]), DebugLines(more));
  }

  /** The NOTFOUND part of PrintError: one line per native whose address is 0, in table order. */
  method PrintUnresolved(log: Log, natives: seq<Native>)
    modifies log`lines
    ensures log.lines == old(log.lines) + DebugLines(UnresolvedNatives(natives))
  {
    ghost var start := log.lines;
    var i := 0;
    assert natives[..0] == [];
    while i < |natives|
      invariant 0 <= i <= |natives|
      invariant log.lines == start + DebugLines(UnresolvedNatives(natives[..i]))
    {
      UnresolvedNativesSnoc(natives, i);
      if natives[i].address == 0 {
        log.Printf(" " + natives[i].name);
        DebugLinesAppend(UnresolvedNatives(natives[..i]), [" " + natives[i].name]);
        AppendAssoc(start, DebugLines(UnresolvedNatives(natives[..i])), [DebugLine(" " + natives[i].name)]);
      } else {
        assert UnresolvedNatives(natives[..i + 1]) == UnresolvedNatives(natives[..i]);
      }
      i := i + 1;
    }
    assert natives[..|natives|] == natives;
  }

  /** OnRuntimeError exists and left a non-zero `suppress`. */
  predicate Suppressed(publics: seq<Public>, scriptSuppress: int)
  {
    FindPublic(publics, OnRuntimeErrorName) >= 0 && scriptSuppress != 0
  }

  /** Whether DoAmxExec reports the error of a run: an early-return code, not blocked, not ignored, not suppressed. */
  predicate Reported(blocked: bool, code: int, index: int, publics: seq<Public>, scriptSuppress: int)
  {
    ReturnsEarly(code) && !blocked && !Ignored(code, index) && !Suppressed(publics, scriptSuppress)
  }

  /** The log lines of a reported error: nothing when suppressed, else the error, then the backtrace if the code has one. */
  function ErrorReport(amx: Amx, code: int, suppressed: bool, backtrace: string, env: Env): seq<string>
    reads amx
  {
    if suppressed then []
    else DebugLines(ErrorMessages(amx, code, env)) + (if PrintsBacktrace(code) then PrintedLines(backtrace) else [])
  }

  /** The directories Load searches before the entries of AMX_PATH. */
  const DefaultSearchPaths: seq<string> := ["gamemodes", "filterscripts"]

  /**
   * The search list of Load: "gamemodes", "filterscripts", then each
   * non-empty entry of AMX_PATH (`amxPathVar`, None when unset) in order.
   */
  method SearchPaths(amxPathVar: Option<string>, sep: char) returns (searchPaths: seq<string>)
    ensures searchPaths == DefaultSearchPaths + (if amxPathVar.Some? then NonEmpty(SplitOn(amxPathVar.value, sep)) else [])
  {
    searchPaths := DefaultSearchPaths;
    assert searchPaths + [] == searchPaths;
    if amxPathVar.Some? {
      var value := amxPathVar.value;
      var begin := 0;
      while begin < |value|
        invariant begin <= |value| + 1
        invariant searchPaths + PathsFrom(value, sep, begin) == DefaultSearchPaths + PathsFrom(value, sep, 0)
        decreases |value| - begin
      {
        var end := FindFrom(value, sep, begin);
        var path := value[begin..end];
        ghost var rest := PathsFrom(value, sep, end + 1);
        if path != "" {
          assert PathsFrom(value, sep, begin) == [path] + rest;
          AppendAssoc(searchPaths, [path], rest);
          searchPaths := searchPaths + [path];
        } else {
          assert PathsFrom(value, sep, begin) == [] + rest == rest;
        }
        begin := end + 1;
      }
      assert PathsFrom(value, sep, begin) == [];
      assert searchPaths + [] == searchPaths;
      PathsFromIsNonEmptySplit(value, sep, 0);
      assert value[0..] == value;
    }
  }

  /** One service per script: its machine, its debug information, its file and the host's native callback. */
  class CrashDetect {
    const amx: Amx
    var debugInfo: DebugInfo
    var amxPath: string
    var amxName: string
    var prevCallback: int

    constructor (amx: Amx)
      ensures this.amx == amx && debugInfo == NoDebugInfo && amxPath == "" && amxName == ""
      ensures prevCallback == 0
    {
      this.amx := amx;
      debugInfo, amxPath, amxName := NoDebugInfo, "", "";
      prevCallback := 0;
    }

    /**
     * Load: finds the script's file in "gamemodes", "filterscripts" and the
     * non-empty entries of AMX_PATH (`amxPathVar`, None when unset), loads
     * its debug information when the file was found and the program carries
     * some, and saves the host's callback.
     */
    method Load(env: Env, amxPathVar: Option<string>) returns (err: int)
      modifies this`debugInfo, this`amxPath, this`amxName, this`prevCallback
      ensures err == AMX_ERR_NONE
      ensures amxPath == env.findAmx(DefaultSearchPaths
                                     + (if amxPathVar.Some? then NonEmpty(SplitOn(amxPathVar.value, env.pathListSep)) else []))
      ensures amxName == env.fileName(amxPath)
      ensures debugInfo == (if amxPath != "" && amx.debugPresent then env.loadDebugInfo(amxPath) else old(debugInfo))
      ensures prevCallback == amx.callback
    {
      var searchPaths := SearchPaths(amxPathVar, env.pathListSep);
      amxPath := env.findAmx(searchPaths);
      amxName := env.fileName(amxPath);
      if amxPath != "" && amx.debugPresent {
        debugInfo := env.loadDebugInfo(amxPath);
      }
      prevCallback := amx.callback;
      return AMX_ERR_NONE;
    }

    /** Unload: nothing to release. */
    method Unload() returns (err: int)
      ensures err == AMX_ERR_NONE
    {
      return AMX_ERR_NONE;
    }

    /**
     * DoAmxCallback: a native record is on top of the call records while the
     * host's callback runs the native, and is gone afterwards; the
     * callback's error code comes back unchanged. `outcome` is that code.
     */
    method DoAmxCallback(g: Statics, index: int, outcome: int) returns (error: int, ghost during: seq<NPCall>)
      modifies g`npCalls, amx`cip, amx`frm, amx`stk, amx`hea, amx`pri, amx`stack
      ensures error == outcome
      ensures during == old(g.npCalls) + [NPCall(NATIVE, amx, index, old(amx.frm), old(amx.cip))]
      ensures g.npCalls == old(g.npCalls)
    {
      var call := NativeCall(amx, index);
      g.npCalls := g.npCalls + [call];
      during := g.npCalls;
      error := amx.CallNative(index, outcome);
      g.npCalls := g.npCalls[..|g.npCalls| - 1];
    }

    /**
     * DoAmxExec: a public record is on top of the call records while the
     * script runs; for the codes amx_Exec returns early with, the error is
     * reported before the record is removed. `outcome` is the error code of
     * the run, `scriptSuppress` what OnRuntimeError leaves in `suppress`,
     * `nestedError` the error OnRuntimeError itself raises.
     */
    method DoAmxExec(g: Statics, log: Log, index: int, outcome: int, scriptSuppress: int, nestedError: int, env: Env)
      returns (error: int, ghost during: seq<NPCall>)
      requires g.Registered() && amx in g.services && g.services[amx] == this
      modifies g`npCalls, g`blockExecErrors, log`lines,
        amx`cip, amx`frm, amx`stk, amx`hea, amx`pri, amx`stack
      ensures error == outcome
      ensures during == old(g.npCalls) + [NPCall(PUBLIC, amx, index, old(amx.frm), old(amx.cip))]
      ensures g.npCalls == old(g.npCalls) && g.blockExecErrors == old(g.blockExecErrors)
      ensures Reported(old(g.blockExecErrors), outcome, index, amx.publics, scriptSuppress)
              ==> log.lines == old(log.lines) + DebugLines(ErrorMessages(amx, outcome, env))
      ensures !Reported(old(g.blockExecErrors), outcome, index, amx.publics, scriptSuppress)
              ==> log.lines == old(log.lines)
    {
      ghost var records, start := g.npCalls, log.lines;
      var call := PublicCall(amx, index);
      g.npCalls := g.npCalls + [call];
      during := g.npCalls;
      error := amx.Exec(index, outcome);
      if error == AMX_ERR_CALLBACK || error == AMX_ERR_NOTFOUND || error == AMX_ERR_INIT
         || error == AMX_ERR_INDEX || error == AMX_ERR_SLEEP {
        assert TopAmx(g) == {amx};
        var _ := HandleExecError(g, log, index, error, scriptSuppress, nestedError, env);
        EarlyReturnsPrintNoBacktrace(error, index);
        if Reported(old(g.blockExecErrors), outcome, index, amx.publics, scriptSuppress) {
          ghost var messages := DebugLines(ErrorMessages(amx, outcome, env));
          assert log.lines == start + (messages + []);
          assert messages + [] == messages;
        }
      }
      assert (records + [call])[..|records|] == records;
      g.npCalls := g.npCalls[..|g.npCalls| - 1];
    }

    /**
     * HandleExecError: nothing happens while another report is under way,
     * for a normal return, for sleep, or for sampgdk's INDEX. Otherwise the
     * guard is raised, the backtrace is captured, OnRuntimeError (when the
     * script has it) runs with the code and may suppress the report, the
     * report is printed, and the guard is lowered. The detail lines are read
     * from the machine after OnRuntimeError ran; the backtrace from the
     * state before. An error OnRuntimeError raises (`nestedError`) reaches
     * HandleExecError again while the guard is up and is dropped: the log
     * below does not depend on it. `guardDuringCallback` is the guard as
     * OnRuntimeError starts.
     */
    method HandleExecError(g: Statics, log: Log, index: int, code: int, scriptSuppress: int, nestedError: int, env: Env)
      returns (ghost guardDuringCallback: bool)
      requires g.Registered()
      modifies g`blockExecErrors, log`lines,
        amx`cip, amx`frm, amx`stk, amx`hea, amx`pri, amx`stack, TopAmx(g)`stack, TopAmx(g)`stk, TopAmx(g)`frm
      ensures g.blockExecErrors == old(g.blockExecErrors)
      ensures old(g.blockExecErrors) || Ignored(code, index) ==>
        log.lines == old(log.lines) && unchanged(amx) && unchanged(TopAmx(g))
      ensures !old(g.blockExecErrors) && !Ignored(code, index) ==>
        log.lines == old(log.lines)
          + ErrorReport(amx, code, Suppressed(amx.publics, scriptSuppress), old(AmxBacktraceText(g, env)), env)
      ensures !old(g.blockExecErrors) && !Ignored(code, index) && FindPublic(amx.publics, OnRuntimeErrorName) >= 0
              ==> guardDuringCallback
      decreases if g.blockExecErrors then 0 else 1
    {
      guardDuringCallback := false;
      if g.blockExecErrors {
        return;
      }
      if code == AMX_ERR_NONE || code == AMX_ERR_SLEEP {
        return;
      }
      if code == AMX_ERR_INDEX && index == AMX_EXEC_GDK {
        return;
      }
      ghost var start := TopStart(g, env);
      g.blockExecErrors := true;
      assert TopStart(g, env) == start;
      var backtrace := AmxBacktraceTo(g, env);
      var callbackIndex := FindPublic(amx.publics, OnRuntimeErrorName);
      var suppress := 0;
      if callbackIndex >= 0 {
        // OnRuntimeError(code, &suppress) runs with further reports blocked:
        // the error it raises comes back here and is dropped.
        guardDuringCallback := g.blockExecErrors;
        var nested := amx.Exec(callbackIndex, nestedError);
        ghost var before := log.lines;
        var _ := HandleExecError(g, log, callbackIndex, nested, scriptSuppress, nestedError, env);
        assert log.lines == before;
        suppress := scriptSuppress;
      }
      assert suppress != 0 <==> Suppressed(amx.publics, scriptSuppress);
      ReportError(log, code, suppress != 0, backtrace, env);
      g.blockExecErrors := false;
    }

    /** The printing half of HandleExecError: the error, then the backtrace when the code has one. */
    method ReportError(log: Log, code: int, suppressed: bool, backtrace: string, env: Env)
      modifies log`lines
      ensures log.lines == old(log.lines) + ErrorReport(amx, code, suppressed, backtrace, env)
    {
      if suppressed {
        assert log.lines + [] == log.lines;
        return;
      }
      ghost var before := log.lines;
      PrintError(log, amx, code, env);
      ghost var messages := DebugLines(ErrorMessages(amx, code, env));
      assert log.lines == before + messages;
      if code != AMX_ERR_NOTFOUND && code != AMX_ERR_INDEX && code != AMX_ERR_CALLBACK && code != AMX_ERR_INIT {
        assert PrintsBacktrace(code);
        log.PrintLines(backtrace);
        AppendAssoc(before, messages, PrintedLines(backtrace));
      } else {
        assert !PrintsBacktrace(code);
        assert messages + [] == messages;
      }
    }

    /** HandleException: names the script, then prints the script backtrace. */
    method HandleException(g: Statics, log: Log, env: Env)
      requires g.Registered()
      modifies log`lines, TopAmx(g)`stack, TopAmx(g)`stk, TopAmx(g)`frm
      ensures log.lines == old(log.lines) + [DebugLine(CrashedIn + CString(amxName))]
                           + old(AmxBacktraceLog(g, env))
    {
      ghost var start := TopStart(g, env);
      log.Printf(CrashedIn + CString(amxName));
      assert TopStart(g, env) == start;
      PrintAmxBacktrace(g, log, env);
    }

    /** HandleInterrupt: names the script, then prints the script backtrace. */
    method HandleInterrupt(g: Statics, log: Log, env: Env)
      requires g.Registered()
      modifies log`lines, TopAmx(g)`stack, TopAmx(g)`stk, TopAmx(g)`frm
      ensures log.lines == old(log.lines) + [DebugLine(InterruptedIn + CString(amxName))]
                           + old(AmxBacktraceLog(g, env))
    {
      ghost var start := TopStart(g, env);
      log.Printf(InterruptedIn + CString(amxName));
      assert TopStart(g, env) == start;
      PrintAmxBacktrace(g, log, env);
    }
  }

  /** The service of the most recent call record's machine. */
  function TopService(g: Statics): CrashDetect
    reads g`npCalls, g`services
    requires g.Registered() && g.npCalls != []
  {
    g.services[g.npCalls[|g.npCalls| - 1].amx]
  }

  /**
   * OnException: with a call record, the service of the top record's
   * machine reports the crash with its script backtrace; without one the
   * crash is reported as unknown. The host backtrace follows either way.
   */
  method OnException(g: Statics, log: Log, env: Env, context: int)
    requires g.Registered()
    modifies log`lines, TopAmx(g)`stack, TopAmx(g)`stk, TopAmx(g)`frm
    ensures log.lines == old(log.lines)
      + (if old(g.npCalls) == [] then [DebugLine(CrashedUnknown)]
         else [DebugLine(CrashedIn + CString(old(TopService(g).amxName)))]
              + old(AmxBacktraceLog(g, env)))
      + PrintedLines(NativeBacktraceText(env, context))
  {
    ghost var start := log.lines;
    ghost var head := if g.npCalls == [] then [DebugLine(CrashedUnknown)]
                      else [DebugLine(CrashedIn + CString(TopService(g).amxName))] + AmxBacktraceLog(g, env);
    if g.npCalls != [] {
      var svc := g.services[g.npCalls[|g.npCalls| - 1].amx];
      svc.HandleException(g, log, env);
      AppendAssoc(start, [DebugLine(CrashedIn + CString(svc.amxName))], old(AmxBacktraceLog(g, env)));
    } else {
      log.Printf(CrashedUnknown);
    }
    assert log.lines == start + head;
    PrintNativeBacktrace(log, env, context);
  }

  /** OnInterrupt: as OnException, for an interrupt signal. */
  method OnInterrupt(g: Statics, log: Log, env: Env, context: int)
    requires g.Registered()
    modifies log`lines, TopAmx(g)`stack, TopAmx(g)`stk, TopAmx(g)`frm
    ensures log.lines == old(log.lines)
      + (if old(g.npCalls) == [] then [DebugLine(InterruptedUnknown)]
         else [DebugLine(InterruptedIn + CString(old(TopService(g).amxName)))]
              + old(AmxBacktraceLog(g, env)))
      + PrintedLines(NativeBacktraceText(env, context))
  {
    ghost var start := log.lines;
    ghost var head := if g.npCalls == [] then [DebugLine(InterruptedUnknown)]
                      else [DebugLine(InterruptedIn + CString(TopService(g).amxName))] + AmxBacktraceLog(g, env);
    if g.npCalls != [] {
      var svc := g.services[g.npCalls[|g.npCalls| - 1].amx];
      svc.HandleInterrupt(g, log, env);
      AppendAssoc(start, [DebugLine(InterruptedIn + CString(svc.amxName))], old(AmxBacktraceLog(g, env)));
    } else {
      log.Printf(InterruptedUnknown);
    }
    assert log.lines == start + head;
    PrintNativeBacktrace(log, env, context);
  }
}
