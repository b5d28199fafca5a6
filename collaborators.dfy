/**
 * Code the crash reporter calls but whose definition is not part of this
 * model, as opaque functions: the error-message table, the script and host
 * stack walkers and their frame printers, the module-path query, the path
 * finder and the debug-info loader.
 */
module Collaborators {
  import opened AmxDebugInfo

  /** One frame of a script backtrace (AMXStackFrame). */
  datatype AmxStackFrame = AmxStackFrame(frameAddress: int, returnAddress: int,
                                         calleeAddress: int, callerAddress: int)

  /** One frame of a host backtrace (StackFrame). */
  datatype NativeStackFrame = NativeStackFrame(returnAddress: int, frameAddress: int)

  datatype Env = Env(
    /** AMXError::GetString: the message of an error code. */
    errorString: int -> string,
    /**
     * AMXStackTrace started at frame `frm` over a machine whose stack holds
     * `stack`: the frames it yields, innermost first.
     */
    amxTrace: (seq<int>, int) -> seq<AmxStackFrame>,
    /** AMXStackFrame::Print with the script's debug information. */
    printAmxFrame: (AmxStackFrame, DebugInfo) -> string,
    /** StackTrace(context).GetFrames(): the host frames of a crash context. */
    nativeTrace: int -> seq<NativeStackFrame>,
    /** StackFrame::Print. */
    printNativeFrame: NativeStackFrame -> string,
    /** os::GetModulePathFromAddr: the path of the module containing an address, or "". */
    modulePath: int -> string,
    /** fileutils::GetFileName: the last component of a path. */
    fileName: string -> string,
    /** fileutils::kNativePathListSepChar: ':' on Unix, ';' on Windows. */
    pathListSep: char,
    /** AMXPathFinder::FindAmx over the given search paths, in order: the script's file, or "". */
    findAmx: seq<string> -> string,
    /** AMXDebugInfo::Load: the debug information read from a script file. */
    loadDebugInfo: string -> DebugInfo,
    /** The lookups of a script's debug information. */
    queries: DebugInfo -> Queries)
}
