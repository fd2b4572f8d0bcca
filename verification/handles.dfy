/** The console-handle wrapper (`cons_ud`): a HANDLE with the kind of
    wrapper that made it. A screen buffer is owned by its wrapper and closed
    through it at most once; a standard handle belongs to the process and is
    never closed. */
module Handles {
  import opened Results
  import opened LuaValues
  import opened FlagResolver
  import opened ConsoleApi

  datatype HandleKind = StandardConsole | ScreenBuffer

  class ConsoleHandle {
    /** The wrapped HANDLE; INVALID_HANDLE_VALUE once closed. */
    var hnd: Handle
    /** The kind, fixed at creation. */
    const kind: HandleKind
    /** The handle the wrapper was created around. */
    ghost const origin: Handle
    /** The handles passed to CloseHandle through this wrapper, in order. */
    ghost var closeLog: seq<Handle>

    /** A wrapper holds the handle it was made with until a screen buffer is
        closed, and a screen buffer is closed exactly once, with that handle. */
    ghost predicate Valid()
      reads this
    {
      && origin != INVALID_HANDLE_VALUE
      && (kind == StandardConsole ==> hnd == origin && closeLog == [])
      && (kind == ScreenBuffer ==>
            (hnd == origin && closeLog == []) || (hnd == INVALID_HANDLE_VALUE && closeLog == [origin]))
    }

    /** Wrappers are only made around a valid handle. */
    constructor (h: Handle, k: HandleKind)
      requires h != INVALID_HANDLE_VALUE
      ensures Valid()
      ensures hnd == h && kind == k && origin == h && closeLog == []
    {
      hnd := h;
      kind := k;
      origin := h;
      closeLog := [];
    }

    /** check_console_handle: the handle of an open wrapper, or an argument
        error on stack slot `index` once it has been closed. */
    function Check(index: int): (r: Result<Handle>)
      reads this
      ensures r.Err? <==> hnd == INVALID_HANDLE_VALUE
      ensures r.Err? ==> r.error == ArgError(index, "access to closed handle")
      ensures r.Ok? ==> r.value == hnd && r.value != INVALID_HANDLE_VALUE
    {
      if hnd == INVALID_HANDLE_VALUE then Err(ArgError(index, "access to closed handle")) else Ok(hnd)
    }

    /** consolehandle_close: an open screen buffer is passed to CloseHandle
        and marked closed; anything else is left as it is, so a second close
        is a silent no-op and a standard handle is never closed. */
    method Close() returns (calls: seq<ApiCall>)
      requires Valid()
      modifies this
      ensures Valid()
      ensures old(kind == ScreenBuffer && hnd != INVALID_HANDLE_VALUE) ==>
                hnd == INVALID_HANDLE_VALUE && calls == [CloseHandleCall(old(hnd))]
                && closeLog == old(closeLog) + [old(hnd)]
      ensures !old(kind == ScreenBuffer && hnd != INVALID_HANDLE_VALUE) ==>
                hnd == old(hnd) && calls == [] && closeLog == old(closeLog)
      ensures |closeLog| <= 1
    {
      calls := [];
      if kind == ScreenBuffer && hnd != INVALID_HANDLE_VALUE {
        calls := [CloseHandleCall(hnd)];
        closeLog := closeLog + [hnd];
        hnd := INVALID_HANDLE_VALUE;
      }
    }

    /** consolehandle_gc: the collector's finaliser does what close does. */
    method Gc() returns (calls: seq<ApiCall>)
      requires Valid()
      modifies this
      ensures Valid()
      ensures old(kind == ScreenBuffer && hnd != INVALID_HANDLE_VALUE) ==>
                hnd == INVALID_HANDLE_VALUE && calls == [CloseHandleCall(old(hnd))]
                && closeLog == old(closeLog) + [old(hnd)]
      ensures !old(kind == ScreenBuffer && hnd != INVALID_HANDLE_VALUE) ==>
                hnd == old(hnd) && calls == [] && closeLog == old(closeLog)
      ensures |closeLog| <= 1
    {
      calls := Close();
    }
  }

  /** f_GetStdHandle: resolves argument 1 as a flag before calling the
      system; `reply` is the handle the system returns. An invalid reply
      gives nil, any other a new standard-console wrapper around it. */
  method GetStdHandle(flags: FlagTable, arg: Value, reply: Handle)
    returns (r: Result<Option<ConsoleHandle>>, calls: seq<ApiCall>)
    ensures CheckEnvFlag(flags, arg, 1).Err? ==> r == Err(ArgError(1, "invalid flag")) && calls == []
    ensures CheckEnvFlag(flags, arg, 1).Ok? ==> calls == [GetStdHandleCall(CheckEnvFlag(flags, arg, 1).value)]
    ensures CheckEnvFlag(flags, arg, 1).Ok? && reply == INVALID_HANDLE_VALUE ==> r == Ok(None)
    ensures CheckEnvFlag(flags, arg, 1).Ok? && reply != INVALID_HANDLE_VALUE ==>
              r.Ok? && r.value.Some? && fresh(r.value.value) && r.value.value.Valid()
              && r.value.value.hnd == reply && r.value.value.kind == StandardConsole
  {
    var nStdHandle := CheckEnvFlag(flags, arg, 1);
    if nStdHandle.Err? {
      return Err(nStdHandle.error), [];
    }
    calls := [GetStdHandleCall(nStdHandle.value)];
    if reply == INVALID_HANDLE_VALUE {
      r := Ok(None);
    } else {
      var ud := new ConsoleHandle(reply, StandardConsole);
      r := Ok(Some(ud));
    }
  }

  /** f_CreateConsoleScreenBuffer: resolves arguments 1, 2 and 3 as flag
      combinations, in that order, before calling the system; `reply` is the
      handle the system returns. An invalid reply gives nil, any other a new
      screen-buffer wrapper around it. */
  method CreateConsoleScreenBuffer(flags: FlagTable, access: Value, shareMode: Value, bufferFlags: Value, reply: Handle)
    returns (r: Result<Option<ConsoleHandle>>, calls: seq<ApiCall>)
    ensures (FlagCombination(flags, access).None? || FlagCombination(flags, shareMode).None?
             || FlagCombination(flags, bufferFlags).None?) ==>
              r == Err(RuntimeError("invalid flag combination")) && calls == []
    ensures FlagCombination(flags, access).Some? && FlagCombination(flags, shareMode).Some?
            && FlagCombination(flags, bufferFlags).Some? ==>
              calls == [CreateConsoleScreenBufferCall(FlagCombination(flags, access).value,
                                                      FlagCombination(flags, shareMode).value,
                                                      FlagCombination(flags, bufferFlags).value)]
              && (reply == INVALID_HANDLE_VALUE ==> r == Ok(None))
              && (reply != INVALID_HANDLE_VALUE ==>
                    r.Ok? && r.value.Some? && fresh(r.value.value) && r.value.value.Valid()
                    && r.value.value.hnd == reply && r.value.value.kind == ScreenBuffer)
  {
    var dwDesiredAccess := CheckFlags(flags, access);
    if dwDesiredAccess.Err? {
      return Err(dwDesiredAccess.error), [];
    }
    var dwShareMode := CheckFlags(flags, shareMode);
    if dwShareMode.Err? {
      return Err(dwShareMode.error), [];
    }
    var dwFlags := CheckFlags(flags, bufferFlags);
    if dwFlags.Err? {
      return Err(dwFlags.error), [];
    }
    calls := [CreateConsoleScreenBufferCall(dwDesiredAccess.value, dwShareMode.value, dwFlags.value)];
    if reply == INVALID_HANDLE_VALUE {
      r := Ok(None);
    } else {
      var ud := new ConsoleHandle(reply, ScreenBuffer);
      r := Ok(Some(ud));
    }
  }
}
