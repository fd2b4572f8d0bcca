/** The slice of the Win32 console API the binding calls. The operating
    system is not modelled: each operation that calls into it takes the
    system's reply as a parameter and returns the calls it made, with their
    arguments, so that contracts can say which calls happen and in what order. */
module ConsoleApi {
  import opened NativeTypes
  import opened RecordCodec

  /** A HANDLE is an opaque pointer; INVALID_HANDLE_VALUE is `(HANDLE)-1`. */
  type Handle = int

  const INVALID_HANDLE_VALUE: Handle := -1

  /** COORD: a column and a row. */
  datatype Coord = Coord(x: Short, y: Short)

  /** SMALL_RECT: the corners of a rectangle of cells. */
  datatype SmallRect = SmallRect(left: Short, top: Short, right: Short, bottom: Short)

  /** CHAR_INFO as the binding fills it: the AsciiChar byte of the character
      cell and the attribute word. */
  datatype CharInfo = CharInfo(asciiChar: Char, attributes: Word)

  /** Which of the two input-buffer calls ReadOrPeekConsoleInput makes. */
  datatype InputOp = Read | Peek

  /** One call into the console API, with the arguments the binding passes. */
  datatype ApiCall =
    | GetStdHandleCall(nStdHandle: DWord)
    | CreateConsoleScreenBufferCall(dwDesiredAccess: DWord, dwShareMode: DWord, dwFlags: DWord)
    | CloseHandleCall(hObject: Handle)
    | ConsoleInputCall(op: InputOp, hConsoleInput: Handle, nLength: DWord)
    | WriteConsoleInputCall(hConsoleInput: Handle, records: seq<InputRecord>)
    | WriteConsoleOutputCall(hConsoleOutput: Handle, cells: seq<CharInfo>, dwBufferSize: Coord,
                             dwBufferCoord: Coord, writeRegion: SmallRect)
}
