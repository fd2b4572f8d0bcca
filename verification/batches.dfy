/** The batch operations: ReadOrPeekConsoleInput builds a list of record
    tables from the records the system returns; WriteConsoleInput and
    WriteConsoleOutput check their arguments, stage a native buffer element
    by element and hand it to the system. Each takes the system's reply as
    parameters and returns the console calls it made. */
module Batches {
  import opened Results
  import opened NativeTypes
  import opened LuaValues
  import opened FlagResolver
  import opened RecordCodec
  import opened ConsoleApi
  import opened Handles

  // ---- Staging: element k of a 1-based list into slot k-1 of a buffer ----

  /** The buffer a staging loop fills from elements 1..n, where `f(k)` is
      what element k becomes; the first element that fails aborts the loop
      with its error. */
  function Stage<T>(f: nat -> Result<T>, n: nat): Result<seq<T>>
  {
    if n == 0 then Ok([])
    else match Stage(f, n - 1)
      case Err(e) => Err(e)
      case Ok(xs) =>
        match f(n)
        case Err(e) => Err(e)
        case Ok(x) => Ok(xs + [x])
  }

  /** Staging succeeds exactly when every element converts, and then slot
      k-1 holds what element k converts to. */
  lemma {:induction false} StageOk<T>(f: nat -> Result<T>, n: nat)
    ensures Stage(f, n).Ok? <==> forall k :: 1 <= k <= n ==> f(k).Ok?
    ensures Stage(f, n).Ok? ==>
              |Stage(f, n).value| == n && forall k :: 1 <= k <= n ==> f(k) == Ok(Stage(f, n).value[k - 1])
  {
    if n > 0 {
      StageOk(f, n - 1);
    }
  }

  /** A failed staging reports the error of the first element that fails. */
  lemma {:induction false} StageFirstError<T>(f: nat -> Result<T>, n: nat)
    requires Stage(f, n).Err?
    ensures exists k :: 1 <= k <= n && f(k) == Err(Stage(f, n).error) && forall j :: 1 <= j < k ==> f(j).Ok?
  {
    StageOk(f, n - 1);
    if Stage(f, n - 1).Err? {
      StageFirstError(f, n - 1);
    } else {
      assert f(n) == Err(Stage(f, n).error);
    }
  }

  /** Once an element has failed, staging more elements keeps that error. */
  lemma {:induction false} StageErrorPersists<T>(f: nat -> Result<T>, k: nat, n: nat)
    requires k <= n && Stage(f, k).Err?
    ensures Stage(f, n) == Stage(f, k)
    decreases n - k
  {
    if k < n {
      StageErrorPersists(f, k + 1, n);
    }
  }

  /** One more step of a staging loop. */
  lemma StageStep<T>(f: nat -> Result<T>, i: nat, xs: seq<T>)
    requires Stage(f, i) == Ok(xs)
    ensures f(i + 1).Err? ==> Stage(f, i + 1) == Err(f(i + 1).error)
    ensures f(i + 1).Ok? ==> Stage(f, i + 1) == Ok(xs + [f(i + 1).value])
  {
  }

  /** A staging loop that stores the next element's value into slot i of
      its buffer keeps the staged prefix equal to the buffer's first i+1 slots. */
  lemma StageStored<T>(f: nat -> Result<T>, i: nat, before: seq<T>, after: seq<T>)
    requires i < |before| && Stage(f, i) == Ok(before[..i])
    requires f(i + 1).Ok? && after == before[i := f(i + 1).value]
    ensures Stage(f, i + 1) == Ok(after[..i + 1])
  {
    StageStep(f, i, before[..i]);
    assert after[..i + 1] == before[..i] + [f(i + 1).value];
  }

  /** Element k of table `t` decoded by FillInputRecord with its error
      reported on stack slot `pos`. */
  function RecordSlots(flags: FlagTable, t: Value, pos: int): nat -> Result<InputRecord>
  {
    k => DecodeRecord(flags, Get(t, Index(k)), pos)
  }

  function EncodeAll(rs: seq<InputRecord>): (vs: seq<Value>)
    ensures |vs| == |rs| && forall j :: 0 <= j < |rs| ==> vs[j] == InputRecordToTable(rs[j])
  {
    seq(|rs|, j requires 0 <= j < |rs| => InputRecordToTable(rs[j]))
  }

  function CanonicalAll(rs: seq<InputRecord>): (cs: seq<InputRecord>)
    ensures |cs| == |rs| && forall j :: 0 <= j < |rs| ==> cs[j] == Canonical(rs[j])
  {
    seq(|rs|, j requires 0 <= j < |rs| => Canonical(rs[j]))
  }

  // ---- ReadConsoleInput / PeekConsoleInput ----

  /** The record count argument: luaL_checkinteger (a type error if it is
      not a number) stored into a DWORD, which must then be non-zero. A
      negative count is not rejected: it wraps to a large DWORD. */
  function RecordCount(count: Value): (r: Result<DWord>)
    ensures ToNumber(count).None? ==> r == Err(TypeError(2, "number"))
    ensures r.Ok? <==> ToNumber(count).Some? && ToDWord(ToNumber(count).value) != 0
    ensures ToNumber(count).Some? && r.Err? ==> r.error == ArgError(2, "invalid number of records")
    ensures r.Ok? ==> r.value == ToDWord(ToNumber(count).value) && r.value > 0
  {
    match ToNumber(count)
    case None => Err(TypeError(2, "number"))
    case Some(n) =>
      var nLength := ToDWord(n);
      if nLength > 0 then Ok(nLength) else Err(ArgError(2, "invalid number of records"))
  }

  /** -1 asks for 4294967295 records, and 2^32 is rejected as 0. */
  lemma RecordCountWraps()
    ensures RecordCount(Num(-1)) == Ok(0xFFFF_FFFF)
    ensures RecordCount(Str("-1")) == Ok(0xFFFF_FFFF)
    ensures RecordCount(Num(0x1_0000_0000)) == Err(ArgError(2, "invalid number of records"))
  {
    assert ParseDigits("1") == Some(1);
    assert "-1"[1..] == "1";
  }

  /** sizeof(INPUT_RECORD): a WORD tag, two bytes of padding and a 16-byte union. */
  const SIZEOF_INPUT_RECORD: nat := 20

  /** The byte count ReadOrPeekConsoleInput passes to lua_newuserdata, as
      the C expression computes it in a 32-bit build: a DWORD times a 32-bit
      size_t, which wraps. */
  function AllocationBytes32(nLength: DWord): (b: DWord)
    ensures (nLength * SIZEOF_INPUT_RECORD - b) % 0x1_0000_0000 == 0
  {
    (nLength * SIZEOF_INPUT_RECORD) % 0x1_0000_0000
  }

  /** A count the argument check accepts gets, in a 32-bit build, a buffer
      of 4 bytes: too small for even one record, while the system may write
      up to nLength records into it. */
  lemma AllocationWraps32()
    ensures RecordCount(Num(0x0CCC_CCCD)) == Ok(0x0CCC_CCCD)
    ensures AllocationBytes32(0x0CCC_CCCD) == 4 < SIZEOF_INPUT_RECORD
  {
  }

  /** The size the buffer needs: room for nLength records. */
  function AllocationBytes(nLength: DWord): nat
  {
    nLength * SIZEOF_INPUT_RECORD
  }

  /** The 32-bit computation gives the intended size exactly when the
      product fits in 32 bits, that is for every count up to 0x0CCCCCCC;
      above that it always falls short. */
  lemma AllocationExact(nLength: DWord)
    ensures AllocationBytes32(nLength) == AllocationBytes(nLength)
            <==> nLength * SIZEOF_INPUT_RECORD < 0x1_0000_0000
    ensures AllocationBytes32(nLength) == AllocationBytes(nLength) <==> nLength <= 0x0CCC_CCCC
    ensures AllocationBytes32(nLength) <= AllocationBytes(nLength)
  {
  }

  /** ReadOrPeekConsoleInput: validates the handle and the count, then
      makes one Read or Peek call. `ok` and `records` are the system's reply
      (success, and the records it wrote to the front of the buffer). On
      success the result is the list whose entry i+1 is the table of record
      i; on failure it is nil. */
  method ReadOrPeekConsoleInput(h: ConsoleHandle, op: InputOp, count: Value, ok: bool, records: seq<InputRecord>)
    returns (r: Result<Value>, calls: seq<ApiCall>)
    requires RecordCount(count).Ok? ==> |records| <= RecordCount(count).value
    ensures h.hnd == INVALID_HANDLE_VALUE ==> r == Err(ArgError(1, "access to closed handle")) && calls == []
    ensures h.hnd != INVALID_HANDLE_VALUE && RecordCount(count).Err? ==>
              r == Err(RecordCount(count).error) && calls == []
    ensures h.hnd != INVALID_HANDLE_VALUE && RecordCount(count).Ok? ==>
              calls == [ConsoleInputCall(op, h.hnd, RecordCount(count).value)]
              && r == if ok then Ok(Table(ListEntries(EncodeAll(records)))) else Ok(Nil)
  {
    var hnd := h.Check(1);
    if hnd.Err? {
      return Err(hnd.error), [];
    }
    var nLength := RecordCount(count);
    if nLength.Err? {
      return Err(nLength.error), [];
    }
    var pBuffer := new InputRecord[nLength.value];
    calls := [ConsoleInputCall(op, hnd.value, nLength.value)];
    if !ok {
      return Ok(Nil), calls;
    }
    // The system writes the records it returns to the front of the buffer.
    forall j | 0 <= j < |records| {
      pBuffer[j] := records[j];
    }
    var nRead := |records|;
    var list: map<Key, Value> := map[];
    var i := 0;
    while i < nRead
      invariant 0 <= i <= nRead
      invariant list == ListEntries(EncodeAll(pBuffer[..i]))
    {
      assert EncodeAll(pBuffer[..i + 1])[..i] == EncodeAll(pBuffer[..i]);
      list := list[Index(i + 1) := InputRecordToTable(pBuffer[i])];
      i := i + 1;
    }
    assert pBuffer[..nRead] == records;
    r := Ok(Table(list));
  }

  /** The result of a successful read is a proper list of exactly the
      records returned: its length is the record count, and entry i+1 is the
      table of record i. */
  lemma ReadResultIsList(records: seq<InputRecord>)
    ensures ListPrefix(ListEntries(EncodeAll(records)), 1) == EncodeAll(records)
    ensures IsBorder(Table(ListEntries(EncodeAll(records))), |records|)
    ensures forall n: nat :: IsBorder(Table(ListEntries(EncodeAll(records))), n) ==> n == |records|
  {
    ListOfListEntries(EncodeAll(records));
  }

  // ---- WriteConsoleInput ----

  /** What WriteConsoleInput stages from a table of `n` records; errors
      name stack slot `pos`, the slot the element occupies above the
      arguments and the buffer. */
  function StageRecords(flags: FlagTable, t: Value, n: nat, pos: int): Result<seq<InputRecord>>
  {
    Stage(RecordSlots(flags, t, pos), n)
  }

  /** The staging loop of f_WriteConsoleInput: a fresh buffer of `n`
      records, element i+1 of `arr` decoded into slot i by FillInputRecord,
      stopping at the first element that fails. */
  method StageInputBuffer(flags: FlagTable, arr: Value, n: nat, pos: int)
    returns (err: Option<Error>, lpBuffer: array<InputRecord>)
    ensures fresh(lpBuffer) && lpBuffer.Length == n
    ensures err.None? ==> StageRecords(flags, arr, n, pos) == Ok(lpBuffer[..])
    ensures err.Some? ==> StageRecords(flags, arr, n, pos) == Err(err.value)
  {
    lpBuffer := new InputRecord[n];
    ghost var f := RecordSlots(flags, arr, pos);
    var i := 0;
    while i < n
      invariant 0 <= i <= n
      invariant Stage(f, i) == Ok(lpBuffer[..i])
    {
      ghost var before := lpBuffer[..];
      assert f(i + 1) == DecodeRecord(flags, Get(arr, Index(i + 1)), pos);
      err := FillInputRecord(flags, Get(arr, Index(i + 1)), pos, lpBuffer, i);
      if err.Some? {
        StageStep(f, i, before[..i]);
        StageErrorPersists(f, i + 1, n);
        return;
      }
      StageStored(f, i, before, lpBuffer[..]);
      i := i + 1;
    }
    assert lpBuffer[..n] == lpBuffer[..];
    err := None;
  }

  /** f_WriteConsoleInput: validates the handle and the array (a table of
      length `len`, non-empty), decodes element i+1 into slot i for each i in
      order, and passes the staged records to one WriteConsoleInput call.
      `ok` and `written` are the system's reply. Errors in an element are
      reported on slot nargs+2, where the element sits on the stack. */
  method WriteConsoleInput(flags: FlagTable, h: ConsoleHandle, nargs: int, arr: Value, len: nat, ok: bool, written: DWord)
    returns (r: Result<Value>, calls: seq<ApiCall>)
    requires nargs >= 2
    requires arr.Table? ==> IsBorder(arr, len) && len <= 0xFFFF_FFFF
    ensures h.hnd == INVALID_HANDLE_VALUE ==> r == Err(ArgError(1, "access to closed handle")) && calls == []
    ensures h.hnd != INVALID_HANDLE_VALUE && !arr.Table? ==> r == Err(TypeError(2, "table")) && calls == []
    ensures h.hnd != INVALID_HANDLE_VALUE && arr.Table? && len == 0 ==>
              r == Err(ArgError(2, "empty array")) && calls == []
    ensures h.hnd != INVALID_HANDLE_VALUE && arr.Table? && len > 0 && StageRecords(flags, arr, len, nargs + 2).Err? ==>
              r == Err(StageRecords(flags, arr, len, nargs + 2).error) && calls == []
    ensures h.hnd != INVALID_HANDLE_VALUE && arr.Table? && len > 0 && StageRecords(flags, arr, len, nargs + 2).Ok? ==>
              calls == [WriteConsoleInputCall(h.hnd, StageRecords(flags, arr, len, nargs + 2).value)]
              && r == if ok then Ok(Num(written)) else Ok(Nil)
  {
    var hnd := h.Check(1);
    if hnd.Err? {
      return Err(hnd.error), [];
    }
    if !arr.Table? {
      return Err(TypeError(2, "table")), [];
    }
    var nLength := len;
    if nLength == 0 {
      return Err(ArgError(2, "empty array")), [];
    }
    var err, lpBuffer := StageInputBuffer(flags, arr, nLength, nargs + 2);
    if err.Some? {
      return Err(err.value), [];
    }
    calls := [WriteConsoleInputCall(hnd.value, lpBuffer[..])];
    if !ok {
      return Ok(Nil), calls;
    }
    r := Ok(Num(written));
  }

  /** A list that ReadConsoleInput returned stages, for WriteConsoleInput,
      into the records that were read, in their canonical form (BOOL fields
      as 0 or 1, a record of unknown kind as tag 0), whatever length
      `lua_objlen` reports for it. */
  lemma ReadThenWrite(flags: FlagTable, records: seq<InputRecord>, len: nat, pos: int)
    requires StandardEventNames(flags)
    requires IsBorder(Table(ListEntries(EncodeAll(records))), len)
    ensures len == |records|
    ensures StageRecords(flags, Table(ListEntries(EncodeAll(records))), len, pos) == Ok(CanonicalAll(records))
  {
    ReadResultIsList(records);
    var t := Table(ListEntries(EncodeAll(records)));
    var f := RecordSlots(flags, t, pos);
    ListEntriesAt(EncodeAll(records));
    forall k | 1 <= k <= |records|
      ensures f(k) == Ok(Canonical(records[k - 1]))
    {
      assert Get(t, Index(k - 1 + 1)) == InputRecordToTable(records[k - 1]);
      DecodeEncode(flags, records[k - 1], pos);
    }
    var staged := Stage(f, |records|);
    StageOk(f, |records|);
    assert staged.value == CanonicalAll(records) by {
      forall j | 0 <= j < |records|
        ensures staged.value[j] == Canonical(records[j])
      {
        assert f(j + 1) == Ok(staged.value[j]);
      }
    }
  }

  // ---- WriteConsoleOutput ----

  /** One CHAR_INFO from element k of the character and attribute arrays:
      the character must convert to a string (an error on argument 2
      otherwise) and its first byte, read as a signed CHAR, is the cell's
      AsciiChar; the attribute, checked next, must be a number (an error on
      argument 3 otherwise) and is stored into the WORD. */
  function CellOf(c: Value, a: Value): (r: Result<CharInfo>)
    ensures r.Ok? <==> ToLuaString(c).Some? && ToNumber(a).Some?
    ensures ToLuaString(c).None? ==> r == Err(ArgError(2, "non-string in the array"))
    ensures ToLuaString(c).Some? && ToNumber(a).None? ==> r == Err(ArgError(3, "non-number in the array"))
    ensures r.Ok? ==> r.value.asciiChar == ToChar(FirstByte(ToLuaString(c).value))
                      && r.value.attributes == ToWord(ToNumber(a).value)
  {
    match ToLuaString(c)
    case None => Err(ArgError(2, "non-string in the array"))
    case Some(s) =>
      match ToNumber(a)
      case None => Err(ArgError(3, "non-number in the array"))
      case Some(n) => Ok(CharInfo(ToChar(FirstByte(s)), ToWord(n)))
  }

  /** An empty string stages its terminating NUL; a number stages the first
      character of its decimal form. */
  lemma CellOfEdgeCases(n: int, a: int)
    ensures CellOf(Str(""), Num(a)) == Ok(CharInfo(0, ToWord(a)))
    ensures CellOf(Num(n), Num(a)).Ok?
    ensures n < 0 ==> CellOf(Num(n), Num(a)).value.asciiChar == '-' as int
  {
  }

  function CellSlots(chars: Value, attrs: Value): nat -> Result<CharInfo>
  {
    k => CellOf(Get(chars, Index(k)), Get(attrs, Index(k)))
  }

  /** What f_WriteConsoleOutput stages from `n` characters and attributes. */
  function StageCells(chars: Value, attrs: Value, n: nat): Result<seq<CharInfo>>
  {
    Stage(CellSlots(chars, attrs), n)
  }

  /** Field `name` of the parameters gives the SHORT `x`: a numeric field
      stored into a SHORT, 0 when the field is absent or not numeric. */
  predicate ReadsShort(params: Value, name: string, x: Short)
  {
    match ToNumber(Field(params, name))
    case None => x == 0
    case Some(n) => x == ToShort(n)
  }

  /** An optional parameter of f_WriteConsoleOutput: read into a C int,
      then stored into a SHORT, default 0. */
  function ShortParam(params: Value, name: string): (x: Short)
    ensures ReadsShort(params, name, x)
  {
    ToShort(GetOptIntFromTable(params, name, 0))
  }

  function BufferSizeOf(params: Value): (c: Coord)
    ensures ReadsShort(params, "dwBufferSizeX", c.x) && ReadsShort(params, "dwBufferSizeY", c.y)
  {
    Coord(ShortParam(params, "dwBufferSizeX"), ShortParam(params, "dwBufferSizeY"))
  }

  function BufferCoordOf(params: Value): (c: Coord)
    ensures ReadsShort(params, "dwBufferCoordX", c.x) && ReadsShort(params, "dwBufferCoordY", c.y)
  {
    Coord(ShortParam(params, "dwBufferCoordX"), ShortParam(params, "dwBufferCoordY"))
  }

  function WriteRegionOf(params: Value): (rc: SmallRect)
    ensures ReadsShort(params, "WriteRegionLeft", rc.left) && ReadsShort(params, "WriteRegionTop", rc.top)
    ensures ReadsShort(params, "WriteRegionRight", rc.right) && ReadsShort(params, "WriteRegionBottom", rc.bottom)
  {
    SmallRect(ShortParam(params, "WriteRegionLeft"), ShortParam(params, "WriteRegionTop"),
              ShortParam(params, "WriteRegionRight"), ShortParam(params, "WriteRegionBottom"))
  }

  /** Absent (or non-numeric) size, origin and region fields are 0. */
  lemma OutputParamsDefaults(params: Value)
    requires forall n :: ToNumber(Field(params, n)).None?
    ensures BufferSizeOf(params) == Coord(0, 0) && BufferCoordOf(params) == Coord(0, 0)
    ensures WriteRegionOf(params) == SmallRect(0, 0, 0, 0)
  {
    assert ToNumber(Field(params, "dwBufferSizeX")).None? && ToNumber(Field(params, "dwBufferSizeY")).None?;
    assert ToNumber(Field(params, "dwBufferCoordX")).None? && ToNumber(Field(params, "dwBufferCoordY")).None?;
    assert ToNumber(Field(params, "WriteRegionLeft")).None? && ToNumber(Field(params, "WriteRegionTop")).None?;
    assert ToNumber(Field(params, "WriteRegionRight")).None? && ToNumber(Field(params, "WriteRegionBottom")).None?;
  }

  /** The table of the rectangle the system actually wrote. */
  function RegionTable(rc: SmallRect): (t: Value)
    ensures t.Table?
    ensures forall k :: k in t.entries <==>
              k == Name("WriteRegionLeft") || k == Name("WriteRegionTop")
              || k == Name("WriteRegionRight") || k == Name("WriteRegionBottom")
  {
    Table(map[Name("WriteRegionTop") := Num(rc.top),
              Name("WriteRegionLeft") := Num(rc.left),
              Name("WriteRegionBottom") := Num(rc.bottom),
              Name("WriteRegionRight") := Num(rc.right)])
  }

  /** The returned region, passed back as parameters, names the same region. */
  lemma RegionRoundTrip(rc: SmallRect)
    ensures WriteRegionOf(RegionTable(rc)) == rc
  {
    var t := RegionTable(rc);
    assert Field(t, "WriteRegionLeft") == Num(rc.left) && Field(t, "WriteRegionTop") == Num(rc.top);
    assert Field(t, "WriteRegionRight") == Num(rc.right) && Field(t, "WriteRegionBottom") == Num(rc.bottom);
    NarrowThroughInt32(rc.left);
    NarrowThroughInt32(rc.top);
    NarrowThroughInt32(rc.right);
    NarrowThroughInt32(rc.bottom);
  }

  /** The staging loop of f_WriteConsoleOutput: a fresh buffer of `n`
      cells, cell i from element i+1 of both arrays, stopping at the first
      element that fails. */
  method StageOutputBuffer(chars: Value, attrs: Value, n: nat)
    returns (err: Option<Error>, lpBuffer: array<CharInfo>)
    ensures fresh(lpBuffer) && lpBuffer.Length == n
    ensures err.None? ==> StageCells(chars, attrs, n) == Ok(lpBuffer[..])
    ensures err.Some? ==> StageCells(chars, attrs, n) == Err(err.value)
  {
    lpBuffer := new CharInfo[n];
    ghost var f := CellSlots(chars, attrs);
    var i := 0;
    while i < n
      invariant 0 <= i <= n
      invariant Stage(f, i) == Ok(lpBuffer[..i])
    {
      var cell := CellOf(Get(chars, Index(i + 1)), Get(attrs, Index(i + 1)));
      assert f(i + 1) == cell;
      if cell.Err? {
        err := Some(cell.error);
        StageStep(f, i, lpBuffer[..i]);
        StageErrorPersists(f, i + 1, n);
        return;
      }
      ghost var before := lpBuffer[..];
      lpBuffer[i] := cell.value;
      StageStored(f, i, before, lpBuffer[..]);
      i := i + 1;
    }
    assert lpBuffer[..n] == lpBuffer[..];
    err := None;
  }

  /** f_WriteConsoleOutput: checks, in this order, the handle, that the
      character array is a non-empty table, that the attribute array is a
      table of the same length, that the parameters are a table, and that
      dwBufferSizeX*dwBufferSizeY does not exceed the array length; then
      stages the cells and makes one WriteConsoleOutput call. `ok` and
      `written` are the system's reply (success, and the rectangle it
      actually wrote), returned as a table on success and nil on failure. */
  method WriteConsoleOutput(h: ConsoleHandle, chars: Value, charsLen: nat, attrs: Value, attrsLen: nat,
                            params: Value, ok: bool, written: SmallRect)
    returns (r: Result<Value>, calls: seq<ApiCall>)
    requires chars.Table? ==> IsBorder(chars, charsLen) && charsLen < 0x8000_0000
    requires attrs.Table? ==> IsBorder(attrs, attrsLen) && attrsLen < 0x8000_0000
    ensures h.hnd == INVALID_HANDLE_VALUE ==> r == Err(ArgError(1, "access to closed handle")) && calls == []
    ensures h.hnd != INVALID_HANDLE_VALUE && !chars.Table? ==> r == Err(TypeError(2, "table")) && calls == []
    ensures h.hnd != INVALID_HANDLE_VALUE && chars.Table? && charsLen == 0 ==>
              r == Err(ArgError(2, "empty array")) && calls == []
    ensures h.hnd != INVALID_HANDLE_VALUE && chars.Table? && charsLen > 0 && !attrs.Table? ==>
              r == Err(TypeError(3, "table")) && calls == []
    ensures h.hnd != INVALID_HANDLE_VALUE && chars.Table? && charsLen > 0 && attrs.Table? && attrsLen != charsLen ==>
              r == Err(ArgError(3, "different sizes of character and attribute arrays")) && calls == []
    ensures h.hnd != INVALID_HANDLE_VALUE && chars.Table? && charsLen > 0 && attrs.Table? && attrsLen == charsLen
            && !params.Table? ==>
              r == Err(TypeError(4, "table")) && calls == []
    ensures h.hnd != INVALID_HANDLE_VALUE && chars.Table? && charsLen > 0 && attrs.Table? && attrsLen == charsLen
            && params.Table? && charsLen < BufferSizeOf(params).x * BufferSizeOf(params).y ==>
              r == Err(ArgError(4, "SizeX*SizeY is greater than character array size")) && calls == []
    ensures h.hnd != INVALID_HANDLE_VALUE && chars.Table? && charsLen > 0 && attrs.Table? && attrsLen == charsLen
            && params.Table? && charsLen >= BufferSizeOf(params).x * BufferSizeOf(params).y ==>
              (StageCells(chars, attrs, charsLen).Err? ==>
                 r == Err(StageCells(chars, attrs, charsLen).error) && calls == [])
              && (StageCells(chars, attrs, charsLen).Ok? ==>
                    calls == [WriteConsoleOutputCall(h.hnd, StageCells(chars, attrs, charsLen).value,
                                                     BufferSizeOf(params), BufferCoordOf(params), WriteRegionOf(params))]
                    && r == if ok then Ok(RegionTable(written)) else Ok(Nil))
  {
    var hnd := h.Check(1);
    if hnd.Err? {
      return Err(hnd.error), [];
    }
    if !chars.Table? {
      return Err(TypeError(2, "table")), [];
    }
    var srcSize := charsLen;
    if srcSize == 0 {
      return Err(ArgError(2, "empty array")), [];
    }
    if !attrs.Table? {
      return Err(TypeError(3, "table")), [];
    }
    if attrsLen != srcSize {
      return Err(ArgError(3, "different sizes of character and attribute arrays")), [];
    }
    if !params.Table? {
      return Err(TypeError(4, "table")), [];
    }
    var dwBufferSize := BufferSizeOf(params);
    if srcSize < dwBufferSize.x * dwBufferSize.y {
      return Err(ArgError(4, "SizeX*SizeY is greater than character array size")), [];
    }
    var dwBufferCoord := BufferCoordOf(params);
    var writeRegion := WriteRegionOf(params);
    var err, lpBuffer := StageOutputBuffer(chars, attrs, srcSize);
    if err.Some? {
      return Err(err.value), [];
    }
    calls := [WriteConsoleOutputCall(hnd.value, lpBuffer[..], dwBufferSize, dwBufferCoord, writeRegion)];
    if !ok {
      return Ok(Nil), calls;
    }
    r := Ok(RegionTable(written));
  }
}
