/** Conversion between a Lua table and a console INPUT_RECORD:
    FillInputRecord (table to record, stored into a buffer slot),
    InputRecordToTable (record to table) and the optional-field readers they
    use. DecodeRecord is the value FillInputRecord stores. */
module RecordCodec {
  import opened Results
  import opened NativeTypes
  import opened LuaValues
  import opened FlagResolver

  // The EventType tags of wincon.h.
  const KEY_EVENT: Word := 0x0001
  const MOUSE_EVENT: Word := 0x0002
  const WINDOW_BUFFER_SIZE_EVENT: Word := 0x0004
  const MENU_EVENT: Word := 0x0008
  const FOCUS_EVENT: Word := 0x0010

  predicate IsKnownEventType(t: int)
  {
    t == KEY_EVENT || t == MOUSE_EVENT || t == WINDOW_BUFFER_SIZE_EVENT || t == MENU_EVENT || t == FOCUS_EVENT
  }

  type UnknownEventType = t: Word | !IsKnownEventType(t)

  /** An INPUT_RECORD. The EventType tag selects which member of the Event
      union is meaningful; each constructor holds that member's fields at
      their native widths (BOOL is a C int). The Key event's uChar union is
      one 16-bit cell: UnicodeChar is the whole cell, AsciiChar its low byte.
      A record with any other tag carries no meaningful payload. */
  datatype InputRecord =
    | KeyEvent(bKeyDown: Int32, wRepeatCount: Word, wVirtualKeyCode: Word,
               wVirtualScanCode: Word, uChar: Word, dwControlKeyState: DWord)
    | MouseEvent(dwMousePositionX: Short, dwMousePositionY: Short, dwButtonState: DWord,
                 dwControlKeyState: DWord, dwEventFlags: DWord)
    | WindowBufferSizeEvent(dwSizeX: Short, dwSizeY: Short)
    | MenuEvent(dwCommandId: DWord)
    | FocusEvent(bSetFocus: Int32)
    | OtherEvent(eventType: UnknownEventType)

  function EventType(r: InputRecord): (t: Word)
    ensures r.OtherEvent? <==> !IsKnownEventType(t)
  {
    match r
    case KeyEvent(_, _, _, _, _, _) => KEY_EVENT
    case MouseEvent(_, _, _, _, _) => MOUSE_EVENT
    case WindowBufferSizeEvent(_, _) => WINDOW_BUFFER_SIZE_EVENT
    case MenuEvent(_) => MENU_EVENT
    case FocusEvent(_) => FOCUS_EVENT
    case OtherEvent(t) => t
  }

  /** The name InputRecordToTable writes for a known tag. */
  function EventTypeName(t: Word): string
  {
    if t == KEY_EVENT then "KEY_EVENT"
    else if t == MOUSE_EVENT then "MOUSE_EVENT"
    else if t == WINDOW_BUFFER_SIZE_EVENT then "WINDOW_BUFFER_SIZE_EVENT"
    else if t == MENU_EVENT then "MENU_EVENT"
    else if t == FOCUS_EVENT then "FOCUS_EVENT"
    else ""
  }

  /** The documented field names of each event kind, the same in both directions. */
  function FieldNames(t: Word): set<string>
  {
    if t == KEY_EVENT then
      {"bKeyDown", "wRepeatCount", "wVirtualKeyCode", "wVirtualScanCode",
       "UnicodeChar", "AsciiChar", "dwControlKeyState"}
    else if t == MOUSE_EVENT then
      {"dwMousePositionX", "dwMousePositionY", "dwButtonState", "dwControlKeyState", "dwEventFlags"}
    else if t == WINDOW_BUFFER_SIZE_EVENT then {"dwSizeX", "dwSizeY"}
    else if t == MENU_EVENT then {"dwCommandId"}
    else if t == FOCUS_EVENT then {"bSetFocus"}
    else {}
  }

  /** The flag table names the five event kinds by the names the encoder writes. */
  predicate StandardEventNames(flags: FlagTable)
  {
    && "KEY_EVENT" in flags && flags["KEY_EVENT"] == KEY_EVENT as int
    && "MOUSE_EVENT" in flags && flags["MOUSE_EVENT"] == MOUSE_EVENT as int
    && "WINDOW_BUFFER_SIZE_EVENT" in flags && flags["WINDOW_BUFFER_SIZE_EVENT"] == WINDOW_BUFFER_SIZE_EVENT as int
    && "MENU_EVENT" in flags && flags["MENU_EVENT"] == MENU_EVENT as int
    && "FOCUS_EVENT" in flags && flags["FOCUS_EVENT"] == FOCUS_EVENT as int
  }

  /** C's value for a truth value. */
  function BoolValue(b: bool): Int32
  {
    if b then 1 else 0
  }

  /** GetOptIntFromTable: a numeric field (a number or a numeric string) is
      read into a C int; an absent or non-numeric one gives the default.
      Storing that int into a narrower field gives what storing the number
      itself would. */
  function GetOptIntFromTable(t: Value, key: string, dflt: int): (r: int)
    ensures ToNumber(Field(t, key)).None? ==> r == dflt
    ensures ToNumber(Field(t, key)).Some? ==> r == ToInt32(ToNumber(Field(t, key)).value)
    ensures ToNumber(Field(t, key)).Some? ==>
              var n := ToNumber(Field(t, key)).value;
              ToWord(r) == ToWord(n) && ToShort(r) == ToShort(n) && ToDWord(r) == ToDWord(n)
  {
    match ToNumber(Field(t, key))
    case None => dflt
    case Some(n) =>
      NarrowThroughInt32(n);
      ToInt32(n)
  }

  /** GetOptBoolFromTable: an absent field gives the default, a present one
      its Lua truth value. */
  function GetOptBoolFromTable(t: Value, key: string, dflt: bool): (r: bool)
    ensures Field(t, key) == Nil ==> r == dflt
    ensures Field(t, key) != Nil ==> (r <==> Truthy(Field(t, key)))
  {
    if Field(t, key) == Nil then dflt else Truthy(Field(t, key))
  }

  /** The character cell of a Key event: a present UnicodeChar fills the
      whole cell and AsciiChar is not read; otherwise AsciiChar fills the low
      byte and the high byte keeps the zero of the cleared record. */
  function KeyChar(t: Value): (r: Word)
    ensures Field(t, "UnicodeChar") != Nil ==>
              r == if ToNumber(Field(t, "UnicodeChar")).Some? then ToWord(ToNumber(Field(t, "UnicodeChar")).value) else 0
    ensures Field(t, "UnicodeChar") == Nil ==>
              r < 0x100 && ToChar(r) == ToChar(GetOptIntFromTable(t, "AsciiChar", 0))
  {
    if Field(t, "UnicodeChar") != Nil then ToWord(GetOptIntFromTable(t, "UnicodeChar", 0))
    else
      CharOfByte(GetOptIntFromTable(t, "AsciiChar", 0));
      ToByte(GetOptIntFromTable(t, "AsciiChar", 0))
  }

  /** The switch of FillInputRecord, as a value: the record starts cleared, with the
      given tag, and only the fields of the matching kind are filled in. */
  function DecodeEvent(t: Value, eventType: Word): (r: InputRecord)
    ensures EventType(r) == eventType
    ensures r.KeyEvent? ==> r.bKeyDown == BoolValue(Truthy(Field(t, "bKeyDown")))
    ensures r.FocusEvent? ==> r.bSetFocus == BoolValue(Truthy(Field(t, "bSetFocus")))
  {
    if eventType == KEY_EVENT then
      KeyEvent(BoolValue(GetOptBoolFromTable(t, "bKeyDown", false)),
               ToWord(GetOptIntFromTable(t, "wRepeatCount", 1)),
               ToWord(GetOptIntFromTable(t, "wVirtualKeyCode", 0)),
               ToWord(GetOptIntFromTable(t, "wVirtualScanCode", 0)),
               KeyChar(t),
               ToDWord(GetOptIntFromTable(t, "dwControlKeyState", 0)))
    else if eventType == MOUSE_EVENT then
      MouseEvent(ToShort(GetOptIntFromTable(t, "dwMousePositionX", 0)),
                 ToShort(GetOptIntFromTable(t, "dwMousePositionY", 0)),
                 ToDWord(GetOptIntFromTable(t, "dwButtonState", 0)),
                 ToDWord(GetOptIntFromTable(t, "dwControlKeyState", 0)),
                 ToDWord(GetOptIntFromTable(t, "dwEventFlags", 0)))
    else if eventType == WINDOW_BUFFER_SIZE_EVENT then
      WindowBufferSizeEvent(ToShort(GetOptIntFromTable(t, "dwSizeX", 0)),
                            ToShort(GetOptIntFromTable(t, "dwSizeY", 0)))
    else if eventType == MENU_EVENT then
      MenuEvent(ToDWord(GetOptIntFromTable(t, "dwCommandId", 0)))
    else if eventType == FOCUS_EVENT then
      FocusEvent(BoolValue(GetOptBoolFromTable(t, "bSetFocus", false)))
    else
      OtherEvent(eventType)
  }

  /** What FillInputRecord makes of the element in stack slot `pos`: it must
      be a table (a type error otherwise); its EventType field must resolve
      as a flag (an argument error otherwise) and is stored into the WORD tag. */
  function DecodeRecord(flags: FlagTable, v: Value, pos: int): (r: Result<InputRecord>)
    ensures !v.Table? ==> r == Err(TypeError(pos, "table"))
    ensures v.Table? && GetEnvFlag(flags, Field(v, "EventType")).None? ==>
              r == Err(ArgError(pos, "EventType field is missing or invalid"))
    ensures r.Ok? <==> v.Table? && GetEnvFlag(flags, Field(v, "EventType")).Some?
    ensures r.Ok? ==> EventType(r.value) == ToWord(GetEnvFlag(flags, Field(v, "EventType")).value)
    ensures v.Table? && Field(v, "EventType") == Nil ==> r == Ok(OtherEvent(0))
  {
    if !v.Table? then Err(TypeError(pos, "table"))
    else
      match GetEnvFlag(flags, Field(v, "EventType"))
      case None => Err(ArgError(pos, "EventType field is missing or invalid"))
      case Some(tag) => Ok(DecodeEvent(v, ToWord(tag)))
  }

  /** The record right after `memset` and the store of the tag: every field 0. */
  function Cleared(t: Word): InputRecord
  {
    if t == KEY_EVENT then KeyEvent(0, 0, 0, 0, 0, 0)
    else if t == MOUSE_EVENT then MouseEvent(0, 0, 0, 0, 0)
    else if t == WINDOW_BUFFER_SIZE_EVENT then WindowBufferSizeEvent(0, 0)
    else if t == MENU_EVENT then MenuEvent(0)
    else if t == FOCUS_EVENT then FocusEvent(0)
    else OtherEvent(t)
  }

  /** FillInputRecord: checks that the element is a table, clears slot `i`
      of the record buffer, resolves the tag and then writes the fields of
      the matching kind one by one. An error leaves the slot as far as the
      C code had got: untouched after the type error, cleared after the
      EventType error. */
  method FillInputRecord(flags: FlagTable, v: Value, pos: int, buf: array<InputRecord>, i: nat)
    returns (err: Option<Error>)
    requires i < buf.Length
    modifies buf
    ensures err.None? <==> DecodeRecord(flags, v, pos).Ok?
    ensures err.None? ==> buf[..] == old(buf[..])[i := DecodeRecord(flags, v, pos).value]
    ensures err.Some? ==> err.value == DecodeRecord(flags, v, pos).error
    ensures !v.Table? ==> buf[..] == old(buf[..])
    ensures v.Table? && err.Some? ==> buf[..] == old(buf[..])[i := OtherEvent(0)]
  {
    if !v.Table? {
      return Some(TypeError(pos, "table"));
    }
    buf[i] := OtherEvent(0);
    var tag := GetEnvFlag(flags, Field(v, "EventType"));
    if tag.None? {
      return Some(ArgError(pos, "EventType field is missing or invalid"));
    }
    var eventType := ToWord(tag.value);
    var ir := Cleared(eventType);
    if eventType == KEY_EVENT {
      ir := ir.(bKeyDown := BoolValue(GetOptBoolFromTable(v, "bKeyDown", false)));
      ir := ir.(wRepeatCount := ToWord(GetOptIntFromTable(v, "wRepeatCount", 1)));
      ir := ir.(wVirtualKeyCode := ToWord(GetOptIntFromTable(v, "wVirtualKeyCode", 0)));
      ir := ir.(wVirtualScanCode := ToWord(GetOptIntFromTable(v, "wVirtualScanCode", 0)));
      var hasKey := Field(v, "UnicodeChar") != Nil;
      if hasKey {
        ir := ir.(uChar := ToWord(GetOptIntFromTable(v, "UnicodeChar", 0)));
      } else {
        ir := ir.(uChar := ToByte(GetOptIntFromTable(v, "AsciiChar", 0)));
      }
      // dwControlKeyState is a field of two kinds, so it is set by rebuilding the record.
      ir := KeyEvent(ir.bKeyDown, ir.wRepeatCount, ir.wVirtualKeyCode, ir.wVirtualScanCode, ir.uChar,
                     ToDWord(GetOptIntFromTable(v, "dwControlKeyState", 0)));
    } else if eventType == MOUSE_EVENT {
      ir := ir.(dwMousePositionX := ToShort(GetOptIntFromTable(v, "dwMousePositionX", 0)));
      ir := ir.(dwMousePositionY := ToShort(GetOptIntFromTable(v, "dwMousePositionY", 0)));
      ir := ir.(dwButtonState := ToDWord(GetOptIntFromTable(v, "dwButtonState", 0)));
      ir := MouseEvent(ir.dwMousePositionX, ir.dwMousePositionY, ir.dwButtonState,
                       ToDWord(GetOptIntFromTable(v, "dwControlKeyState", 0)), ir.dwEventFlags);
      ir := ir.(dwEventFlags := ToDWord(GetOptIntFromTable(v, "dwEventFlags", 0)));
    } else if eventType == WINDOW_BUFFER_SIZE_EVENT {
      ir := ir.(dwSizeX := ToShort(GetOptIntFromTable(v, "dwSizeX", 0)));
      ir := ir.(dwSizeY := ToShort(GetOptIntFromTable(v, "dwSizeY", 0)));
    } else if eventType == MENU_EVENT {
      ir := ir.(dwCommandId := ToDWord(GetOptIntFromTable(v, "dwCommandId", 0)));
    } else if eventType == FOCUS_EVENT {
      ir := ir.(bSetFocus := BoolValue(GetOptBoolFromTable(v, "bSetFocus", false)));
    }
    buf[i] := ir;
    return None;
  }

  /** InputRecordToTable: the tag's name and the fields of that kind under
      their documented names; AsciiChar is the low byte of the character
      cell read as a signed CHAR. A record of another kind gives no fields. */
  function InputRecordToTable(r: InputRecord): (t: Value)
    ensures t.Table?
    ensures !r.OtherEvent? ==> Field(t, "EventType") == Str(EventTypeName(EventType(r)))
    ensures r.OtherEvent? ==> t == Table(map[])
  {
    match r
    case KeyEvent(down, repeat, vk, scan, ch, ctrl) =>
      Table(map[Name("EventType") := Str("KEY_EVENT"),
                Name("bKeyDown") := Bool(down != 0),
                Name("wRepeatCount") := Num(repeat),
                Name("wVirtualKeyCode") := Num(vk),
                Name("wVirtualScanCode") := Num(scan),
                Name("UnicodeChar") := Num(ch),
                Name("AsciiChar") := Num(ToChar(ch)),
                Name("dwControlKeyState") := Num(ctrl)])
    case MouseEvent(x, y, buttons, ctrl, evFlags) =>
      Table(map[Name("EventType") := Str("MOUSE_EVENT"),
                Name("dwMousePositionX") := Num(x),
                Name("dwMousePositionY") := Num(y),
                Name("dwButtonState") := Num(buttons),
                Name("dwControlKeyState") := Num(ctrl),
                Name("dwEventFlags") := Num(evFlags)])
    case WindowBufferSizeEvent(x, y) =>
      Table(map[Name("EventType") := Str("WINDOW_BUFFER_SIZE_EVENT"),
                Name("dwSizeX") := Num(x),
                Name("dwSizeY") := Num(y)])
    case MenuEvent(id) =>
      Table(map[Name("EventType") := Str("MENU_EVENT"),
                Name("dwCommandId") := Num(id)])
    case FocusEvent(focus) =>
      Table(map[Name("EventType") := Str("FOCUS_EVENT"),
                Name("bSetFocus") := Bool(focus != 0)])
    case OtherEvent(_) =>
      Table(map[])
  }

  /** What a decode can reproduce of a record: BOOL fields as 0 or 1, and
      for an unknown kind only the tag 0 (the encoding has no EventType). */
  function Canonical(r: InputRecord): InputRecord
  {
    match r
    case KeyEvent(down, repeat, vk, scan, ch, ctrl) => KeyEvent(BoolValue(down != 0), repeat, vk, scan, ch, ctrl)
    case FocusEvent(focus) => FocusEvent(BoolValue(focus != 0))
    case OtherEvent(_) => OtherEvent(0)
    case _ => r
  }

  /** The record a table holding only its EventType decodes to: every field
      zero except a Key event's repeat count, which defaults to 1. */
  function ZeroRecord(t: Word): InputRecord
  {
    if t == KEY_EVENT then KeyEvent(0, 1, 0, 0, 0, 0)
    else if t == MOUSE_EVENT then MouseEvent(0, 0, 0, 0, 0)
    else if t == WINDOW_BUFFER_SIZE_EVENT then WindowBufferSizeEvent(0, 0)
    else if t == MENU_EVENT then MenuEvent(0)
    else if t == FOCUS_EVENT then FocusEvent(0)
    else OtherEvent(t)
  }

  function NameKeys(names: set<string>): set<Key>
  {
    set n | n in names :: Name(n)
  }

  // ---- Properties of the codec ----

  /** Encoding writes the tag's name and exactly the documented fields of
      the record's kind; a record of another kind encodes to an empty table. */
  lemma EncodeWritesVariantFields(r: InputRecord)
    ensures IsKnownEventType(EventType(r)) ==>
              InputRecordToTable(r).entries.Keys == NameKeys({"EventType"} + FieldNames(EventType(r)))
              && Field(InputRecordToTable(r), "EventType") == Str(EventTypeName(EventType(r)))
    ensures !IsKnownEventType(EventType(r)) ==> InputRecordToTable(r).entries == map[]
    ensures r.KeyEvent? ==> Field(InputRecordToTable(r), "UnicodeChar") == Num(r.uChar)
                            && Field(InputRecordToTable(r), "AsciiChar") == Num(ToChar(r.uChar))
  {
  }

  /** Decoding reads nothing but EventType and the documented fields of the
      kind it resolves to: tables that agree there decode alike. */
  lemma DecodeReadsOnlyVariantFields(flags: FlagTable, v: Value, w: Value, pos: int)
    requires v.Table? && w.Table?
    requires Field(v, "EventType") == Field(w, "EventType")
    requires GetEnvFlag(flags, Field(v, "EventType")).Some?
    requires forall n :: n in FieldNames(ToWord(GetEnvFlag(flags, Field(v, "EventType")).value)) ==>
               Field(v, n) == Field(w, n)
    ensures DecodeRecord(flags, v, pos) == DecodeRecord(flags, w, pos)
  {
    var t := ToWord(GetEnvFlag(flags, Field(v, "EventType")).value);
    assert DecodeEvent(v, t) == DecodeEvent(w, t);
  }

  /** The record is cleared before it is filled: a table that holds nothing
      but a resolvable EventType decodes to the all-default record of its kind. */
  lemma DecodeDefaults(flags: FlagTable, v: Value, pos: int)
    requires v.Table?
    requires GetEnvFlag(flags, Field(v, "EventType")).Some?
    requires forall n :: n != "EventType" ==> Field(v, n) == Nil
    ensures DecodeRecord(flags, v, pos) == Ok(ZeroRecord(ToWord(GetEnvFlag(flags, Field(v, "EventType")).value)))
  {
    var t := ToWord(GetEnvFlag(flags, Field(v, "EventType")).value);
    if t == KEY_EVENT {
      assert Field(v, "UnicodeChar") == Nil && Field(v, "AsciiChar") == Nil;
      assert Field(v, "bKeyDown") == Nil && Field(v, "wRepeatCount") == Nil;
      assert Field(v, "wVirtualKeyCode") == Nil && Field(v, "wVirtualScanCode") == Nil;
      assert Field(v, "dwControlKeyState") == Nil;
    } else if t == MOUSE_EVENT {
      assert Field(v, "dwMousePositionX") == Nil && Field(v, "dwMousePositionY") == Nil;
      assert Field(v, "dwButtonState") == Nil && Field(v, "dwControlKeyState") == Nil;
      assert Field(v, "dwEventFlags") == Nil;
    }
  }

  /** An EventType that is a number but names no kind is not rejected: the
      record keeps that tag and no payload, and encodes to an empty table. */
  lemma UnknownEventTypeAccepted(flags: FlagTable, n: UnknownEventType, pos: int)
    ensures DecodeRecord(flags, Table(map[Name("EventType") := Num(n)]), pos) == Ok(OtherEvent(n))
    ensures InputRecordToTable(OtherEvent(n)) == Table(map[])
  {
    var v := Table(map[Name("EventType") := Num(n)]);
    assert Field(v, "EventType") == Num(n);
  }

  /** A present (non-nil) UnicodeChar alone sets the character cell, even
      when it is not a number (the cell is then 0); AsciiChar is not read,
      whatever it holds. */
  lemma UnicodeCharTakesPrecedence(flags: FlagTable, v: Value, pos: int, a: Value)
    requires v.Table? && Field(v, "UnicodeChar") != Nil
    requires GetEnvFlag(flags, Field(v, "EventType")).Some?
    requires ToWord(GetEnvFlag(flags, Field(v, "EventType")).value) == KEY_EVENT
    ensures DecodeRecord(flags, v, pos).Ok? && DecodeRecord(flags, v, pos).value.KeyEvent?
    ensures DecodeRecord(flags, v, pos).value.uChar ==
            if ToNumber(Field(v, "UnicodeChar")).Some? then ToWord(ToNumber(Field(v, "UnicodeChar")).value) else 0
    ensures DecodeRecord(flags, SetField(v, "AsciiChar", a), pos) == DecodeRecord(flags, v, pos)
  {
    var w := SetField(v, "AsciiChar", a);
    assert KeyChar(w) == KeyChar(v);
    assert DecodeEvent(w, KEY_EVENT) == DecodeEvent(v, KEY_EVENT);
  }

  /** A byte read back as a signed CHAR is the CHAR of the value it came from. */
  lemma CharOfByte(x: int)
    ensures ToChar(ToByte(x)) == ToChar(x)
  {
    var c := ToByte(x);
    assert (x - ToChar(c)) % 0x100 == 0 by {
      assert (x - c) % 0x100 == 0;
      assert (c - ToChar(c)) % 0x100 == 0;
      assert x - ToChar(c) == (x - c) + (c - ToChar(c));
    }
  }

  /** Without a UnicodeChar, AsciiChar (default 0) sets only the low byte of
      the cell: the high byte stays 0, and reading the cell back as a CHAR
      gives AsciiChar stored into a CHAR. */
  lemma AsciiCharSetsLowByte(flags: FlagTable, v: Value, pos: int)
    requires v.Table? && Field(v, "UnicodeChar") == Nil
    requires GetEnvFlag(flags, Field(v, "EventType")).Some?
    requires ToWord(GetEnvFlag(flags, Field(v, "EventType")).value) == KEY_EVENT
    ensures DecodeRecord(flags, v, pos).Ok? && DecodeRecord(flags, v, pos).value.KeyEvent?
    ensures DecodeRecord(flags, v, pos).value.uChar < 0x100
    ensures ToChar(DecodeRecord(flags, v, pos).value.uChar) == ToChar(GetOptIntFromTable(v, "AsciiChar", 0))
    ensures ToNumber(Field(v, "AsciiChar")).None? ==> DecodeRecord(flags, v, pos).value.uChar == 0
  {
    var x := GetOptIntFromTable(v, "AsciiChar", 0);
    CharOfByte(x);
    assert DecodeRecord(flags, v, pos).value.uChar == ToByte(x);
  }

  // A number written by the encoder reads back, through the C int, to the
  // same value at its own width.

  lemma ReadBackWord(t: Value, key: string, x: Word, dflt: int)
    requires Field(t, key) == Num(x)
    ensures ToWord(GetOptIntFromTable(t, key, dflt)) == x
  {
    NarrowThroughInt32(x);
  }

  lemma ReadBackShort(t: Value, key: string, x: Short, dflt: int)
    requires Field(t, key) == Num(x)
    ensures ToShort(GetOptIntFromTable(t, key, dflt)) == x
  {
    NarrowThroughInt32(x);
  }

  lemma ReadBackDWord(t: Value, key: string, x: DWord, dflt: int)
    requires Field(t, key) == Num(x)
    ensures ToDWord(GetOptIntFromTable(t, key, dflt)) == x
  {
    NarrowThroughInt32(x);
  }

  lemma KeyTableFields(r: InputRecord)
    requires r.KeyEvent?
    ensures Field(InputRecordToTable(r), "EventType") == Str("KEY_EVENT")
    ensures Field(InputRecordToTable(r), "bKeyDown") == Bool(r.bKeyDown != 0)
    ensures Field(InputRecordToTable(r), "wRepeatCount") == Num(r.wRepeatCount)
    ensures Field(InputRecordToTable(r), "wVirtualKeyCode") == Num(r.wVirtualKeyCode)
    ensures Field(InputRecordToTable(r), "wVirtualScanCode") == Num(r.wVirtualScanCode)
    ensures Field(InputRecordToTable(r), "UnicodeChar") == Num(r.uChar)
    ensures Field(InputRecordToTable(r), "dwControlKeyState") == Num(r.dwControlKeyState)
  {
  }

  lemma RoundTripKey(flags: FlagTable, r: InputRecord, pos: int)
    requires StandardEventNames(flags) && r.KeyEvent?
    ensures DecodeRecord(flags, InputRecordToTable(r), pos) == Ok(Canonical(r))
  {
    NameResolves(flags, "KEY_EVENT");
    var t := InputRecordToTable(r);
    KeyTableFields(r);
    ReadBackWord(t, "wRepeatCount", r.wRepeatCount, 1);
    ReadBackWord(t, "wVirtualKeyCode", r.wVirtualKeyCode, 0);
    ReadBackWord(t, "wVirtualScanCode", r.wVirtualScanCode, 0);
    ReadBackWord(t, "UnicodeChar", r.uChar, 0);
    ReadBackDWord(t, "dwControlKeyState", r.dwControlKeyState, 0);
    assert KeyChar(t) == r.uChar;
    assert DecodeEvent(t, KEY_EVENT) == Canonical(r);
  }

  lemma MouseTableFields(r: InputRecord)
    requires r.MouseEvent?
    ensures Field(InputRecordToTable(r), "EventType") == Str("MOUSE_EVENT")
    ensures Field(InputRecordToTable(r), "dwMousePositionX") == Num(r.dwMousePositionX)
    ensures Field(InputRecordToTable(r), "dwMousePositionY") == Num(r.dwMousePositionY)
    ensures Field(InputRecordToTable(r), "dwButtonState") == Num(r.dwButtonState)
    ensures Field(InputRecordToTable(r), "dwControlKeyState") == Num(r.dwControlKeyState)
    ensures Field(InputRecordToTable(r), "dwEventFlags") == Num(r.dwEventFlags)
  {
  }

  lemma RoundTripMouse(flags: FlagTable, r: InputRecord, pos: int)
    requires StandardEventNames(flags) && r.MouseEvent?
    ensures DecodeRecord(flags, InputRecordToTable(r), pos) == Ok(Canonical(r))
  {
    NameResolves(flags, "MOUSE_EVENT");
    var t := InputRecordToTable(r);
    MouseTableFields(r);
    ReadBackShort(t, "dwMousePositionX", r.dwMousePositionX, 0);
    ReadBackShort(t, "dwMousePositionY", r.dwMousePositionY, 0);
    ReadBackDWord(t, "dwButtonState", r.dwButtonState, 0);
    ReadBackDWord(t, "dwControlKeyState", r.dwControlKeyState, 0);
    ReadBackDWord(t, "dwEventFlags", r.dwEventFlags, 0);
    assert DecodeEvent(t, MOUSE_EVENT) == Canonical(r);
  }

  lemma RoundTripWindow(flags: FlagTable, r: InputRecord, pos: int)
    requires StandardEventNames(flags) && r.WindowBufferSizeEvent?
    ensures DecodeRecord(flags, InputRecordToTable(r), pos) == Ok(Canonical(r))
  {
    NameResolves(flags, "WINDOW_BUFFER_SIZE_EVENT");
    var t := InputRecordToTable(r);
    assert Field(t, "EventType") == Str("WINDOW_BUFFER_SIZE_EVENT");
    ReadBackShort(t, "dwSizeX", r.dwSizeX, 0);
    ReadBackShort(t, "dwSizeY", r.dwSizeY, 0);
    assert DecodeEvent(t, WINDOW_BUFFER_SIZE_EVENT) == Canonical(r);
  }

  lemma RoundTripMenu(flags: FlagTable, r: InputRecord, pos: int)
    requires StandardEventNames(flags) && r.MenuEvent?
    ensures DecodeRecord(flags, InputRecordToTable(r), pos) == Ok(Canonical(r))
  {
    NameResolves(flags, "MENU_EVENT");
    var t := InputRecordToTable(r);
    assert Field(t, "EventType") == Str("MENU_EVENT");
    ReadBackDWord(t, "dwCommandId", r.dwCommandId, 0);
    assert DecodeEvent(t, MENU_EVENT) == Canonical(r);
  }

  lemma RoundTripFocus(flags: FlagTable, r: InputRecord, pos: int)
    requires StandardEventNames(flags) && r.FocusEvent?
    ensures DecodeRecord(flags, InputRecordToTable(r), pos) == Ok(Canonical(r))
  {
    NameResolves(flags, "FOCUS_EVENT");
    var t := InputRecordToTable(r);
    assert Field(t, "EventType") == Str("FOCUS_EVENT");
    assert DecodeEvent(t, FOCUS_EVENT) == Canonical(r);
  }

  /** Decoding an encoded record gives it back, up to what the encoding
      cannot carry: a BOOL other than 0 or 1 comes back as 1, and a record
      of an unknown kind comes back with tag 0. Records already in that
      form come back exactly. */
  lemma DecodeEncode(flags: FlagTable, r: InputRecord, pos: int)
    requires StandardEventNames(flags)
    ensures DecodeRecord(flags, InputRecordToTable(r), pos) == Ok(Canonical(r))
    ensures Canonical(r) == r ==> DecodeRecord(flags, InputRecordToTable(r), pos) == Ok(r)
  {
    if r.KeyEvent? {
      RoundTripKey(flags, r, pos);
    } else if r.MouseEvent? {
      RoundTripMouse(flags, r, pos);
    } else if r.WindowBufferSizeEvent? {
      RoundTripWindow(flags, r, pos);
    } else if r.MenuEvent? {
      RoundTripMenu(flags, r, pos);
    } else if r.FocusEvent? {
      RoundTripFocus(flags, r, pos);
    } else {
      assert Field(InputRecordToTable(r), "EventType") == Nil;
    }
  }

  /** Encoding is stable under a decode: the table read back from a decoded
      encoding is the original encoding. */
  lemma EncodeDecodeEncode(flags: FlagTable, r: InputRecord, pos: int)
    requires StandardEventNames(flags)
    ensures DecodeRecord(flags, InputRecordToTable(r), pos).Ok?
    ensures InputRecordToTable(DecodeRecord(flags, InputRecordToTable(r), pos).value) == InputRecordToTable(r)
  {
    DecodeEncode(flags, r, pos);
  }

  /** {EventType = "FOCUS_EVENT", bSetFocus = true} decodes to a Focus record
      with the flag set, and encodes back to the same table. */
  lemma FocusEventExample(flags: FlagTable, pos: int)
    requires StandardEventNames(flags)
    ensures var t := Table(map[Name("EventType") := Str("FOCUS_EVENT"), Name("bSetFocus") := Bool(true)]);
            DecodeRecord(flags, t, pos) == Ok(FocusEvent(1))
            && InputRecordToTable(FocusEvent(1)) == t
  {
    NameResolves(flags, "FOCUS_EVENT");
  }
}
