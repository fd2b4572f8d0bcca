/** The Lua values the binding reads and produces, and the few Lua C API
    conversions it relies on (lua_isnumber/lua_tointeger, lua_tostring,
    lua_toboolean, lua_objlen) together with the 1-based list protocol. */
module LuaValues {
  import opened Results

  /** The table keys the binding uses: integer list indices and field names. */
  datatype Key = Index(i: int) | Name(s: string)

  /** A Lua value. Numbers are integers; a Lua string is a byte string and
      each of its `char`s stands for one byte. */
  datatype Value =
    | Nil
    | Bool(b: bool)
    | Num(n: int)
    | Str(s: string)
    | Table(entries: map<Key, Value>)

  /** Raw read of `m[k]`; an absent key reads as nil. */
  function Lookup(m: map<Key, Value>, k: Key): Value
  {
    if k in m then m[k] else Nil
  }

  /** `t[k]` for a table `t` (nil for anything else, which the binding never indexes). */
  function Get(t: Value, k: Key): Value
  {
    if t.Table? then Lookup(t.entries, k) else Nil
  }

  /** `lua_getfield(t, name)`. */
  function Field(t: Value, name: string): Value
  {
    Get(t, Name(name))
  }

  /** The table `t` with field `name` set to `x` (nil removes it, as far as reads can tell). */
  function SetField(t: Value, name: string, x: Value): (r: Value)
    requires t.Table?
    ensures Field(r, name) == x
    ensures forall n :: n != name ==> Field(r, n) == Field(t, n)
  {
    Table(t.entries[Name(name) := x])
  }

  /** `lua_toboolean`: only nil and false are false. */
  predicate Truthy(v: Value)
  {
    !(v.Nil? || v == Bool(false))
  }

  predicate IsDigit(c: char)
  {
    '0' <= c <= '9'
  }

  function DigitValue(c: char): nat
    requires IsDigit(c)
  {
    c as int - '0' as int
  }

  function DigitChar(d: nat): (c: char)
    requires d < 10
    ensures IsDigit(c) && DigitValue(c) == d
  {
    ('0' as int + d) as char
  }

  /** The value of a non-empty string of decimal digits; None for any other string. */
  function ParseDigits(s: string): (r: Option<nat>)
    ensures r.Some? <==> |s| > 0 && forall i :: 0 <= i < |s| ==> IsDigit(s[i])
  {
    if |s| == 0 || !IsDigit(s[|s| - 1]) then None
    else if |s| == 1 then Some(DigitValue(s[0]))
    else match ParseDigits(s[..|s| - 1])
      case None => None
      case Some(n) => Some(10 * n + DigitValue(s[|s| - 1]))
  }

  /** A string Lua accepts as an integer: an optional sign, then decimal digits. */
  function ParseInteger(s: string): Option<int>
  {
    if |s| > 0 && (s[0] == '-' || s[0] == '+') then
      match ParseDigits(s[1..])
      case None => None
      case Some(n) => Some(if s[0] == '-' then -(n as int) else n as int)
    else
      match ParseDigits(s)
      case None => None
      case Some(n) => Some(n)
  }

  /** `lua_isnumber` + `lua_tointeger`: numbers and numeric strings convert. */
  function ToNumber(v: Value): Option<int>
  {
    match v
    case Num(n) => Some(n)
    case Str(s) => ParseInteger(s)
    case _ => None
  }

  /** The decimal form of a natural number. */
  function NatDecimal(n: nat): (s: string)
    ensures |s| > 0 && forall i :: 0 <= i < |s| ==> IsDigit(s[i])
  {
    if n < 10 then [DigitChar(n)] else NatDecimal(n / 10) + [DigitChar(n % 10)]
  }

  /** The string `lua_tostring` makes of an integer. */
  function Decimal(n: int): string
  {
    if n < 0 then "-" + NatDecimal(-n) else NatDecimal(n)
  }

  /** `lua_tostring`: strings as they are, numbers in decimal, NULL otherwise. */
  function ToLuaString(v: Value): Option<string>
  {
    match v
    case Str(s) => Some(s)
    case Num(n) => Some(Decimal(n))
    case _ => None
  }

  /** The name a C function sees when it is handed `lua_tostring`'s result
      as a C string: the bytes before the first NUL. */
  function CName(s: string): string
  {
    if '\0' !in s then s else s[..NulIndex(s)]
  }

  /** The index of the first NUL of a string that holds one. */
  function NulIndex(s: string): (i: nat)
    requires '\0' in s
    ensures i < |s| && s[i] == '\0' && '\0' !in s[..i]
  {
    if s[0] == '\0' then 0
    else
      assert s == [s[0]] + s[1..];
      var j := NulIndex(s[1..]);
      assert s[..j + 1] == [s[0]] + s[1..][..j];
      j + 1
  }

  /** CName is the longest prefix without a NUL; a string without a NUL is
      its own C name. */
  lemma CNameIsPrefix(s: string)
    ensures CName(s) <= s && '\0' !in CName(s)
    ensures |CName(s)| < |s| ==> s[|CName(s)|] == '\0'
    ensures '\0' !in s ==> CName(s) == s
  {
  }

  /** `*s` for a C string: its first byte, or the terminating NUL of an empty string. */
  function FirstByte(s: string): int
  {
    if s == [] then 0 else s[0] as int
  }

  /** `lua_objlen` of a table may return any border: an index whose slot is
      non-nil and whose successor is nil, or 0 when slot 1 is nil. */
  ghost predicate IsBorder(t: Value, n: nat)
    requires t.Table?
  {
    if n == 0 then Get(t, Index(1)) == Nil
    else Get(t, Index(n)) != Nil && Get(t, Index(n + 1)) == Nil
  }

  // ---- The 1-based list protocol: t[i], t[i+1], ... up to the first nil ----

  ghost function IndexKeysFrom(m: map<Key, Value>, i: int): set<Key>
  {
    set k | k in m && k.Index? && k.i >= i
  }

  lemma IndexKeysShrink(m: map<Key, Value>, i: int)
    requires Index(i) in m
    ensures |IndexKeysFrom(m, i + 1)| < |IndexKeysFrom(m, i)|
  {
    assert IndexKeysFrom(m, i) == IndexKeysFrom(m, i + 1) + {Index(i)};
  }

  /** The list read from `m` starting at index `i`: every slot up to, and not
      including, the first nil one. */
  function ListPrefix(m: map<Key, Value>, i: int): (s: seq<Value>)
    ensures forall j :: 0 <= j < |s| ==> s[j] != Nil && Lookup(m, Index(i + j)) == s[j]
    ensures Lookup(m, Index(i + |s|)) == Nil
    ensures forall k :: i <= k < i + |s| ==> Lookup(m, Index(k)) != Nil
    decreases |IndexKeysFrom(m, i)|
  {
    var x := Lookup(m, Index(i));
    if x == Nil then []
    else
      IndexKeysShrink(m, i);
      [x] + ListPrefix(m, i + 1)
  }

  /** The list is determined by its defining property. */
  lemma {:induction false} ListPrefixUnique(m: map<Key, Value>, i: int, s: seq<Value>)
    requires forall j :: 0 <= j < |s| ==> s[j] != Nil && Lookup(m, Index(i + j)) == s[j]
    requires Lookup(m, Index(i + |s|)) == Nil
    ensures ListPrefix(m, i) == s
    decreases |s|
  {
    if |s| == 0 {
      assert Lookup(m, Index(i)) == Nil;
    } else {
      assert Lookup(m, Index(i + 0)) == s[0];
      ListPrefixUnique(m, i + 1, s[1..]);
    }
  }

  /** Slots after the first nil are never read: two tables that agree on
      slots i..k, with slot k nil, have the same list. */
  lemma {:induction false} ListPrefixStopsAtHole(m: map<Key, Value>, m': map<Key, Value>, i: int, k: int)
    requires i <= k && Lookup(m, Index(k)) == Nil
    requires forall j :: i <= j <= k ==> Lookup(m, Index(j)) == Lookup(m', Index(j))
    ensures ListPrefix(m, i) == ListPrefix(m', i)
    decreases k - i
  {
    if Lookup(m, Index(i)) != Nil {
      ListPrefixStopsAtHole(m, m', i + 1, k);
    }
  }

  /** The table `{[1] = xs[0], ..., [n] = xs[n-1]}`, built by appending slot after slot. */
  function ListEntries(xs: seq<Value>): map<Key, Value>
  {
    if xs == [] then map[] else ListEntries(xs[..|xs| - 1])[Index(|xs|) := xs[|xs| - 1]]
  }

  /** A list table holds exactly the slots 1..|xs|, slot j+1 holding xs[j]. */
  lemma {:induction false} ListEntriesAt(xs: seq<Value>)
    ensures forall k :: k in ListEntries(xs) <==> k.Index? && 1 <= k.i <= |xs|
    ensures forall j :: 0 <= j < |xs| ==> Lookup(ListEntries(xs), Index(j + 1)) == xs[j]
  {
    if xs != [] {
      var init := xs[..|xs| - 1];
      ListEntriesAt(init);
      forall j | 0 <= j < |xs| - 1
        ensures Lookup(ListEntries(xs), Index(j + 1)) == xs[j]
      {
        assert init[j] == xs[j];
      }
    }
  }

  /** Reading a list table back with the 1-based protocol gives the list,
      and its length is a border of it (the only one). */
  lemma ListOfListEntries(xs: seq<Value>)
    requires forall j :: 0 <= j < |xs| ==> xs[j] != Nil
    ensures ListPrefix(ListEntries(xs), 1) == xs
    ensures IsBorder(Table(ListEntries(xs)), |xs|)
    ensures forall n: nat :: IsBorder(Table(ListEntries(xs)), n) ==> n == |xs|
  {
    var m := ListEntries(xs);
    ListEntriesAt(xs);
    assert Index(|xs| + 1) !in m;
    assert Lookup(m, Index(1 + |xs|)) == Nil;
    if |xs| > 0 {
      assert Lookup(m, Index(|xs| - 1 + 1)) == xs[|xs| - 1];
    }
    ListPrefixUnique(m, 1, xs);
    ListEntriesBorder(xs);
  }

  /** A list table has no border other than its length. */
  lemma ListEntriesBorder(xs: seq<Value>)
    requires forall j :: 0 <= j < |xs| ==> xs[j] != Nil
    ensures forall n: nat :: IsBorder(Table(ListEntries(xs)), n) ==> n == |xs|
  {
    var m := ListEntries(xs);
    ListEntriesAt(xs);
    forall k | 1 <= k <= |xs|
      ensures Lookup(m, Index(k)) != Nil
    {
      assert Lookup(m, Index(k - 1 + 1)) == xs[k - 1];
    }
  }
}
