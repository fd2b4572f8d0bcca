/** Resolution of a Lua value into a flag bitmask (get_env_flag,
    check_env_flag, GetFlagCombination, CheckFlags). The name table is the
    module's environment table, injected here as an immutable map. A resolved
    flag is the 32-bit pattern of the C `int` it is stored into. */
module FlagResolver {
  import opened Results
  import opened NativeTypes
  import opened LuaValues

  /** The symbolic flag table: flag name to numeric value. */
  type FlagTable = map<string, int>

  /** get_env_flag: nil or none is 0, a number is its own 32-bit pattern,
      a name resolves exactly when the flag table has its C name (the bytes
      before any NUL), to its value there, and a boolean or a table never
      resolves. */
  function GetEnvFlag(flags: FlagTable, v: Value): (r: Option<DWord>)
    ensures v.Nil? ==> r == Some(0)
    ensures v.Num? ==> r == Some(ToDWord(v.n))
    ensures v.Str? ==> (r.Some? <==> CName(v.s) in flags)
    ensures v.Str? && CName(v.s) in flags ==> r == Some(ToDWord(flags[CName(v.s)]))
    ensures v.Bool? || v.Table? ==> r == None
  {
    match v
    case Nil => Some(0)
    case Num(n) => Some(ToDWord(n))
    case Str(s) => if CName(s) in flags then Some(ToDWord(flags[CName(s)])) else None
    case _ => None
  }

  /** A name without a NUL byte resolves to its own entry of the flag table. */
  lemma NameResolves(flags: FlagTable, name: string)
    requires '\0' !in name && name in flags
    ensures GetEnvFlag(flags, Str(name)) == Some(ToDWord(flags[name]))
  {
    CNameIsPrefix(name);
  }

  /** Only the bytes before a NUL name the flag: `lua_getfield` receives the
      name as a C string. */
  lemma NameEndsAtNul(flags: FlagTable, name: string, rest: string)
    requires '\0' !in name
    ensures GetEnvFlag(flags, Str(name + ['\0'] + rest)) == GetEnvFlag(flags, Str(name))
  {
    var s := name + ['\0'] + rest;
    var r := CName(s);
    CNameIsPrefix(s);
    CNameIsPrefix(name);
    assert s[|name|] == '\0';
    assert |r| <= |name|;
    assert r == name[..|r|];
    assert r == name == CName(name);
  }

  /** check_env_flag: raises "invalid flag" on argument `pos` exactly when
      get_env_flag fails. */
  function CheckEnvFlag(flags: FlagTable, v: Value, pos: int): (r: Result<DWord>)
    ensures r.Err? <==> GetEnvFlag(flags, v).None?
    ensures r.Err? ==> r.error == ArgError(pos, "invalid flag")
    ensures r.Ok? ==> Some(r.value) == GetEnvFlag(flags, v)
  {
    match GetEnvFlag(flags, v)
    case None => Err(ArgError(pos, "invalid flag"))
    case Some(f) => Ok(f)
  }

  /** The OR of the resolved elements of a list, left to right; None as soon
      as one element fails to resolve. */
  function FoldFlags(flags: FlagTable, xs: seq<Value>): Option<DWord>
  {
    if xs == [] then Some(0)
    else match FoldFlags(flags, xs[..|xs| - 1])
      case None => None
      case Some(acc) =>
        match GetEnvFlag(flags, xs[|xs| - 1])
        case None => None
        case Some(f) => Some(BitOr(acc, f))
  }

  /** What GetFlagCombination computes: a scalar resolves as a single flag,
      a table as the OR of its list (slots 1.. up to the first nil), any
      other value fails. */
  function FlagCombination(flags: FlagTable, v: Value): (r: Option<DWord>)
    ensures !v.Table? && !v.Bool? ==> r == GetEnvFlag(flags, v)
    ensures v.Bool? ==> r == None
  {
    match v
    case Table(m) => FoldFlags(flags, ListPrefix(m, 1))
    case Bool(_) => None
    case _ => GetEnvFlag(flags, v)
  }

  /** Some element of the list fails single-flag resolution. */
  predicate SomeElementFails(flags: FlagTable, xs: seq<Value>)
  {
    exists j :: 0 <= j < |xs| && GetEnvFlag(flags, xs[j]).None?
  }

  /** A combination fails exactly when one of its elements fails. */
  lemma {:induction false} FoldFlagsFailsIff(flags: FlagTable, xs: seq<Value>)
    ensures FoldFlags(flags, xs).None? <==> SomeElementFails(flags, xs)
  {
    if xs != [] {
      var init := xs[..|xs| - 1];
      FoldFlagsFailsIff(flags, init);
      if exists j :: 0 <= j < |init| && GetEnvFlag(flags, init[j]).None? {
        var j :| 0 <= j < |init| && GetEnvFlag(flags, init[j]).None?;
        assert xs[j] == init[j];
      }
      if exists j :: 0 <= j < |xs| && GetEnvFlag(flags, xs[j]).None? {
        var j :| 0 <= j < |xs| && GetEnvFlag(flags, xs[j]).None?;
        if j < |init| {
          assert init[j] == xs[j];
        }
      }
    }
  }

  /** The combination of a concatenation is the OR of the two combinations. */
  lemma {:induction false} FoldFlagsAppend(flags: FlagTable, xs: seq<Value>, ys: seq<Value>)
    ensures FoldFlags(flags, xs + ys) ==
            if FoldFlags(flags, xs).Some? && FoldFlags(flags, ys).Some?
            then Some(BitOr(FoldFlags(flags, xs).value, FoldFlags(flags, ys).value))
            else None
    decreases |ys|
  {
    if ys == [] {
      assert xs + ys == xs;
      assert FoldFlags(flags, ys) == Some(0);
      if FoldFlags(flags, xs).Some? {
        BitOrLaws(FoldFlags(flags, xs).value, 0, 0);
      }
    } else {
      var init, y := ys[..|ys| - 1], ys[|ys| - 1];
      var zs := xs + ys;
      assert zs[..|zs| - 1] == xs + init;
      assert zs[|zs| - 1] == y;
      FoldFlagsAppend(flags, xs, init);
      var fx, fi, fy := FoldFlags(flags, xs), FoldFlags(flags, init), GetEnvFlag(flags, y);
      if fx.Some? && fi.Some? && fy.Some? {
        BitOrLaws(fx.value, fi.value, fy.value);
      }
    }
  }

  /** The order in which the parts of a list are accumulated does not matter. */
  lemma FoldFlagsSwap(flags: FlagTable, xs: seq<Value>, ys: seq<Value>)
    ensures FoldFlags(flags, xs + ys) == FoldFlags(flags, ys + xs)
  {
    FoldFlagsAppend(flags, xs, ys);
    FoldFlagsAppend(flags, ys, xs);
    var fx, fy := FoldFlags(flags, xs), FoldFlags(flags, ys);
    if fx.Some? && fy.Some? {
      BitOrLaws(fx.value, fy.value, 0);
    }
  }

  /** A list table combines to the fold of its elements. */
  lemma CombinationOfList(flags: FlagTable, xs: seq<Value>)
    requires forall i :: 0 <= i < |xs| ==> xs[i] != Nil
    ensures FlagCombination(flags, Table(ListEntries(xs))) == FoldFlags(flags, xs)
  {
    ListOfListEntries(xs);
  }

  lemma FoldSnoc(flags: FlagTable, xs: seq<Value>, x: Value, acc: DWord, f: DWord)
    requires FoldFlags(flags, xs) == Some(acc) && GetEnvFlag(flags, x) == Some(f)
    ensures FoldFlags(flags, xs + [x]) == Some(BitOr(acc, f))
  {
    assert (xs + [x])[..|xs|] == xs;
  }

  lemma FoldThree(flags: FlagTable, a: Value, b: Value, c: Value)
    requires GetEnvFlag(flags, a).Some? && GetEnvFlag(flags, b).Some? && GetEnvFlag(flags, c).Some?
    ensures FoldFlags(flags, [a, b, c]) ==
            Some(BitOr(BitOr(GetEnvFlag(flags, a).value, GetEnvFlag(flags, b).value), GetEnvFlag(flags, c).value))
  {
    var fa, fb, fc := GetEnvFlag(flags, a).value, GetEnvFlag(flags, b).value, GetEnvFlag(flags, c).value;
    assert FoldFlags(flags, []) == Some(0);
    FoldSnoc(flags, [], a, 0, fa);
    assert [] + [a] == [a];
    BitOrLaws(fa, 0, 0);
    FoldSnoc(flags, [a], b, fa, fb);
    assert [a] + [b] == [a, b];
    FoldSnoc(flags, [a, b], c, BitOr(fa, fb), fc);
    assert [a, b] + [c] == [a, b, c];
  }

  /** A list of resolvable flags combines to the OR of its elements,
      e.g. {a, b, c} gives a | b | c. */
  lemma ThreeFlagsCombine(flags: FlagTable, a: Value, b: Value, c: Value)
    requires a != Nil && b != Nil && c != Nil
    requires GetEnvFlag(flags, a).Some? && GetEnvFlag(flags, b).Some? && GetEnvFlag(flags, c).Some?
    ensures FlagCombination(flags, Table(ListEntries([a, b, c]))) ==
            Some(BitOr(BitOr(GetEnvFlag(flags, a).value, GetEnvFlag(flags, b).value), GetEnvFlag(flags, c).value))
  {
    CombinationOfList(flags, [a, b, c]);
    FoldThree(flags, a, b, c);
  }

  /** A table fails to resolve exactly when an element before its first hole
      fails; the partial OR of the elements before it is discarded. */
  lemma CombinationFailsIff(flags: FlagTable, m: map<Key, Value>)
    ensures FlagCombination(flags, Table(m)).None? <==> SomeElementFails(flags, ListPrefix(m, 1))
  {
    var s := ListPrefix(m, 1);
    assert FlagCombination(flags, Table(m)) == FoldFlags(flags, s);
    FoldFlagsFailsIff(flags, s);
  }

  /** An unresolvable element anywhere in the list fails the whole combination,
      even after valid elements. */
  lemma BadElementFailsCombination(flags: FlagTable, xs: seq<Value>, j: int)
    requires forall i :: 0 <= i < |xs| ==> xs[i] != Nil
    requires 0 <= j < |xs| && GetEnvFlag(flags, xs[j]).None?
    ensures FlagCombination(flags, Table(ListEntries(xs))) == None
  {
    ListOfListEntries(xs);
    FoldFlagsFailsIff(flags, xs);
  }

  /** The first nil ends the list: slots after it are never read, and a
      table whose slot 1 is nil combines to 0. */
  lemma CombinationStopsAtHole(flags: FlagTable, m: map<Key, Value>, m': map<Key, Value>, k: int)
    requires 1 <= k && Lookup(m, Index(k)) == Nil
    requires forall j :: 1 <= j <= k ==> Lookup(m, Index(j)) == Lookup(m', Index(j))
    ensures FlagCombination(flags, Table(m)) == FlagCombination(flags, Table(m'))
    ensures k == 1 ==> FlagCombination(flags, Table(m)) == Some(0)
  {
    ListPrefixStopsAtHole(m, m', 1, k);
  }

  /** GetFlagCombination: the C loop that ORs t[1], t[2], ... into `trg`
      until the first nil (success) or the first element get_env_flag
      rejects (failure). */
  method GetFlagCombination(flags: FlagTable, v: Value) returns (ok: bool, trg: DWord)
    ensures ok <==> FlagCombination(flags, v).Some?
    ensures ok ==> trg == FlagCombination(flags, v).value
  {
    trg := 0;
    match v {
      case Num(n) =>
        trg := ToDWord(n);
        ok := true;
      case Nil =>
        ok := true;
      case Str(_) =>
        var f := GetEnvFlag(flags, v);
        ok := f.Some?;
        if ok {
          trg := f.value;
        }
      case Table(m) =>
        ghost var s := ListPrefix(m, 1);
        ok := false;
        var done := false;
        var i := 0;
        while !done
          invariant 0 <= i <= |s|
          invariant !done ==> FoldFlags(flags, s[..i]) == Some(trg) && !ok
          invariant done ==> (ok <==> FoldFlags(flags, s).Some?)
          invariant done && ok ==> FoldFlags(flags, s) == Some(trg)
          decreases |s| - i, !done
        {
          i := i + 1;
          var x := Lookup(m, Index(i));
          if x != Nil {
            assert s[..i][..i - 1] == s[..i - 1];
            var flag := GetEnvFlag(flags, x);
            if flag.Some? {
              trg := BitOr(trg, flag.value);
            } else {
              FoldFlagsFailsIff(flags, s[..i]);
              FoldFlagsFailsIff(flags, s);
              assert s[..i][i - 1] == s[i - 1];
              done := true;
            }
          } else {
            assert s[..i - 1] == s;
            ok, done := true, true;
            i := i - 1;
          }
        }
      case Bool(_) =>
        ok := false;
    }
  }

  /** CheckFlags: raises "invalid flag combination" exactly when the
      combination fails, and otherwise returns it. */
  method CheckFlags(flags: FlagTable, v: Value) returns (r: Result<DWord>)
    ensures r.Err? <==> FlagCombination(flags, v).None?
    ensures r.Err? ==> r.error == RuntimeError("invalid flag combination")
    ensures r.Ok? ==> Some(r.value) == FlagCombination(flags, v)
  {
    var ok, trg := GetFlagCombination(flags, v);
    if !ok {
      return Err(RuntimeError("invalid flag combination"));
    }
    return Ok(trg);
  }
}
