// The cvar registry: validated sets, and what survives a save and a load.
module Cvars {
  import opened Grid
  import opened Decimal

  datatype Kind = Int | Float | Bool | Enum | Vec3 | Color | String

  datatype CVar = CVar(value: string, defaultValue: string, kind: Kind, archive: bool, readOnly: bool,
                       enumValues: seq<string>, rangeMin: real, rangeMax: real)

  // How floats are read and printed; a text that is no number reads as 0.
  datatype Codec = Codec(parse: string -> real, format: real -> string)

  // Printing a float and reading it back gives the same float.
  ghost predicate Representable(codec: Codec, f: real) {
    codec.parse(codec.format(f)) == f
  }

  // Everything the reader yields is a float, and floats round-trip.
  ghost predicate RoundTrips(codec: Codec) {
    forall s :: Representable(codec, codec.parse(s))
  }

  function ClampReal(v: real, lo: real, hi: real): real {
    if v < lo then lo else if hi < v then hi else v
  }

  // Conversion of a float to int drops the fraction.
  function Truncate(r: real): int {
    if r >= 0.0 then r.Floor else -((-r).Floor)
  }

  predicate Ranged(cv: CVar) {
    (cv.kind == Int || cv.kind == Float) && cv.rangeMax > cv.rangeMin
  }

  // What a registration must respect: integer ranges fit an int, float ranges are floats.
  ghost predicate WellRegistered(codec: Codec, cv: CVar) {
    && (Ranged(cv) && cv.kind == Int ==> InInt(Truncate(cv.rangeMin)) && InInt(Truncate(cv.rangeMax)))
    && (Ranged(cv) && cv.kind == Float ==> Representable(codec, cv.rangeMin) && Representable(codec, cv.rangeMax))
  }

  // The value that is stored for a text, or nothing when it is refused.
  function Coerce(codec: Codec, cv: CVar, v: string): Option<string> {
    if cv.kind == Enum && cv.enumValues != [] then
      if v in cv.enumValues then Some(v) else None
    else if cv.kind == Bool then
      Some(if v == "1" || v == "true" || v == "on" || v == "yes" then "1" else "0")
    else if Ranged(cv) then
      if cv.kind == Int then Some(PrintInt(Clamp(ParseInt(v), Truncate(cv.rangeMin), Truncate(cv.rangeMax))))
      else Some(codec.format(ClampReal(codec.parse(v), cv.rangeMin, cv.rangeMax)))
    else Some(v)
  }

  lemma TruncateMonotone(a: real, b: real)
    requires a <= b
    ensures Truncate(a) <= Truncate(b)
  {
  }

  // A stored value is stored unchanged when it is set again.
  lemma CoerceIsIdempotent(codec: Codec, cv: CVar, v: string)
    requires RoundTrips(codec) && WellRegistered(codec, cv)
    ensures var w := Coerce(codec, cv, v); w.Some? ==> Coerce(codec, cv, w.value) == w
  {
    if Ranged(cv) && cv.kind == Int {
      TruncateMonotone(cv.rangeMin, cv.rangeMax);
      ParseInvertsPrint(Clamp(ParseInt(v), Truncate(cv.rangeMin), Truncate(cv.rangeMax)));
      hide ParseInt, PrintInt, Truncate;
    } else if Ranged(cv) {
      assert Representable(codec, codec.parse(v));
      assert Representable(codec, ClampReal(codec.parse(v), cv.rangeMin, cv.rangeMax));
    }
  }

  function Dist(a: real, b: real): real {
    if a < b then b - a else a - b
  }

  // w is the value between lo and hi that is nearest to v.
  ghost predicate NearestReal(v: real, lo: real, hi: real, w: real) {
    lo <= w <= hi && forall u :: lo <= u <= hi ==> Dist(w, v) <= Dist(u, v)
  }

  ghost predicate NearestInt(v: int, lo: int, hi: int, w: int) {
    lo <= w <= hi && forall u :: lo <= u <= hi ==> Gap(w, v) <= Gap(u, v)
  }

  // n is r without its fraction.
  predicate WholePart(r: real, n: int) {
    if r >= 0.0 then n as real <= r < n as real + 1.0 else n as real - 1.0 < r <= n as real
  }

  // What is stored, type by type: one of the allowed words, 1 for the four words that mean yes
  // and 0 for all others, the nearest value in range, and any other text as it stands.
  lemma WhatIsStored(codec: Codec, cv: CVar, v: string, lo: int, hi: int)
    requires WholePart(cv.rangeMin, lo) && WholePart(cv.rangeMax, hi)
    ensures var w := Coerce(codec, cv, v);
      && (w == None <==> cv.kind == Enum && |cv.enumValues| > 0 && v !in cv.enumValues)
      && (cv.kind == Bool ==> w == Some(if v in {"1", "true", "on", "yes"} then "1" else "0"))
      && (cv.kind == Int && cv.rangeMin < cv.rangeMax ==>
            exists n :: NearestInt(ParseInt(v), lo, hi, n) && w == Some(PrintInt(n)))
      && (cv.kind == Float && cv.rangeMin < cv.rangeMax ==>
            exists f :: NearestReal(codec.parse(v), cv.rangeMin, cv.rangeMax, f) && w == Some(codec.format(f)))
      && (w != None && cv.kind != Bool && !(cv.kind in {Int, Float} && cv.rangeMin < cv.rangeMax) ==> w == Some(v))
  {
    hide PrintInt, ParseInt;
    if cv.kind == Int && cv.rangeMin < cv.rangeMax {
      var n := Clamp(ParseInt(v), lo, hi);
      assert Truncate(cv.rangeMin) == lo && Truncate(cv.rangeMax) == hi;
      assert NearestInt(ParseInt(v), lo, hi, n);
      assert Coerce(codec, cv, v) == Some(PrintInt(n));
    } else if cv.kind == Float && cv.rangeMin < cv.rangeMax {
      var f := ClampReal(codec.parse(v), cv.rangeMin, cv.rangeMax);
      assert NearestReal(codec.parse(v), cv.rangeMin, cv.rangeMax, f);
    }
  }

  // The same variable, whatever its value.
  function Reset(cv: CVar): CVar {
    cv.(value := cv.defaultValue)
  }

  // Default, or a value that validation leaves alone.
  predicate Settled(codec: Codec, cv: CVar) {
    cv.value == cv.defaultValue || Coerce(codec, cv, cv.value) == Some(cv.value)
  }

  ghost predicate AllSettled(codec: Codec, cvars: map<string, CVar>) {
    forall k <- cvars :: WellRegistered(codec, cvars[k]) && Settled(codec, cvars[k])
  }

  predicate Saved(cv: CVar) {
    cv.archive && cv.value != cv.defaultValue
  }

  // The file a save writes: archived values that differ from their defaults, and unknown keys.
  function FileOf(cvars: map<string, CVar>, unknown: map<string, string>): map<string, string> {
    (map k | k in cvars && Saved(cvars[k]) :: cvars[k].value) + unknown
  }

  lemma WhatIsSaved(cvars: map<string, CVar>, unknown: map<string, string>, k: string)
    ensures k in FileOf(cvars, unknown) <==>
      k in unknown || (k in cvars && cvars[k].archive && cvars[k].value != cvars[k].defaultValue)
    ensures k in FileOf(cvars, unknown) ==>
      FileOf(cvars, unknown)[k] == if k in unknown then unknown[k] else cvars[k].value
  {
  }

  // What loading a file makes of one variable.
  function Loaded(codec: Codec, k: string, cv: CVar, file: map<string, string>): CVar {
    if k in file then
      var v := Coerce(codec, cv, file[k]);
      if v.Some? then cv.(value := v.value) else cv
    else cv
  }

  function AfterLoad(codec: Codec, cvars: map<string, CVar>, file: map<string, string>): map<string, CVar> {
    map k | k in cvars :: Loaded(codec, k, cvars[k], file)
  }

  function UnknownIn(cvars: map<string, CVar>, file: map<string, string>): map<string, string> {
    map k | k in file && k !in cvars :: file[k]
  }

  // A registry with the same registrations, all at their defaults.
  function Defaults(cvars: map<string, CVar>): map<string, CVar> {
    map k | k in cvars :: Reset(cvars[k])
  }

  lemma CoerceIgnoresValue(codec: Codec, cv: CVar, v: string)
    ensures Coerce(codec, Reset(cv), v) == Coerce(codec, cv, v)
  {
  }

  // Saving and then loading into a default registry restores every archived value, and the
  // unknown keys exactly when none of them has been registered meanwhile.
  lemma SaveThenLoad(codec: Codec, cvars: map<string, CVar>, unknown: map<string, string>)
    requires AllSettled(codec, cvars)
    ensures var file := FileOf(cvars, unknown);
      var back := AfterLoad(codec, Defaults(cvars), file);
      && back.Keys == cvars.Keys
      && (forall k <- cvars :: k !in unknown ==> back[k] == if cvars[k].archive then cvars[k] else Reset(cvars[k]))
      && (UnknownIn(Defaults(cvars), file) == unknown <==> unknown.Keys !! cvars.Keys)
  {
    var file := FileOf(cvars, unknown);
    var back := AfterLoad(codec, Defaults(cvars), file);
    forall k | k in cvars && k !in unknown
      ensures back[k] == if cvars[k].archive then cvars[k] else Reset(cvars[k])
    {
      assert Settled(codec, cvars[k]);
      CoerceIgnoresValue(codec, cvars[k], cvars[k].value);
    }
    hide Coerce, Settled;
    if unknown.Keys !! cvars.Keys {
      assert UnknownIn(Defaults(cvars), file) == unknown;
    } else {
      var k :| k in unknown && k in cvars;
      assert k !in UnknownIn(Defaults(cvars), file);
    }
  }

  // ... and a second save writes the same file.
  lemma SecondSaveIsTheSame(codec: Codec, cvars: map<string, CVar>, unknown: map<string, string>)
    requires AllSettled(codec, cvars) && unknown.Keys !! cvars.Keys
    ensures var file := FileOf(cvars, unknown);
      FileOf(AfterLoad(codec, Defaults(cvars), file), UnknownIn(Defaults(cvars), file)) == file
  {
    var file := FileOf(cvars, unknown);
    SaveThenLoad(codec, cvars, unknown);
    var back := AfterLoad(codec, Defaults(cvars), file);
    var again := FileOf(back, unknown);
    hide AfterLoad, UnknownIn;
    forall k
      ensures k in again <==> k in file
      ensures k in file ==> k in again && again[k] == file[k]
    {
      assert k in cvars && k !in unknown ==> back[k] == if cvars[k].archive then cvars[k] else Reset(cvars[k]);
      assert k in unknown ==> k !in cvars;
    }
    assert again == file;
  }

  // ------------------------------------------------------------------------------------------
  // The console
  // ------------------------------------------------------------------------------------------

  class Console {
    const codec: Codec
    var cvars: map<string, CVar>
    var unknown: map<string, string>

    // In every reachable state each value is its default or is left alone by validation.
    ghost predicate Valid()
      reads this
    {
      RoundTrips(codec) && AllSettled(codec, cvars)
    }

    constructor (c: Codec)
      requires RoundTrips(c)
      ensures Valid() && codec == c && cvars == map[] && unknown == map[]
    {
      codec, cvars, unknown := c, map[], map[];
    }

    // The first registration of a name is kept.
    method RegisterCVar(name: string, cv: CVar)
      requires Valid() && WellRegistered(codec, cv) && cv.value == cv.defaultValue
      modifies this`cvars
      ensures Valid() && cvars == if name in old(cvars) then old(cvars) else old(cvars)[name := cv]
    {
      if name in cvars {
        return;
      }
      cvars := cvars[name := cv];
    }

    // A validated set.
    method ApplySet(name: string, value: string, overrideReadOnly: bool) returns (ok: bool)
      requires Valid() && name in cvars
      modifies this`cvars
      ensures Valid()
      ensures var cv := old(cvars)[name];
        var v := Coerce(codec, cv, value);
        && (ok <==> (!cv.readOnly || overrideReadOnly) && v.Some?)
        && cvars == if ok then old(cvars)[name := cv.(value := v.value)] else old(cvars)
    {
      var cv := cvars[name];
      if cv.readOnly && !overrideReadOnly {
        return false;
      }
      var v := Coerce(codec, cv, value);
      if v.None? {
        return false;
      }
      SetKeeps(codec, cvars, name, value);
      cvars := cvars[name := cv.(value := v.value)];
      return true;
    }

    method SetCVarOverride(name: string, value: string) returns (ok: bool)
      requires Valid()
      modifies this`cvars
      ensures Valid()
      ensures name !in old(cvars) ==> !ok && cvars == old(cvars)
      ensures name in old(cvars) ==>
        cvars == old(cvars)[name := Loaded(codec, name, old(cvars)[name], map[name := value])]
    {
      if name !in cvars {
        return false;
      }
      ok := ApplySet(name, value, true);
      assert !ok ==> cvars[name := cvars[name]] == cvars;
    }

    // The file a save leaves behind.
    method SaveCvarsToml() returns (file: map<string, string>)
      requires Valid()
      ensures file == FileOf(cvars, unknown)
    {
      file := map[];
      var todo := cvars.Keys;
      while todo != {}
        invariant todo <= cvars.Keys
        invariant file == map k | k in cvars && k !in todo && Saved(cvars[k]) :: cvars[k].value
        decreases todo
      {
        var k :| k in todo;
        if Saved(cvars[k]) {
          file := file[k := cvars[k].value];
        }
        todo := todo - {k};
      }
      file := file + unknown;
    }

    // Applies every entry of a file; keys that are not registered are kept for the next save.
    method LoadCvarsToml(file: map<string, string>)
      requires Valid()
      modifies this`cvars, this`unknown
      ensures Valid() && cvars == AfterLoad(codec, old(cvars), file) && unknown == UnknownIn(old(cvars), file)
    {
      ghost var was := cvars;
      unknown := map[];
      var todo := file.Keys;
      LoadNothing(codec, was);
      while todo != {}
        invariant todo <= file.Keys && Valid()
        invariant cvars == AfterLoad(codec, was, file - todo) && unknown == UnknownIn(was, file - todo)
        decreases todo
      {
        var k :| k in todo;
        LoadStep(codec, was, file, todo, k);
        if k in cvars {
          var ok := SetCVarOverride(k, file[k]);
        } else {
          unknown := unknown[k := file[k]];
        }
        todo := todo - {k};
      }
      assert file - {} == file;
    }
  }

  lemma SetKeeps(codec: Codec, cvars: map<string, CVar>, name: string, value: string)
    requires RoundTrips(codec) && AllSettled(codec, cvars) && name in cvars && Coerce(codec, cvars[name], value).Some?
    ensures AllSettled(codec, cvars[name := cvars[name].(value := Coerce(codec, cvars[name], value).value)])
  {
    var cv := cvars[name];
    var v := Coerce(codec, cv, value).value;
    CoerceIsIdempotent(codec, cv, value);
    assert Coerce(codec, cv.(value := v), v) == Coerce(codec, cv, v);
    assert WellRegistered(codec, cv.(value := v));
  }

  lemma LoadNothing(codec: Codec, cvars: map<string, CVar>)
    ensures AfterLoad(codec, cvars, map[]) == cvars && UnknownIn(cvars, map[]) == map[]
  {
  }

  lemma LoadStep(codec: Codec, cvars: map<string, CVar>, file: map<string, string>, todo: set<string>, k: string)
    requires k in todo && todo <= file.Keys
    ensures var before, after := file - todo, file - (todo - {k});
      if k in cvars then
        && UnknownIn(cvars, after) == UnknownIn(cvars, before)
        && k in AfterLoad(codec, cvars, before)
        && AfterLoad(codec, cvars, before)[k] == cvars[k]
        && AfterLoad(codec, cvars, after)
             == AfterLoad(codec, cvars, before)[k := Loaded(codec, k, cvars[k], map[k := file[k]])]
      else
        && k !in AfterLoad(codec, cvars, before)
        && AfterLoad(codec, cvars, after) == AfterLoad(codec, cvars, before)
        && UnknownIn(cvars, after) == UnknownIn(cvars, before)[k := file[k]]
  {
    var before, after := file - todo, file - (todo - {k});
    assert forall j :: j in after <==> j in before || j == k;
    hide Coerce;
  }

  // A session: what was set before the save is there after the restart.
  method SaveAndRestart(c: Console, next: Console) returns (file: map<string, string>)
    requires c.Valid() && next.Valid() && c != next && c.codec == next.codec
    requires next.cvars == Defaults(c.cvars) && c.unknown.Keys !! c.cvars.Keys
    modifies next
    ensures next.Valid() && file == FileOf(c.cvars, c.unknown)
    ensures next.unknown == c.unknown && next.cvars.Keys == c.cvars.Keys
    ensures forall k <- c.cvars :: c.cvars[k].archive ==> next.cvars[k] == c.cvars[k]
    ensures FileOf(next.cvars, next.unknown) == file
  {
    file := c.SaveCvarsToml();
    SaveThenLoad(c.codec, c.cvars, c.unknown);
    SecondSaveIsTheSame(c.codec, c.cvars, c.unknown);
    next.LoadCvarsToml(file);
  }
}
