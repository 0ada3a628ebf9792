/** The registry of logger configurations (easylogging++): a list searched by level and type. */
module ConfigurationLists {
  import opened Wrappers

  datatype Level = Global | Trace | Debug | Fatal | Error | Warning | Verbose | Info

  datatype ConfigurationType =
    | Enabled | ToFile | ToStandardOutput | Format | Filename | SubsecondPrecision | PerformanceTracking
    | MaxLogFileSize | LogFlushThreshold

  datatype Configuration = Configuration(level: Level, kind: ConfigurationType, value: string)

  type List = seq<Configuration>

  /** The levels below Global in the order of their numbers 2, 4, ..., 128. */
  function LevelAt(k: nat): (l: Level)
    requires k < 7
    ensures l != Global
  {
    match k
    case 0 => Trace
    case 1 => Debug
    case 2 => Fatal
    case 3 => Error
    case 4 => Warning
    case 5 => Verbose
    case _ => Info
  }

  lemma EveryLevel(l: Level) returns (k: nat)
    requires l != Global
    ensures k < 7 && LevelAt(k) == l
  {
    k := if l == Trace then 0 else if l == Debug then 1 else if l == Fatal then 2 else if l == Error then 3
         else if l == Warning then 4 else if l == Verbose then 5 else 6;
  }

  // ----- Search and update -----

  predicate Matches(c: Configuration, level: Level, kind: ConfigurationType) {
    c.level == level && c.kind == kind
  }

  /** The value found for a level and type. */
  function Lookup(list: List, level: Level, kind: ConfigurationType): Option<string> {
    if list == [] then None
    else if Matches(list[0], level, kind) then Some(list[0].value)
    else Lookup(list[1..], level, kind)
  }

  /** The first match takes the value, or a new entry is appended. */
  function Put(list: List, level: Level, kind: ConfigurationType, value: string): (list': List)
    ensures |list| <= |list'| <= |list| + 1
  {
    if list == [] then [Configuration(level, kind, value)]
    else if Matches(list[0], level, kind) then [list[0].(value := value)] + list[1..]
    else [list[0]] + Put(list[1..], level, kind, value)
  }

  /** `value` at the first `k` levels below Global. */
  function PutLevels(list: List, kind: ConfigurationType, value: string, k: nat): List
    requires k <= 7
  {
    if k == 0 then list else Put(PutLevels(list, kind, value, k - 1), LevelAt(k - 1), kind, value)
  }

  /** Setting Global also sets every level below it. */
  function SetUnsafely(list: List, level: Level, kind: ConfigurationType, value: string): List {
    var list' := Put(list, level, kind, value);
    if level == Global then PutLevels(list', kind, value, 7) else list'
  }

  function SetOne(list: List, level: Level, kind: ConfigurationType, value: string): List {
    var list' := SetUnsafely(list, level, kind, value);
    if level == Global then PutLevels(list', kind, value, 7) else list'
  }

  function SetEverywhere(list: List, kind: ConfigurationType, value: string, includeGlobal: bool): List {
    PutLevels(if includeGlobal then SetOne(list, Global, kind, value) else list, kind, value, 7)
  }

  function SetMissing(list: List, level: Level, kind: ConfigurationType, value: string): List {
    if Lookup(list, level, kind).None? then SetUnsafely(list, level, kind, value) else list
  }

  function SetAll(list: List, base: List): List {
    if base == [] then list
    else
      var c := base[|base| - 1];
      SetOne(SetAll(list, base[..|base| - 1]), c.level, c.kind, c.value)
  }

  // ----- What a search finds after an update -----

  lemma LookupEmpty(l: Level, t: ConfigurationType)
    ensures Lookup([], l, t) == None
  {
  }

  lemma PutCons(c: Configuration, rest: List, level: Level, kind: ConfigurationType, value: string)
    ensures Put([c] + rest, level, kind, value)
         == if Matches(c, level, kind) then [c.(value := value)] + rest else [c] + Put(rest, level, kind, value)
  {
    assert ([c] + rest)[1..] == rest;
  }

  lemma LookupCons(c: Configuration, rest: List, l: Level, t: ConfigurationType)
    ensures Lookup([c] + rest, l, t) == if Matches(c, l, t) then Some(c.value) else Lookup(rest, l, t)
  {
    assert ([c] + rest)[1..] == rest;
  }

  lemma LookupPutCons(c: Configuration, rest: List, level: Level, kind: ConfigurationType, value: string,
                      l: Level, t: ConfigurationType)
    requires !Matches(c, level, kind) ==>
      Lookup(Put(rest, level, kind, value), l, t) == if l == level && t == kind then Some(value) else Lookup(rest, l, t)
    ensures Lookup(Put([c] + rest, level, kind, value), l, t)
         == if l == level && t == kind then Some(value) else Lookup([c] + rest, l, t)
  {
    hide Lookup;
    PutCons(c, rest, level, kind, value);
    LookupCons(c, rest, l, t);
    LookupCons(c.(value := value), rest, l, t);
    LookupCons(c, Put(rest, level, kind, value), l, t);
  }

  lemma {:induction false} LookupPut(list: List, level: Level, kind: ConfigurationType, value: string,
                                     l: Level, t: ConfigurationType)
    ensures Lookup(Put(list, level, kind, value), l, t)
         == if l == level && t == kind then Some(value) else Lookup(list, l, t)
  {
    if list != [] {
      var c, rest := list[0], list[1..];
      assert list == [c] + rest;
      if !Matches(c, level, kind) {
        LookupPut(rest, level, kind, value, l, t);
      }
      LookupPutCons(c, rest, level, kind, value, l, t);
    } else {
      hide Lookup;
      LookupCons(Configuration(level, kind, value), [], l, t);
      LookupEmpty(l, t);
      assert [Configuration(level, kind, value)] + [] == Put([], level, kind, value);
    }
  }

  lemma {:induction false} LookupPutLevels(list: List, kind: ConfigurationType, value: string, k: nat,
                                           l: Level, t: ConfigurationType)
    requires k <= 7
    ensures t != kind || l == Global ==> Lookup(PutLevels(list, kind, value, k), l, t) == Lookup(list, l, t)
    ensures (exists j: nat :: j < k && LevelAt(j) == l) && t == kind ==>
      Lookup(PutLevels(list, kind, value, k), l, t) == Some(value)
  {
    if k > 0 {
      LookupPutLevels(list, kind, value, k - 1, l, t);
      LookupPut(PutLevels(list, kind, value, k - 1), LevelAt(k - 1), kind, value, l, t);
    }
  }

  lemma LookupAllLevels(list: List, kind: ConfigurationType, value: string, l: Level, t: ConfigurationType)
    ensures Lookup(PutLevels(list, kind, value, 7), l, t)
         == if t == kind && l != Global then Some(value) else Lookup(list, l, t)
  {
    hide PutLevels, Lookup;
    LookupPutLevels(list, kind, value, 7, l, t);
    if l != Global {
      var k := EveryLevel(l);
    }
  }

  /** A set value is found at its level, a Global value at every level; everything else stays. */
  lemma LookupSetUnsafely(list: List, level: Level, kind: ConfigurationType, value: string, l: Level,
                          t: ConfigurationType)
    ensures Lookup(SetUnsafely(list, level, kind, value), l, t)
         == if t == kind && (l == level || level == Global) then Some(value) else Lookup(list, l, t)
  {
    hide PutLevels, Put, Lookup;
    LookupPut(list, level, kind, value, l, t);
    LookupAllLevels(Put(list, level, kind, value), kind, value, l, t);
  }

  lemma LookupSetOne(list: List, level: Level, kind: ConfigurationType, value: string, l: Level, t: ConfigurationType)
    ensures Lookup(SetOne(list, level, kind, value), l, t)
         == if t == kind && (l == level || level == Global) then Some(value) else Lookup(list, l, t)
  {
    hide PutLevels, SetUnsafely, Lookup;
    LookupSetUnsafely(list, level, kind, value, l, t);
    LookupAllLevels(SetUnsafely(list, level, kind, value), kind, value, l, t);
  }

  lemma LookupSetEverywhere(list: List, kind: ConfigurationType, value: string, includeGlobal: bool,
                            l: Level, t: ConfigurationType)
    ensures Lookup(SetEverywhere(list, kind, value, includeGlobal), l, t)
         == if t == kind && (l != Global || includeGlobal) then Some(value) else Lookup(list, l, t)
  {
    hide PutLevels, SetOne, Lookup;
    LookupSetOne(list, Global, kind, value, l, t);
    LookupAllLevels(if includeGlobal then SetOne(list, Global, kind, value) else list, kind, value, l, t);
  }

  // ----- Keys are unique, and Global comes first -----

  /** No two entries share level and type. */
  predicate UniqueKeys(list: List) {
    forall i, j :: 0 <= i < j < |list| ==> !Matches(list[i], list[j].level, list[j].kind)
  }

  /** Before the first entry of a level below Global stands the Global entry of its type. */
  predicate GlobalFirst(list: List) {
    forall i :: 0 <= i < |list| && list[i].level != Global ==> Lookup(list[..i], Global, list[i].kind).Some?
  }

  predicate Indexed(list: List) {
    UniqueKeys(list) && GlobalFirst(list)
  }

  /** The keys of an updated list. */
  lemma {:induction false} PutKeys(list: List, level: Level, kind: ConfigurationType, value: string)
    ensures var list' := Put(list, level, kind, value);
            (forall i :: 0 <= i < |list| ==> list'[i].level == list[i].level && list'[i].kind == list[i].kind) &&
            (Lookup(list, level, kind).Some? ==> |list'| == |list|) &&
            (Lookup(list, level, kind).None? ==> list' == list + [Configuration(level, kind, value)])
  {
    if list != [] && !Matches(list[0], level, kind) {
      PutKeys(list[1..], level, kind, value);
      assert list == [list[0]] + list[1..];
    }
  }

  lemma {:induction false} LookupNone(list: List, level: Level, kind: ConfigurationType)
    ensures Lookup(list, level, kind).None? <==> forall i :: 0 <= i < |list| ==> !Matches(list[i], level, kind)
  {
    if list != [] {
      LookupNone(list[1..], level, kind);
      if Lookup(list[1..], level, kind).Some? {
        var i :| 0 <= i < |list[1..]| && Matches(list[1..][i], level, kind);
        assert Matches(list[i + 1], level, kind);
      }
    }
  }

  lemma PutUnique(list: List, level: Level, kind: ConfigurationType, value: string)
    requires UniqueKeys(list)
    ensures UniqueKeys(Put(list, level, kind, value))
  {
    hide Lookup, Put;
    PutKeys(list, level, kind, value);
    LookupNone(list, level, kind);
  }

  /** Whether a key is found depends on the keys only. */
  lemma {:induction false} SameKeysFound(a: List, b: List, level: Level, kind: ConfigurationType)
    requires |a| == |b| && forall i :: 0 <= i < |a| ==> a[i].level == b[i].level && a[i].kind == b[i].kind
    ensures Lookup(a, level, kind).Some? == Lookup(b, level, kind).Some?
  {
    if a != [] {
      SameKeysFound(a[1..], b[1..], level, kind);
    }
  }

  lemma PutGlobalFirst(list: List, level: Level, kind: ConfigurationType, value: string)
    requires GlobalFirst(list) && (level == Global || Lookup(list, Global, kind).Some?)
    ensures GlobalFirst(Put(list, level, kind, value))
  {
    hide Lookup, Put;
    var list' := Put(list, level, kind, value);
    PutKeys(list, level, kind, value);
    forall i | 0 <= i < |list'| && list'[i].level != Global
      ensures Lookup(list'[..i], Global, list'[i].kind).Some?
    {
      if i < |list| {
        SameKeysFound(list[..i], list'[..i], Global, list[i].kind);
      } else {
        assert list'[..i] == list;
      }
    }
  }

  lemma PutIndexed(list: List, level: Level, kind: ConfigurationType, value: string)
    requires Indexed(list) && (level == Global || Lookup(list, Global, kind).Some?)
    ensures Indexed(Put(list, level, kind, value))
  {
    hide UniqueKeys, GlobalFirst, Put, Lookup;
    PutUnique(list, level, kind, value);
    PutGlobalFirst(list, level, kind, value);
  }

  lemma {:induction false} PutLevelsIndexed(list: List, kind: ConfigurationType, value: string, k: nat)
    requires k <= 7 && Indexed(list) && Lookup(list, Global, kind).Some?
    ensures Indexed(PutLevels(list, kind, value, k)) && Lookup(PutLevels(list, kind, value, k), Global, kind).Some?
  {
    if k > 0 {
      hide Indexed, Lookup, Put;
      PutLevelsIndexed(list, kind, value, k - 1);
      PutIndexed(PutLevels(list, kind, value, k - 1), LevelAt(k - 1), kind, value);
      LookupPut(PutLevels(list, kind, value, k - 1), LevelAt(k - 1), kind, value, Global, kind);
    }
  }

  lemma SetUnsafelyIndexed(list: List, level: Level, kind: ConfigurationType, value: string)
    requires Indexed(list) && (level == Global || Lookup(list, Global, kind).Some?)
    ensures Indexed(SetUnsafely(list, level, kind, value))
    ensures Lookup(SetUnsafely(list, level, kind, value), Global, kind).Some?
  {
    hide Indexed, Put, PutLevels, Lookup;
    PutIndexed(list, level, kind, value);
    LookupPut(list, level, kind, value, Global, kind);
    if level == Global {
      PutLevelsIndexed(Put(list, level, kind, value), kind, value, 7);
    }
  }

  /** Setting keeps the list indexed, unless the type has no Global value yet. */
  lemma SetOneIndexed(list: List, level: Level, kind: ConfigurationType, value: string)
    requires Indexed(list) && (level == Global || Lookup(list, Global, kind).Some?)
    ensures Indexed(SetOne(list, level, kind, value)) && Lookup(SetOne(list, level, kind, value), Global, kind).Some?
  {
    hide Indexed, SetUnsafely, PutLevels, Lookup;
    SetUnsafelyIndexed(list, level, kind, value);
    if level == Global {
      PutLevelsIndexed(SetUnsafely(list, level, kind, value), kind, value, 7);
    }
  }

  lemma SetEverywhereIndexed(list: List, kind: ConfigurationType, value: string, includeGlobal: bool)
    requires Indexed(list) && (includeGlobal || Lookup(list, Global, kind).Some?)
    ensures Indexed(SetEverywhere(list, kind, value, includeGlobal))
  {
    hide Indexed, SetOne, PutLevels, Lookup;
    if includeGlobal {
      SetOneIndexed(list, Global, kind, value);
    }
    PutLevelsIndexed(if includeGlobal then SetOne(list, Global, kind, value) else list, kind, value, 7);
  }
}
