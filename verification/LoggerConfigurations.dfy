/** The mutable configuration objects of the logger, and runs of operations on them (easylogging++). */
module LoggerConfigurations {
  import opened ConfigurationLists
  import opened TypedMaps
  import opened Wrappers

  const DEFAULT_LOG_FILE := "ASV.log"

  const GLOBAL_FORMAT := "%datetime %level [%logger] %msg"
  const DEBUG_FORMAT := "%datetime %level [%logger] [%user@%host] [%func] [%loc] %msg"
  const VERBOSE_FORMAT := "%datetime %level-%vlevel [%logger] %msg"
  const TRACE_FORMAT := "%datetime %level [%logger] [%func] [%loc] %msg"

  // ----- The defaults -----

  function LevelFormats(list: List): List {
    var l1 := SetOne(list, Debug, Format, DEBUG_FORMAT);
    var l2 := SetOne(l1, Error, Format, GLOBAL_FORMAT);
    var l3 := SetOne(l2, Fatal, Format, GLOBAL_FORMAT);
    var l4 := SetOne(l3, Verbose, Format, VERBOSE_FORMAT);
    SetOne(l4, Trace, Format, TRACE_FORMAT)
  }

  function SetToDefaultOf(list: List): List {
    var l1 := SetEverywhere(list, Enabled, "true", true);
    var l2 := SetEverywhere(l1, Filename, DEFAULT_LOG_FILE, true);
    var l3 := SetEverywhere(l2, ToFile, "true", true);
    var l4 := SetEverywhere(l3, ToStandardOutput, "true", true);
    var l5 := SetEverywhere(l4, SubsecondPrecision, "3", true);
    var l6 := SetEverywhere(l5, PerformanceTracking, "true", true);
    var l7 := SetEverywhere(l6, MaxLogFileSize, "0", true);
    var l8 := SetEverywhere(l7, LogFlushThreshold, "0", true);
    var l9 := SetEverywhere(l8, Format, GLOBAL_FORMAT, true);
    LevelFormats(l9)
  }

  /** What Global lacks is set at Global, and so at every level. */
  function MissingGlobals(list: List): List {
    var l1 := SetMissing(list, Global, Enabled, "true");
    var l2 := SetMissing(l1, Global, Filename, DEFAULT_LOG_FILE);
    var l3 := SetMissing(l2, Global, ToStandardOutput, "true");
    var l4 := SetMissing(l3, Global, SubsecondPrecision, "3");
    var l5 := SetMissing(l4, Global, PerformanceTracking, "true");
    var l6 := SetMissing(l5, Global, MaxLogFileSize, "0");
    SetMissing(l6, Global, Format, GLOBAL_FORMAT)
  }

  function MissingFormats(list: List): List {
    var l1 := SetMissing(list, Debug, Format, DEBUG_FORMAT);
    var l2 := SetMissing(l1, Error, Format, GLOBAL_FORMAT);
    var l3 := SetMissing(l2, Fatal, Format, GLOBAL_FORMAT);
    var l4 := SetMissing(l3, Verbose, Format, VERBOSE_FORMAT);
    SetMissing(l4, Trace, Format, TRACE_FORMAT)
  }

  /** ToFile and LogFlushThreshold are not among the values filled in. */
  function SetRemainingOf(list: List): List {
    MissingFormats(MissingGlobals(list))
  }

  // ----- The registry -----

  lemma {:induction false} PutAt(list: List, i: nat, level: Level, kind: ConfigurationType, value: string)
    requires i <= |list| && (i < |list| ==> Matches(list[i], level, kind))
    requires forall j :: 0 <= j < i ==> !Matches(list[j], level, kind)
    ensures Put(list, level, kind, value)
         == if i == |list| then list + [Configuration(level, kind, value)] else list[i := list[i].(value := value)]
  {
    if i > 0 {
      PutAt(list[1..], i - 1, level, kind, value);
      assert list == [list[0]] + list[1..];
    }
  }

  class Configurations {
    var list: List

    constructor ()
      ensures list == []
    {
      list := [];
    }

    /** RegistryWithPred::get: the index of the first match, or the length. */
    method Find(level: Level, kind: ConfigurationType) returns (i: nat)
      ensures i <= |list|
      ensures i < |list| <==> Lookup(list, level, kind).Some?
      ensures i < |list| ==> Matches(list[i], level, kind) && Lookup(list, level, kind) == Some(list[i].value)
      ensures forall j :: 0 <= j < i ==> !Matches(list[j], level, kind)
    {
      i := 0;
      while i < |list| && !Matches(list[i], level, kind)
        invariant i <= |list|
        invariant Lookup(list, level, kind) == Lookup(list[i..], level, kind)
        invariant forall j :: 0 <= j < i ==> !Matches(list[j], level, kind)
      {
        assert list[i..][1..] == list[i + 1..];
        i := i + 1;
      }
    }

    method UnsafeSetGlobally(kind: ConfigurationType, value: string, includeGlobalLevel: bool)
      modifies this
      ensures list == PutLevels(if includeGlobalLevel then SetUnsafely(old(list), Global, kind, value) else old(list),
                                kind, value, 7)
      decreases if includeGlobalLevel then 3 else 1
    {
      if includeGlobalLevel {
        UnsafeSet(Global, kind, value);
      }
      ghost var start := list;
      var k := 0;
      while k < 7
        invariant 0 <= k <= 7 && list == PutLevels(start, kind, value, k)
      {
        UnsafeSet(LevelAt(k), kind, value);
        k := k + 1;
      }
    }

    method UnsafeSet(level: Level, kind: ConfigurationType, value: string)
      modifies this
      ensures list == SetUnsafely(old(list), level, kind, value)
      decreases if level == Global then 2 else 0
    {
      hide Lookup, PutLevels;
      var i := Find(level, kind);
      PutAt(list, i, level, kind, value);
      if i == |list| {
        list := list + [Configuration(level, kind, value)];
      } else {
        list := list[i := list[i].(value := value)];
      }
      if level == Global {
        UnsafeSetGlobally(kind, value, false);
      }
    }

    method Set(level: Level, kind: ConfigurationType, value: string)
      modifies this
      ensures list == SetOne(old(list), level, kind, value)
    {
      hide SetUnsafely, PutLevels;
      UnsafeSet(level, kind, value);
      if level == Global {
        UnsafeSetGlobally(kind, value, false);
      }
    }

    method SetGlobally(kind: ConfigurationType, value: string, includeGlobalLevel: bool)
      modifies this
      ensures list == SetEverywhere(old(list), kind, value, includeGlobalLevel)
    {
      if includeGlobalLevel {
        Set(Global, kind, value);
      }
      ghost var start := list;
      var k := 0;
      while k < 7
        invariant 0 <= k <= 7 && list == PutLevels(start, kind, value, k)
      {
        hide Put;
        Set(LevelAt(k), kind, value);
        k := k + 1;
      }
    }

    method UnsafeSetIfNotExist(level: Level, kind: ConfigurationType, value: string)
      modifies this
      ensures list == SetMissing(old(list), level, kind, value)
    {
      hide SetUnsafely, Lookup;
      var i := Find(level, kind);
      if i == |list| {
        UnsafeSet(level, kind, value);
      }
    }

    method SetToDefault()
      modifies this
      ensures list == SetToDefaultOf(old(list))
    {
      hide SetEverywhere, SetOne;
      SetGlobally(Enabled, "true", true);
      SetGlobally(Filename, DEFAULT_LOG_FILE, true);
      SetGlobally(ToFile, "true", true);
      SetGlobally(ToStandardOutput, "true", true);
      SetGlobally(SubsecondPrecision, "3", true);
      SetGlobally(PerformanceTracking, "true", true);
      SetGlobally(MaxLogFileSize, "0", true);
      SetGlobally(LogFlushThreshold, "0", true);
      SetGlobally(Format, GLOBAL_FORMAT, true);
      Set(Debug, Format, DEBUG_FORMAT);
      Set(Error, Format, GLOBAL_FORMAT);
      Set(Fatal, Format, GLOBAL_FORMAT);
      Set(Verbose, Format, VERBOSE_FORMAT);
      Set(Trace, Format, TRACE_FORMAT);
    }

    method SetRemainingToDefault()
      modifies this
      ensures list == SetRemainingOf(old(list))
    {
      hide SetMissing;
      UnsafeSetIfNotExist(Global, Enabled, "true");
      UnsafeSetIfNotExist(Global, Filename, DEFAULT_LOG_FILE);
      UnsafeSetIfNotExist(Global, ToStandardOutput, "true");
      UnsafeSetIfNotExist(Global, SubsecondPrecision, "3");
      UnsafeSetIfNotExist(Global, PerformanceTracking, "true");
      UnsafeSetIfNotExist(Global, MaxLogFileSize, "0");
      UnsafeSetIfNotExist(Global, Format, GLOBAL_FORMAT);
      UnsafeSetIfNotExist(Debug, Format, DEBUG_FORMAT);
      UnsafeSetIfNotExist(Error, Format, GLOBAL_FORMAT);
      UnsafeSetIfNotExist(Fatal, Format, GLOBAL_FORMAT);
      UnsafeSetIfNotExist(Verbose, Format, VERBOSE_FORMAT);
      UnsafeSetIfNotExist(Trace, Format, TRACE_FORMAT);
    }

    method SetFromBase(base: Configurations?)
      modifies this
      ensures list == if base == null || base == this then old(list) else SetAll(old(list), old(base.list))
    {
      if base == null || base == this {
        return;
      }
      hide SetOne;
      var i := 0;
      while i < |base.list|
        invariant 0 <= i <= |base.list| && base.list == old(base.list)
        invariant list == SetAll(old(list), base.list[..i])
      {
        var c := base.list[i];
        assert base.list[..i + 1][..i] == base.list[..i];
        Set(c.level, c.kind, c.value);
        i := i + 1;
      }
      assert base.list[..i] == base.list;
    }
  }

  // ----- Runs -----

  datatype Op =
    | Set(level: Level, kind: ConfigurationType, value: string)
    | SetGlobally(kind: ConfigurationType, value: string, includeGlobalLevel: bool)
    | SetRemainingToDefault
    | SetFromBase(base: List)

  function Apply(list: List, op: Op): List {
    match op
    case Set(level, kind, value) => SetOne(list, level, kind, value)
    case SetGlobally(kind, value, all) => SetEverywhere(list, kind, value, all)
    case SetRemainingToDefault => SetRemainingOf(list)
    case SetFromBase(base) => SetAll(list, base)
  }

  /** setToDefault on a new object, and operations after it. */
  function Run(ops: seq<Op>): List {
    if ops == [] then SetToDefaultOf([]) else Apply(Run(ops[..|ops| - 1]), ops[|ops| - 1])
  }

  /** The value a base sets last at a level, if it sets one. */
  function BaseSets(base: List, l: Level, t: ConfigurationType): Option<string> {
    if base == [] then None
    else
      var c := base[|base| - 1];
      if c.kind == t && (c.level == l || c.level == Global) then Some(c.value)
      else BaseSets(base[..|base| - 1], l, t)
  }

  /** The value an operation sets at a level, if it sets one. */
  function OpSets(op: Op, l: Level, t: ConfigurationType): Option<string> {
    match op
    case Set(level, kind, value) => if kind == t && (level == l || level == Global) then Some(value) else None
    case SetGlobally(kind, value, all) => if kind == t && (l != Global || all) then Some(value) else None
    case SetRemainingToDefault => None
    case SetFromBase(base) => BaseSets(base, l, t)
  }

  function DefaultValue(l: Level, t: ConfigurationType): string {
    match t
    case Enabled => "true"
    case ToFile => "true"
    case ToStandardOutput => "true"
    case Filename => DEFAULT_LOG_FILE
    case SubsecondPrecision => "3"
    case PerformanceTracking => "true"
    case MaxLogFileSize => "0"
    case LogFlushThreshold => "0"
    case Format =>
      if l == Debug then DEBUG_FORMAT else if l == Verbose then VERBOSE_FORMAT
      else if l == Trace then TRACE_FORMAT else GLOBAL_FORMAT
  }

  /** The value last set at a level, the default if none was. */
  function LastSet(ops: seq<Op>, l: Level, t: ConfigurationType): string {
    if ops == [] then DefaultValue(l, t)
    else
      match OpSets(ops[|ops| - 1], l, t)
      case Some(value) => value
      case None => LastSet(ops[..|ops| - 1], l, t)
  }

  lemma LookupDefaultGlobals(l: Level, t: ConfigurationType, list: List)
    requires list == SetEverywhere(SetEverywhere(SetEverywhere(SetEverywhere([], Enabled, "true", true),
                       Filename, DEFAULT_LOG_FILE, true), ToFile, "true", true), ToStandardOutput, "true", true)
    ensures Lookup(list, l, t) == if t == Enabled || t == Filename || t == ToFile || t == ToStandardOutput
                                  then Some(DefaultValue(l, t)) else None
  {
    hide SetEverywhere;
    var l1 := SetEverywhere([], Enabled, "true", true);
    var l2 := SetEverywhere(l1, Filename, DEFAULT_LOG_FILE, true);
    var l3 := SetEverywhere(l2, ToFile, "true", true);
    LookupSetEverywhere([], Enabled, "true", true, l, t);
    LookupSetEverywhere(l1, Filename, DEFAULT_LOG_FILE, true, l, t);
    LookupSetEverywhere(l2, ToFile, "true", true, l, t);
    LookupSetEverywhere(l3, ToStandardOutput, "true", true, l, t);
  }

  lemma LookupLevelFormats(list: List, l: Level, t: ConfigurationType)
    requires Lookup(list, l, t) == Some(if t == Format then GLOBAL_FORMAT else DefaultValue(l, t))
    ensures Lookup(LevelFormats(list), l, t) == Some(DefaultValue(l, t))
  {
    hide SetOne, Lookup;
    var l1 := SetOne(list, Debug, Format, DEBUG_FORMAT);
    var l2 := SetOne(l1, Error, Format, GLOBAL_FORMAT);
    var l3 := SetOne(l2, Fatal, Format, GLOBAL_FORMAT);
    var l4 := SetOne(l3, Verbose, Format, VERBOSE_FORMAT);
    LookupSetOne(list, Debug, Format, DEBUG_FORMAT, l, t);
    LookupSetOne(l1, Error, Format, GLOBAL_FORMAT, l, t);
    LookupSetOne(l2, Fatal, Format, GLOBAL_FORMAT, l, t);
    LookupSetOne(l3, Verbose, Format, VERBOSE_FORMAT, l, t);
    LookupSetOne(l4, Trace, Format, TRACE_FORMAT, l, t);
  }

  lemma LookupDefault(l: Level, t: ConfigurationType)
    ensures Lookup(SetToDefaultOf([]), l, t) == Some(DefaultValue(l, t))
  {
    hide SetEverywhere, Lookup, LevelFormats;
    var l1 := SetEverywhere([], Enabled, "true", true);
    var l2 := SetEverywhere(l1, Filename, DEFAULT_LOG_FILE, true);
    var l3 := SetEverywhere(l2, ToFile, "true", true);
    var l4 := SetEverywhere(l3, ToStandardOutput, "true", true);
    var l5 := SetEverywhere(l4, SubsecondPrecision, "3", true);
    var l6 := SetEverywhere(l5, PerformanceTracking, "true", true);
    var l7 := SetEverywhere(l6, MaxLogFileSize, "0", true);
    var l8 := SetEverywhere(l7, LogFlushThreshold, "0", true);
    var l9 := SetEverywhere(l8, Format, GLOBAL_FORMAT, true);
    LookupDefaultGlobals(l, t, l4);
    LookupSetEverywhere(l4, SubsecondPrecision, "3", true, l, t);
    LookupSetEverywhere(l5, PerformanceTracking, "true", true, l, t);
    LookupSetEverywhere(l6, MaxLogFileSize, "0", true, l, t);
    LookupSetEverywhere(l7, LogFlushThreshold, "0", true, l, t);
    LookupSetEverywhere(l8, Format, GLOBAL_FORMAT, true, l, t);
    LookupLevelFormats(l9, l, t);
  }

  lemma {:induction false} LookupSetAll(list: List, base: List, l: Level, t: ConfigurationType)
    ensures Lookup(SetAll(list, base), l, t)
         == if BaseSets(base, l, t).Some? then BaseSets(base, l, t) else Lookup(list, l, t)
  {
    if base != [] {
      hide SetOne, Lookup;
      var n := |base| - 1;
      LookupSetAll(list, base[..n], l, t);
      LookupSetOne(SetAll(list, base[..n]), base[n].level, base[n].kind, base[n].value, l, t);
    }
  }

  /** On a list with a value for every level and type, nothing is missing. */
  lemma NothingMissing(list: List)
    requires forall l, t :: Lookup(list, l, t).Some?
    ensures SetRemainingOf(list) == list
  {
    hide SetUnsafely, Lookup;
  }

  /** After any run, every level and type holds the value last set there. */
  lemma {:induction false} RunLookup(ops: seq<Op>, l: Level, t: ConfigurationType)
    ensures Lookup(Run(ops), l, t) == Some(LastSet(ops, l, t))
  {
    hide SetOne, SetEverywhere, SetAll, SetRemainingOf, SetToDefaultOf, Lookup, DefaultValue, BaseSets;
    if ops == [] {
      LookupDefault(l, t);
    } else {
      var before, list := ops[..|ops| - 1], Run(ops[..|ops| - 1]);
      RunLookup(before, l, t);
      match ops[|ops| - 1] {
        case Set(level, kind, value) => LookupSetOne(list, level, kind, value, l, t);
        case SetGlobally(kind, value, all) => LookupSetEverywhere(list, kind, value, all, l, t);
        case SetRemainingToDefault =>
          forall l', t'
            ensures Lookup(list, l', t').Some?
          {
            RunLookup(before, l', t');
          }
          NothingMissing(list);
        case SetFromBase(base) => LookupSetAll(list, base, l, t);
      }
    }
  }

  // ----- Every run keeps the list indexed -----

  lemma EmptyIndexed()
    ensures Indexed([])
  {
  }

  lemma LevelFormatsIndexed(list: List)
    requires Indexed(list) && Lookup(list, Global, Format).Some?
    ensures Indexed(LevelFormats(list))
  {
    hide Indexed, SetOne, Lookup;
    var l1 := SetOne(list, Debug, Format, DEBUG_FORMAT);
    var l2 := SetOne(l1, Error, Format, GLOBAL_FORMAT);
    var l3 := SetOne(l2, Fatal, Format, GLOBAL_FORMAT);
    var l4 := SetOne(l3, Verbose, Format, VERBOSE_FORMAT);
    SetOneIndexed(list, Debug, Format, DEBUG_FORMAT);
    SetOneIndexed(l1, Error, Format, GLOBAL_FORMAT);
    SetOneIndexed(l2, Fatal, Format, GLOBAL_FORMAT);
    SetOneIndexed(l3, Verbose, Format, VERBOSE_FORMAT);
    SetOneIndexed(l4, Trace, Format, TRACE_FORMAT);
  }

  lemma DefaultIndexed()
    ensures Indexed(SetToDefaultOf([]))
  {
    hide Indexed, SetEverywhere, LevelFormats, Lookup;
    EmptyIndexed();
    var l1 := SetEverywhere([], Enabled, "true", true);
    SetEverywhereIndexed([], Enabled, "true", true);
    var l2 := SetEverywhere(l1, Filename, DEFAULT_LOG_FILE, true);
    SetEverywhereIndexed(l1, Filename, DEFAULT_LOG_FILE, true);
    var l3 := SetEverywhere(l2, ToFile, "true", true);
    SetEverywhereIndexed(l2, ToFile, "true", true);
    var l4 := SetEverywhere(l3, ToStandardOutput, "true", true);
    SetEverywhereIndexed(l3, ToStandardOutput, "true", true);
    var l5 := SetEverywhere(l4, SubsecondPrecision, "3", true);
    SetEverywhereIndexed(l4, SubsecondPrecision, "3", true);
    var l6 := SetEverywhere(l5, PerformanceTracking, "true", true);
    SetEverywhereIndexed(l5, PerformanceTracking, "true", true);
    var l7 := SetEverywhere(l6, MaxLogFileSize, "0", true);
    SetEverywhereIndexed(l6, MaxLogFileSize, "0", true);
    var l8 := SetEverywhere(l7, LogFlushThreshold, "0", true);
    SetEverywhereIndexed(l7, LogFlushThreshold, "0", true);
    var l9 := SetEverywhere(l8, Format, GLOBAL_FORMAT, true);
    SetEverywhereIndexed(l8, Format, GLOBAL_FORMAT, true);
    LookupSetEverywhere(l8, Format, GLOBAL_FORMAT, true, Global, Format);
    LevelFormatsIndexed(l9);
  }

  lemma {:induction false} SetAllIndexed(list: List, base: List)
    requires Indexed(list) && forall t :: Lookup(list, Global, t).Some?
    ensures Indexed(SetAll(list, base))
  {
    if base != [] {
      hide Indexed, SetOne, Lookup;
      var n := |base| - 1;
      SetAllIndexed(list, base[..n]);
      LookupSetAll(list, base[..n], Global, base[n].kind);
      SetOneIndexed(SetAll(list, base[..n]), base[n].level, base[n].kind, base[n].value);
    }
  }

  /** After any run the keys are unique and Global comes first. */
  lemma {:induction false} RunIndexed(ops: seq<Op>)
    ensures Indexed(Run(ops))
  {
    hide Indexed, SetOne, SetEverywhere, SetAll, SetRemainingOf, SetToDefaultOf, Lookup, LastSet;
    if ops == [] {
      DefaultIndexed();
    } else {
      var before, list := ops[..|ops| - 1], Run(ops[..|ops| - 1]);
      RunIndexed(before);
      forall l, t
        ensures Lookup(list, l, t).Some?
      {
        RunLookup(before, l, t);
      }
      match ops[|ops| - 1] {
        case Set(level, kind, value) => SetOneIndexed(list, level, kind, value);
        case SetGlobally(kind, value, all) => SetEverywhereIndexed(list, kind, value, all);
        case SetRemainingToDefault => NothingMissing(list);
        case SetFromBase(base) => SetAllIndexed(list, base);
      }
    }
  }

  lemma IndexedPrefix(list: List)
    requires list != [] && Indexed(list)
    ensures var p, c := list[..|list| - 1], list[|list| - 1];
            Indexed(p) && (c.level != Global ==> Lookup(p, Global, c.kind).Some?)
  {
    hide Lookup;
    var p, c := list[..|list| - 1], list[|list| - 1];
    forall i | 0 <= i < |p| && p[i].level != Global
      ensures Lookup(p[..i], Global, p[i].kind).Some?
    {
      assert p[..i] == list[..i] && p[i] == list[i];
    }
  }

  lemma {:induction false} IndexedStartsGlobal<T>(list: List, kind: ConfigurationType, parse: (Level, string) -> T)
    requires Indexed(list)
    ensures First(list, kind).Some? ==>
      First(list, kind).value.level == Global && Lookup(list, Global, kind) == Some(First(list, kind).value.value)
    ensures First(list, kind).None? ==> Lookup(list, Global, kind).None?
    ensures StartsGlobal(list, kind, parse)
  {
    if list != [] {
      var p, c := list[..|list| - 1], list[|list| - 1];
      IndexedPrefix(list);
      IndexedStartsGlobal(p, kind, parse);
      hide Indexed, Lookup;
      LookupSnoc(p, c, Global, kind);
      assert list == p + [c];
    }
  }

  lemma IndexedUnique(list: List)
    requires Indexed(list)
    ensures UniqueKeys(list)
  {
  }

  /** After any run, the index over the list returns at every level what was last set there, parsed. */
  lemma IndexReturnsLastSet<T(!new)>(ops: seq<Op>, kind: ConfigurationType, parse: (Level, string) -> T, l: Level,
                                     default: T)
    ensures GetConfig(Compress(Run(ops), kind, parse), l, default) == parse(l, LastSet(ops, l, kind))
  {
    hide Indexed, Run, Lookup, Compress, First, StartsGlobal, UniqueKeys;
    RunIndexed(ops);
    RunLookup(ops, l, kind);
    IndexedUnique(Run(ops));
    IndexedStartsGlobal(Run(ops), kind, parse);
    AgreesExactly(Run(ops), kind, parse);
  }

  // ----- Taking over a base -----

  lemma NoGlobalNoLevel(list: List, l: Level, t: ConfigurationType)
    requires Indexed(list) && Lookup(list, Global, t).None?
    ensures Lookup(list, l, t).None?
  {
    hide Lookup;
    LookupNone(list, Global, t);
    LookupNone(list, l, t);
    forall i | 0 <= i < |list|
      ensures !Matches(list[i], l, t)
    {
      LookupNone(list[..i], Global, t);
    }
  }

  /** An indexed base taken over by a new object answers every search as before, or with its Global value. */
  lemma {:induction false} FromBasePreserves(base: List, l: Level, t: ConfigurationType)
    requires Indexed(base)
    ensures Lookup(SetAll([], base), l, t)
         == if Lookup(base, l, t).Some? then Lookup(base, l, t) else Lookup(base, Global, t)
  {
    if base != [] {
      var p, c := base[..|base| - 1], base[|base| - 1];
      assert base == p + [c];
      IndexedPrefix(base);
      IndexedUnique(base);
      Prefix(base);
      FromBasePreserves(p, l, t);
      assert SetAll([], base) == SetOne(SetAll([], p), c.level, c.kind, c.value);
      hide Indexed, SetOne, SetAll, UniqueKeys;
      LookupSetOne(SetAll([], p), c.level, c.kind, c.value, l, t);
      LookupSnoc(p, c, l, t);
      LookupSnoc(p, c, Global, t);
      if Lookup(p, Global, t).None? {
        NoGlobalNoLevel(p, l, t);
      }
      hide Lookup;
    }
  }

  // ----- What setRemainingToDefault does to an incomplete list -----

  lemma LookupSetMissing(list: List, level: Level, kind: ConfigurationType, value: string, l: Level,
                         t: ConfigurationType)
    ensures Lookup(SetMissing(list, level, kind, value), l, t)
         == if Lookup(list, level, kind).None? && t == kind && (l == level || level == Global) then Some(value)
            else Lookup(list, l, t)
  {
    hide SetUnsafely, Lookup;
    LookupSetUnsafely(list, level, kind, value, l, t);
  }

  /** The levels whose formats are filled in one by one. */
  predicate HasOwnFormat(l: Level) {
    l in {Debug, Error, Fatal, Verbose, Trace}
  }

  lemma LookupMissingFormats(list: List, l: Level, t: ConfigurationType)
    ensures Lookup(MissingFormats(list), l, t)
         == if Lookup(list, l, t).None? && t == Format && HasOwnFormat(l) then Some(DefaultValue(l, Format))
            else Lookup(list, l, t)
  {
    hide SetMissing, Lookup;
    var l1 := SetMissing(list, Debug, Format, DEBUG_FORMAT);
    var l2 := SetMissing(l1, Error, Format, GLOBAL_FORMAT);
    var l3 := SetMissing(l2, Fatal, Format, GLOBAL_FORMAT);
    var l4 := SetMissing(l3, Verbose, Format, VERBOSE_FORMAT);
    LookupSetMissing(list, Debug, Format, DEBUG_FORMAT, l, t);
    LookupSetMissing(l1, Error, Format, GLOBAL_FORMAT, l, t);
    LookupSetMissing(l2, Fatal, Format, GLOBAL_FORMAT, l, t);
    LookupSetMissing(l3, Verbose, Format, VERBOSE_FORMAT, l, t);
    LookupSetMissing(l4, Trace, Format, TRACE_FORMAT, l, t);
  }

  /** The types setRemainingToDefault never looks at. */
  predicate NeverFilled(t: ConfigurationType) {
    t == ToFile || t == LogFlushThreshold
  }

  lemma LookupMissingGlobals(list: List, l: Level, t: ConfigurationType)
    ensures Lookup(MissingGlobals(list), l, t)
         == if !NeverFilled(t) && Lookup(list, Global, t).None? then Some(DefaultValue(Global, t))
            else Lookup(list, l, t)
  {
    hide SetMissing, Lookup;
    var l1 := SetMissing(list, Global, Enabled, "true");
    var l2 := SetMissing(l1, Global, Filename, DEFAULT_LOG_FILE);
    var l3 := SetMissing(l2, Global, ToStandardOutput, "true");
    var l4 := SetMissing(l3, Global, SubsecondPrecision, "3");
    var l5 := SetMissing(l4, Global, PerformanceTracking, "true");
    var l6 := SetMissing(l5, Global, MaxLogFileSize, "0");
    forall l' | l' == l || l' == Global
      ensures Lookup(MissingGlobals(list), l', t)
           == if !NeverFilled(t) && Lookup(list, Global, t).None? then Some(DefaultValue(Global, t))
              else Lookup(list, l', t)
    {
      LookupSetMissing(list, Global, Enabled, "true", l', t);
      LookupSetMissing(l1, Global, Filename, DEFAULT_LOG_FILE, l', t);
      LookupSetMissing(l2, Global, ToStandardOutput, "true", l', t);
      LookupSetMissing(l3, Global, SubsecondPrecision, "3", l', t);
      LookupSetMissing(l4, Global, PerformanceTracking, "true", l', t);
      LookupSetMissing(l5, Global, MaxLogFileSize, "0", l', t);
      LookupSetMissing(l6, Global, Format, GLOBAL_FORMAT, l', t);
      LookupSetMissing(list, Global, Enabled, "true", Global, t);
      LookupSetMissing(l1, Global, Filename, DEFAULT_LOG_FILE, Global, t);
      LookupSetMissing(l2, Global, ToStandardOutput, "true", Global, t);
      LookupSetMissing(l3, Global, SubsecondPrecision, "3", Global, t);
      LookupSetMissing(l4, Global, PerformanceTracking, "true", Global, t);
      LookupSetMissing(l5, Global, MaxLogFileSize, "0", Global, t);
    }
  }

  /**
   * What setRemainingToDefault leaves at every level. A type without a Global value gets its Global default
   * everywhere; only of a type that has one are the formats of single levels filled in.
   */
  lemma RemainingMeans(list: List, l: Level, t: ConfigurationType)
    ensures Lookup(SetRemainingOf(list), l, t)
         == if !NeverFilled(t) && Lookup(list, Global, t).None? then Some(DefaultValue(Global, t))
            else if Lookup(list, l, t).None? && t == Format && HasOwnFormat(l) then Some(DefaultValue(l, Format))
            else Lookup(list, l, t)
  {
    hide SetMissing, Lookup, MissingFormats, MissingGlobals;
    LookupMissingGlobals(list, l, t);
    LookupMissingFormats(MissingGlobals(list), l, t);
  }

  /** A value set at a level survives exactly if its type is never filled, has a Global value, or it is the default. */
  lemma SurvivesExactly(list: List, l: Level, t: ConfigurationType)
    requires Lookup(list, l, t).Some?
    ensures Lookup(SetRemainingOf(list), l, t) == Lookup(list, l, t)
       <==> NeverFilled(t) || Lookup(list, Global, t).Some? || Lookup(list, l, t) == Some(DefaultValue(Global, t))
  {
    hide SetRemainingOf, Lookup, DefaultValue;
    RemainingMeans(list, l, t);
  }

  lemma FormatsDiffer()
    ensures GLOBAL_FORMAT != DEBUG_FORMAT && GLOBAL_FORMAT != VERBOSE_FORMAT && GLOBAL_FORMAT != TRACE_FORMAT
  {
    assert |GLOBAL_FORMAT| < |DEBUG_FORMAT| && |GLOBAL_FORMAT| < |VERBOSE_FORMAT| && |GLOBAL_FORMAT| < |TRACE_FORMAT|;
  }

  /**
   * A level without a value gets its own default exactly if the type has no Global value and the
   * default there is Global's, or if it has one and the level is one of those filled in one by one.
   */
  lemma FilledExactly(list: List, l: Level, t: ConfigurationType)
    requires Lookup(list, l, t).None?
    ensures Lookup(SetRemainingOf(list), l, t) == Some(DefaultValue(l, t))
       <==> !NeverFilled(t) &&
            if Lookup(list, Global, t).None? then t != Format || l !in {Debug, Verbose, Trace}
            else t == Format && HasOwnFormat(l)
  {
    hide SetRemainingOf, Lookup;
    RemainingMeans(list, l, t);
    FormatsDiffer();
  }

  /** A logger silenced at Debug only is heard again. */
  lemma SilencedAgainEnabled()
    ensures var list := SetOne([], Debug, Enabled, "false");
            Lookup(list, Debug, Enabled) == Some("false") &&
            Lookup(SetRemainingOf(list), Debug, Enabled) == Some("true")
  {
    hide SetRemainingOf, SetOne, Lookup;
    LookupSetOne([], Debug, Enabled, "false", Debug, Enabled);
    LookupSetOne([], Debug, Enabled, "false", Global, Enabled);
    LookupEmpty(Global, Enabled);
    RemainingMeans(SetOne([], Debug, Enabled, "false"), Debug, Enabled);
  }

  // ----- The typed configurations -----

  function IsSpace(c: char): bool {
    c == ' ' || 9 <= c as int <= 13
  }

  function IsDigit(c: char): bool {
    '0' <= c <= '9'
  }

  function Trim(s: string): string {
    if s == "" then ""
    else if IsSpace(s[|s| - 1]) then Trim(s[..|s| - 1])
    else if IsSpace(s[0]) then Trim(s[1..])
    else s
  }

  /** Spaces, tabs, line feeds, vertical tabs, form feeds and returns. */
  lemma SpaceMeans(c: char)
    ensures IsSpace(c) <==> c in {' ', '\t', '\n', 11 as char, 12 as char, '\r'}
  {
  }

  predicate AllSpace(s: string) {
    forall i :: 0 <= i < |s| ==> IsSpace(s[i])
  }

  /** Neither the first nor the last character is a space. */
  predicate Bare(s: string) {
    s != "" ==> !IsSpace(s[0]) && !IsSpace(s[|s| - 1])
  }

  lemma {:induction false} TrimLeft(before: string, s: string)
    requires AllSpace(before) && Bare(s)
    ensures Trim(before + s) == s
    decreases |before|
  {
    var whole := before + s;
    if before == "" {
      assert whole == s;
    } else if s == "" {
      assert whole[..|whole| - 1] == before[..|before| - 1] + s;
      TrimLeft(before[..|before| - 1], s);
    } else {
      assert whole[|whole| - 1] == s[|s| - 1] && whole[1..] == before[1..] + s;
      TrimLeft(before[1..], s);
    }
  }

  lemma {:induction false} TrimRight(s: string, after: string)
    requires AllSpace(after)
    ensures Trim(s + after) == Trim(s)
    decreases |after|
  {
    var whole := s + after;
    if after == "" {
      assert whole == s;
    } else {
      var n := |after| - 1;
      assert whole[..|whole| - 1] == s + after[..n] && whole[|whole| - 1] == after[n];
      TrimRight(s, after[..n]);
    }
  }

  lemma TrimPadded(before: string, s: string, after: string)
    requires AllSpace(before) && Bare(s) && AllSpace(after)
    ensures Trim(before + s + after) == s
  {
    hide Trim, AllSpace, Bare;
    TrimRight(before + s, after);
    TrimLeft(before, s);
  }

  /** Trimming takes away spaces at both ends, and all of them. */
  lemma {:induction false} TrimSplits(s: string) returns (before: string, after: string)
    ensures AllSpace(before) && AllSpace(after) && Bare(Trim(s)) && s == before + Trim(s) + after
  {
    if s == "" {
      before, after := "", "";
    } else if IsSpace(s[|s| - 1]) {
      before, after := TrimSplits(s[..|s| - 1]);
      after := after + [s[|s| - 1]];
    } else if IsSpace(s[0]) {
      before, after := TrimSplits(s[1..]);
      before := [s[0]] + before;
    } else {
      before, after := "", "";
      assert s == "" + s + "";
    }
  }

  function GetBool(s: string): bool {
    var t := Trim(s);
    t == "TRUE" || t == "true" || t == "1"
  }

  /** The three words for true, with any spaces around them, are read as true, and nothing else is. */
  lemma BoolMeans(s: string)
    ensures GetBool(s) <==>
            exists before: string, word: string, after: string ::
              AllSpace(before) && AllSpace(after) && word in {"TRUE", "true", "1"} && s == before + word + after
  {
    hide Trim;
    var before, after := TrimSplits(s);
    if GetBool(s) {
      assert Trim(s) in {"TRUE", "true", "1"};
    }
    forall a: string, word: string, b: string |
      AllSpace(a) && AllSpace(b) && word in {"TRUE", "true", "1"} && s == a + word + b
      ensures GetBool(s)
    {
      TrimPadded(a, word, b);
    }
  }

  function DigitValue(c: char): nat
    requires IsDigit(c)
  {
    c as int - '0' as int
  }

  function Number(digits: string): nat
    requires forall i :: 0 <= i < |digits| ==> IsDigit(digits[i])
  {
    if digits == "" then 0
    else 10 * Number(digits[..|digits| - 1]) + DigitValue(digits[|digits| - 1])
  }

  /** Anything but digits reads as zero. */
  function GetULong(s: string): nat {
    var t := Trim(s);
    if forall i :: 0 <= i < |t| ==> IsDigit(t[i]) then Number(t) else 0
  }

  function Digit(n: nat): (c: char)
    requires n < 10
    ensures IsDigit(c)
  {
    ('0' as int + n) as char
  }

  /** A number in decimal, without leading zeros. */
  function Decimal(n: nat): (s: string)
    ensures s != ""
  {
    if n < 10 then [Digit(n)] else Decimal(n / 10) + [Digit(n % 10)]
  }

  lemma {:induction false} DecimalRead(n: nat)
    ensures (forall i :: 0 <= i < |Decimal(n)| ==> IsDigit(Decimal(n)[i])) && Number(Decimal(n)) == n
  {
    if n < 10 {
      assert [Digit(n)][..0] == "";
    } else {
      DecimalRead(n / 10);
      assert (Decimal(n / 10) + [Digit(n % 10)])[..|Decimal(n / 10)|] == Decimal(n / 10);
    }
  }

  /** A number printed in decimal is read back, with any spaces around it. */
  lemma NumberRoundTrip(before: string, n: nat, after: string)
    requires AllSpace(before) && AllSpace(after)
    ensures GetULong(before + Decimal(n) + after) == n
  {
    hide Trim, Decimal, Number;
    DecimalRead(n);
    assert Bare(Decimal(n)) by {
      assert IsDigit(Decimal(n)[0]) && IsDigit(Decimal(n)[|Decimal(n)| - 1]);
    }
    TrimPadded(before, Decimal(n), after);
  }

  /** Digits between spaces. */
  ghost predicate Numeric(s: string) {
    exists before: string, digits: string, after: string ::
      AllSpace(before) && AllSpace(after) && (forall i :: 0 <= i < |digits| ==> IsDigit(digits[i])) &&
      s == before + digits + after
  }

  /** What is not a number reads as zero. */
  lemma NumberRejected(s: string)
    requires !Numeric(s)
    ensures GetULong(s) == 0
  {
    hide Trim, Number;
    var before, after := TrimSplits(s);
  }

  /** The width kept by SubsecondPrecision, whose constructor takes an int and replaces what is not in 1, ..., 6. */
  function SubsecondWidth(s: string): (width: nat)
    ensures 1 <= width <= 6
  {
    var width := GetULong(s) % 0x1_0000_0000;
    if 1 <= width <= 6 then width else 3
  }

  /** A width from 1 to 6 is kept, every other one that fits an int, and what is not a number, becomes 3. */
  lemma SubsecondMeans(before: string, n: nat, after: string)
    requires AllSpace(before) && AllSpace(after) && n < 0x8000_0000
    ensures SubsecondWidth(before + Decimal(n) + after) == if n in {1, 2, 3, 4, 5, 6} then n else 3
  {
    hide Decimal, GetULong;
    NumberRoundTrip(before, n, after);
  }

  lemma SubsecondRejected(s: string)
    requires !Numeric(s)
    ensures SubsecondWidth(s) == 3
  {
    hide GetULong;
    NumberRejected(s);
  }

  datatype LogFormat = LogFormat(level: Level, userFormat: string)

  function ParseBool(l: Level, s: string): bool {
    GetBool(s)
  }

  function ParseULong(l: Level, s: string): nat {
    GetULong(s)
  }

  function ParseFormat(l: Level, s: string): LogFormat {
    LogFormat(l, s)
  }

  class TypedConfigurations {
    var enabledMap: map<Level, bool>
    var toFileMap: map<Level, bool>
    var toStandardOutputMap: map<Level, bool>
    var logFormatMap: map<Level, LogFormat>
    var subsecondPrecisionMap: map<Level, nat>
    var performanceTrackingMap: map<Level, bool>
    var maxLogFileSizeMap: map<Level, nat>
    var logFlushThresholdMap: map<Level, nat>

    /** Every map is the index of its type over the list. */
    predicate Indexes(list: List)
      reads this
    {
      enabledMap == Compress(list, Enabled, ParseBool) &&
      toFileMap == Compress(list, ToFile, ParseBool) &&
      toStandardOutputMap == Compress(list, ToStandardOutput, ParseBool) &&
      logFormatMap == Compress(list, Format, ParseFormat) &&
      subsecondPrecisionMap == CompressGlobal(list, SubsecondPrecision, SubsecondWidth) &&
      performanceTrackingMap == CompressGlobal(list, PerformanceTracking, GetBool) &&
      maxLogFileSizeMap == Compress(list, MaxLogFileSize, ParseULong) &&
      logFlushThresholdMap == Compress(list, LogFlushThreshold, ParseULong)
    }

    constructor (configurations: Configurations)
      ensures Indexes(configurations.list)
    {
      enabledMap, toFileMap, toStandardOutputMap, logFormatMap := map[], map[], map[], map[];
      subsecondPrecisionMap, performanceTrackingMap := map[], map[];
      maxLogFileSizeMap, logFlushThresholdMap := map[], map[];
      new;
      Build(configurations);
    }

    /** One turn of the loop: the entry goes into the map of its type. */
    method Insert(c: Configuration, ghost before: List)
      requires Indexes(before)
      modifies this
      ensures Indexes(before + [c])
    {
      hide GetBool, GetULong, SubsecondWidth, SetValue, Compress, CompressGlobal;
      CompressSnoc(before, c, Enabled, ParseBool);
      CompressSnoc(before, c, ToFile, ParseBool);
      CompressSnoc(before, c, ToStandardOutput, ParseBool);
      CompressSnoc(before, c, Format, ParseFormat);
      CompressGlobalSnoc(before, c, SubsecondPrecision, SubsecondWidth);
      CompressGlobalSnoc(before, c, PerformanceTracking, GetBool);
      CompressSnoc(before, c, MaxLogFileSize, ParseULong);
      CompressSnoc(before, c, LogFlushThreshold, ParseULong);
      match c.kind {
        case Enabled => enabledMap := SetValue(enabledMap, c.level, GetBool(c.value));
        case ToFile => toFileMap := SetValue(toFileMap, c.level, GetBool(c.value));
        case ToStandardOutput => toStandardOutputMap := SetValue(toStandardOutputMap, c.level, GetBool(c.value));
        case Format => logFormatMap := SetValue(logFormatMap, c.level, LogFormat(c.level, c.value));
        case SubsecondPrecision =>
          subsecondPrecisionMap := SetValue(subsecondPrecisionMap, Global, SubsecondWidth(c.value));
        case PerformanceTracking =>
          performanceTrackingMap := SetValue(performanceTrackingMap, Global, GetBool(c.value));
        case MaxLogFileSize => maxLogFileSizeMap := SetValue(maxLogFileSizeMap, c.level, GetULong(c.value));
        case LogFlushThreshold => logFlushThresholdMap := SetValue(logFlushThresholdMap, c.level, GetULong(c.value));
        case Filename =>
      }
    }

    method Build(configurations: Configurations)
      requires Indexes([])
      modifies this
      ensures Indexes(configurations.list)
    {
      hide Indexes;
      var list := configurations.list;
      var i := 0;
      while i < |list|
        invariant 0 <= i <= |list| && Indexes(list[..i])
      {
        var c := list[i];
        Insert(c, list[..i]);
        assert list[..i + 1] == list[..i] + [c];
        i := i + 1;
      }
      assert list[..i] == list;
    }
  }

  /** The last entry of a type. */
  function Last(list: List, kind: ConfigurationType): Option<Configuration> {
    if list == [] then None
    else if list[|list| - 1].kind == kind then Some(list[|list| - 1])
    else Last(list[..|list| - 1], kind)
  }

  /** Of the types kept at Global only, the last entry decides, whatever its level. */
  lemma {:induction false} LastDecides<T>(list: List, kind: ConfigurationType, parse: string -> T)
    ensures CompressGlobal(list, kind, parse)
         == match Last(list, kind) case None => map[] case Some(c) => map[Global := parse(c.value)]
  {
    if list != [] {
      LastDecides(list[..|list| - 1], kind, parse);
    }
  }

  // ----- A list that does not start with the Global value -----

  lemma {:induction false} PutLevelsHead(list: List, kind: ConfigurationType, value: string, k: nat)
    requires k <= 7 && list != [] && UniqueKeys(list)
    ensures var list' := PutLevels(list, kind, value, k);
            list' != [] && UniqueKeys(list') && Matches(list'[0], list[0].level, list[0].kind)
  {
    if k > 0 {
      hide UniqueKeys, Put;
      PutLevelsHead(list, kind, value, k - 1);
      PutKeys(PutLevels(list, kind, value, k - 1), LevelAt(k - 1), kind, value);
      PutUnique(PutLevels(list, kind, value, k - 1), LevelAt(k - 1), kind, value);
    }
  }

  lemma SetOneHead(list: List, level: Level, kind: ConfigurationType, value: string)
    requires list != [] && UniqueKeys(list)
    ensures var list' := SetOne(list, level, kind, value);
            list' != [] && UniqueKeys(list') && Matches(list'[0], list[0].level, list[0].kind)
  {
    hide UniqueKeys, Put, PutLevels;
    PutKeys(list, level, kind, value);
    PutUnique(list, level, kind, value);
    PutLevelsHead(Put(list, level, kind, value), kind, value, 7);
    PutLevelsHead(PutLevels(Put(list, level, kind, value), kind, value, 7), kind, value, 7);
  }

  lemma {:induction false} FirstAtHead(list: List, kind: ConfigurationType)
    requires list != [] && list[0].kind == kind
    ensures First(list, kind) == Some(list[0])
  {
    if |list| > 1 {
      FirstAtHead(list[..|list| - 1], kind);
    }
  }

  /** Of a new object: a value at a level, another at Global, and again the first one at the level. */
  function LevelFirst(l: Level, kind: ConfigurationType, value: string, global: string): List {
    SetOne(SetOne(SetOne([], l, kind, value), Global, kind, global), l, kind, value)
  }

  lemma SingleUnique(list: List)
    requires |list| == 1
    ensures UniqueKeys(list)
  {
  }

  /** The list then holds the value at the level, but the index answers with Global's. */
  lemma LevelFirstWrong<T(!new)>(l: Level, kind: ConfigurationType, value: string, global: string,
                                 parse: (Level, string) -> T, default: T)
    requires l != Global
    ensures var list := LevelFirst(l, kind, value, global);
            UniqueKeys(list) && Lookup(list, l, kind) == Some(value) &&
            GetConfig(Compress(list, kind, parse), l, default) == parse(Global, global) &&
            (StartsGlobal(list, kind, parse) <==> parse(l, value) == parse(Global, global))
  {
    var l1 := SetOne([], l, kind, value);
    var l2 := SetOne(l1, Global, kind, global);
    assert l1 == [Configuration(l, kind, value)];
    hide UniqueKeys, SetOne, Lookup, First, Compress;
    SingleUnique(l1);
    SetOneHead(l1, Global, kind, global);
    SetOneHead(l2, l, kind, value);
    FirstAtHead(LevelFirst(l, kind, value, global), kind);
    LookupSetOne(l1, Global, kind, global, Global, kind);
    LookupSetOne(l2, l, kind, value, Global, kind);
    LookupSetOne(l2, l, kind, value, l, kind);
    AlwaysDisplaced(LevelFirst(l, kind, value, global), kind, parse);
  }

  /** Debug was enabled last, and the index says it is not. */
  lemma DebugAnsweredWrong()
    ensures var list := LevelFirst(Debug, Enabled, "true", "false");
            Lookup(list, Debug, Enabled) == Some("true") &&
            !GetConfig(Compress(list, Enabled, ParseBool), Debug, true) &&
            !Agrees(list, Enabled, ParseBool)
  {
    hide LevelFirst, Lookup, Compress, UniqueKeys, StartsGlobal;
    assert GetBool("true") && !GetBool("false");
    LevelFirstWrong(Debug, Enabled, "true", "false", ParseBool, true);
    AgreesExactly(LevelFirst(Debug, Enabled, "true", "false"), Enabled, ParseBool);
  }
}
