/** The compressed index over a configuration list (easylogging++): one map from levels for each type. */
module TypedMaps {
  import opened ConfigurationLists
  import opened Wrappers

  // ----- setValue and unsafeGetConfigByVal -----

  /** The first value goes to Global; a value equal to Global's is not repeated at its level. */
  function SetValue<T(==)>(m: map<Level, T>, level: Level, value: T): map<Level, T> {
    if m == map[] then map[Global := value]
    else if Global in m && m[Global] == value then m
    else m[level := value]
  }

  function GetConfig<T>(m: map<Level, T>, level: Level, default: T): T {
    if level in m then m[level] else if Global in m then m[Global] else default
  }

  /** The map built from the entries of one type. */
  function Compress<T(==)>(list: List, kind: ConfigurationType, parse: (Level, string) -> T): map<Level, T> {
    if list == [] then map[]
    else
      var c, m := list[|list| - 1], Compress(list[..|list| - 1], kind, parse);
      if c.kind == kind then SetValue(m, c.level, parse(c.level, c.value)) else m
  }

  /** The map built when every entry is taken for a Global one. */
  function CompressGlobal<T(==)>(list: List, kind: ConfigurationType, parse: string -> T): map<Level, T> {
    if list == [] then map[]
    else
      var c, m := list[|list| - 1], CompressGlobal(list[..|list| - 1], kind, parse);
      if c.kind == kind then SetValue(m, Global, parse(c.value)) else m
  }

  // ----- Prefixes -----

  lemma {:induction false} LookupSnoc(list: List, c: Configuration, l: Level, t: ConfigurationType)
    ensures Lookup(list + [c], l, t)
         == if Lookup(list, l, t).Some? then Lookup(list, l, t)
            else if Matches(c, l, t) then Some(c.value) else None
  {
    if list == [] {
      assert [] + [c] == [c] && [c][1..] == [];
    } else {
      LookupSnoc(list[1..], c, l, t);
      assert (list + [c])[1..] == list[1..] + [c];
    }
  }

  /** The first entry of a type. */
  function First(list: List, kind: ConfigurationType): Option<Configuration> {
    if list == [] then None
    else if First(list[..|list| - 1], kind).Some? then First(list[..|list| - 1], kind)
    else if list[|list| - 1].kind == kind then Some(list[|list| - 1])
    else None
  }

  lemma Prefix(list: List)
    requires list != [] && UniqueKeys(list)
    ensures var p, c := list[..|list| - 1], list[|list| - 1];
            list == p + [c] && UniqueKeys(p) && Lookup(p, c.level, c.kind).None?
  {
    var p, c := list[..|list| - 1], list[|list| - 1];
    LookupNone(p, c.level, c.kind);
  }

  // ----- When the index agrees with the list -----

  /** Every level with an entry is found in the index with its own value. */
  ghost predicate Agrees<T(!new)>(list: List, kind: ConfigurationType, parse: (Level, string) -> T) {
    forall l: Level, default: T :: Lookup(list, l, kind).Some? ==>
      GetConfig(Compress(list, kind, parse), l, default) == parse(l, Lookup(list, l, kind).value)
  }

  /** The first entry of the type already has the value of the Global entry, if there is one. */
  predicate StartsGlobal<T(==)>(list: List, kind: ConfigurationType, parse: (Level, string) -> T) {
    Lookup(list, Global, kind).Some? && First(list, kind).Some? ==>
      var c := First(list, kind).value;
      parse(c.level, c.value) == parse(Global, Lookup(list, Global, kind).value)
  }

  /** What every prefix of a list that starts with Global's value has built. */
  ghost predicate Faithful<T>(list: List, kind: ConfigurationType, parse: (Level, string) -> T) {
    var m, first := Compress(list, kind, parse), First(list, kind);
    if first.None? then m == map[] && forall l :: Lookup(list, l, kind).None?
    else
      var value := parse(first.value.level, first.value.value);
      Global in m && m[Global] == value &&
      forall l :: match Lookup(list, l, kind)
                  case None => l !in m || l == Global
                  case Some(v) => if l in m then m[l] == parse(l, v) else value == parse(l, v)
  }

  lemma FirstSnoc(p: List, c: Configuration, kind: ConfigurationType)
    ensures First(p + [c], kind)
         == if First(p, kind).Some? then First(p, kind) else if c.kind == kind then Some(c) else None
  {
    assert (p + [c])[..|p|] == p;
  }

  lemma CompressSnoc<T>(p: List, c: Configuration, kind: ConfigurationType, parse: (Level, string) -> T)
    ensures Compress(p + [c], kind, parse)
         == if c.kind == kind then SetValue(Compress(p, kind, parse), c.level, parse(c.level, c.value))
            else Compress(p, kind, parse)
  {
    assert (p + [c])[..|p|] == p;
  }

  lemma CompressGlobalSnoc<T>(p: List, c: Configuration, kind: ConfigurationType, parse: string -> T)
    ensures CompressGlobal(p + [c], kind, parse)
         == if c.kind == kind then SetValue(CompressGlobal(p, kind, parse), Global, parse(c.value))
            else CompressGlobal(p, kind, parse)
  {
    assert (p + [c])[..|p|] == p;
  }

  lemma FaithfulStep<T>(p: List, c: Configuration, kind: ConfigurationType, parse: (Level, string) -> T)
    requires Faithful(p, kind, parse) && Lookup(p, c.level, c.kind).None? && StartsGlobal(p + [c], kind, parse)
    ensures Faithful(p + [c], kind, parse)
  {
    hide Lookup, Compress, First;
    var list := p + [c];
    FirstSnoc(p, c, kind);
    CompressSnoc(p, c, kind, parse);
    forall l
      ensures Lookup(list, l, kind) == if Lookup(p, l, kind).Some? then Lookup(p, l, kind)
                                       else if Matches(c, l, kind) then Some(c.value) else None
    {
      LookupSnoc(p, c, l, kind);
    }
  }

  lemma StartsGlobalPrefix<T>(p: List, c: Configuration, kind: ConfigurationType, parse: (Level, string) -> T)
    requires StartsGlobal(p + [c], kind, parse)
    ensures StartsGlobal(p, kind, parse)
  {
    assert (p + [c])[..|p + [c]| - 1] == p;
    LookupSnoc(p, c, Global, kind);
  }

  lemma {:induction false} StartsGlobalFaithful<T>(list: List, kind: ConfigurationType, parse: (Level, string) -> T)
    requires UniqueKeys(list) && StartsGlobal(list, kind, parse)
    ensures Faithful(list, kind, parse)
  {
    if list != [] {
      hide UniqueKeys, StartsGlobal, Faithful, Lookup;
      var p, c := list[..|list| - 1], list[|list| - 1];
      Prefix(list);
      StartsGlobalPrefix(p, c, kind, parse);
      StartsGlobalFaithful(p, kind, parse);
      FaithfulStep(p, c, kind, parse);
    }
  }

  /** What every prefix has built when the first entry is not Global's. */
  ghost predicate Displaced<T>(list: List, kind: ConfigurationType, parse: (Level, string) -> T) {
    var m, first := Compress(list, kind, parse), First(list, kind);
    first.Some? ==>
      Global in m && (first.value.level != Global ==> first.value.level !in m) &&
      Lookup(list, first.value.level, kind) == Some(first.value.value) &&
      m[Global] == match Lookup(list, Global, kind)
                   case None => parse(first.value.level, first.value.value)
                   case Some(g) => parse(Global, g)
  }

  lemma DisplacedStep<T>(p: List, c: Configuration, kind: ConfigurationType, parse: (Level, string) -> T)
    requires Displaced(p, kind, parse) && Lookup(p, c.level, c.kind).None?
    requires First(p, kind).None? ==> Compress(p, kind, parse) == map[] && forall l :: Lookup(p, l, kind).None?
    ensures Displaced(p + [c], kind, parse)
  {
    var list := p + [c];
    hide Lookup, Compress, First;
    FirstSnoc(p, c, kind);
    CompressSnoc(p, c, kind, parse);
    LookupSnoc(p, c, Global, kind);
    if First(list, kind).Some? {
      LookupSnoc(p, c, First(list, kind).value.level, kind);
    }
  }

  lemma {:induction false} NoFirst<T>(list: List, kind: ConfigurationType, parse: (Level, string) -> T)
    requires First(list, kind).None?
    ensures Compress(list, kind, parse) == map[] && forall l :: Lookup(list, l, kind).None?
  {
    if list != [] {
      var p, c := list[..|list| - 1], list[|list| - 1];
      NoFirst(p, kind, parse);
      assert list == p + [c];
      forall l
        ensures Lookup(list, l, kind).None?
      {
        LookupSnoc(p, c, l, kind);
      }
    }
  }

  lemma {:induction false} AlwaysDisplaced<T>(list: List, kind: ConfigurationType, parse: (Level, string) -> T)
    requires UniqueKeys(list)
    ensures Displaced(list, kind, parse)
  {
    if list != [] {
      var p, c := list[..|list| - 1], list[|list| - 1];
      hide UniqueKeys, Lookup, Displaced, Compress;
      Prefix(list);
      AlwaysDisplaced(p, kind, parse);
      if First(p, kind).None? {
        NoFirst(p, kind, parse);
      }
      DisplacedStep(p, c, kind, parse);
    }
  }

  /** With unique keys, the index agrees with the list exactly if the type starts with its Global value. */
  lemma AgreesExactly<T(!new)>(list: List, kind: ConfigurationType, parse: (Level, string) -> T)
    requires UniqueKeys(list)
    ensures Agrees(list, kind, parse) <==> StartsGlobal(list, kind, parse)
  {
    hide UniqueKeys, Compress, Lookup, First;
    if StartsGlobal(list, kind, parse) {
      StartsGlobalFaithful(list, kind, parse);
    } else {
      AlwaysDisplaced(list, kind, parse);
      var c := First(list, kind).value;
      var m := Compress(list, kind, parse);
      assert GetConfig(m, c.level, parse(c.level, c.value)) != parse(c.level, c.value);
    }
  }
}
