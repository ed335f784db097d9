/** Physical table names of versioned caches: `{space}:{table}@v{generation}`, and the
    key the Redis and memory backends derive from them. */
module CacheSpace {
  import opened Outcomes
  import opened Text

  const SEPARATOR := ':'
  const GENERATION_MARK := '@'
  const VERSION_TABLE := "_wappa_table_versions"

  datatype NameError = Blank | Reserved

  /** A versioned cache's identity: its optional host-owned space and its logical table name. */
  datatype CacheId = CacheId(space: Option<string>, table: string)

  predicate IsSegment(s: string)
  {
    && s != "" && !IsWhitespace(s[0]) && !IsWhitespace(s[|s| - 1])
    && SEPARATOR !in s && GENERATION_MARK !in s
  }

  predicate IsCacheId(id: CacheId)
  {
    IsSegment(id.table) && (id.space.Some? ==> IsSegment(id.space.value))
  }

  function ValidateSegment(value: string): (r: Result<string, NameError>)
    ensures r.Ok? ==> IsSegment(r.value) && r.value == Strip(value) && TrimmedForm(value, r.value)
    ensures r == Err(Blank) <==> forall k :: 0 <= k < |value| ==> IsWhitespace(value[k])
    ensures r == Err(Reserved) <==>
              exists t :: TrimmedForm(value, t) && (SEPARATOR in t || GENERATION_MARK in t)
  {
    var candidate := Strip(value);
    StripTrims(value);
    assert forall t :: TrimmedForm(value, t) <==> t == candidate && t != "" by {
      forall t { StripIsTrimmedForm(value, t); }
    }
    assert IsBlank(value) <==> candidate == "";
    if candidate == "" then Err(Blank)
    else if SEPARATOR in candidate || GENERATION_MARK in candidate then Err(Reserved)
    else Ok(candidate)
  }

  /** A valid pair is accepted; otherwise the table name is faulted before the space. */
  lemma AcceptedIff(table: string, space: Option<string>)
    ensures match BuildTableName(table, space)
            case Ok(_) => ValidateSegment(table).Ok? && (space.Some? ==> ValidateSegment(space.value).Ok?)
            case Err(e) =>
              if ValidateSegment(table).Err? then ValidateSegment(table) == Err(e)
              else space.Some? && ValidateSegment(space.value) == Err(e)
  {
    hide ValidateSegment;
  }

  function BuildTableName(table: string, space: Option<string>): (r: Result<string, NameError>)
  {
    match ValidateSegment(table)
    case Err(e) => Err(e)
    case Ok(t) =>
      match space
      case None => Ok(t)
      case Some(given) =>
        match ValidateSegment(given)
        case Err(e) => Err(e)
        case Ok(s) => Ok(s + [SEPARATOR] + t)
  }

  /** An accepted pair names exactly the cache of its stripped parts. */
  lemma BuiltNameIsBase(table: string, space: Option<string>)
    requires BuildTableName(table, space).Ok?
    ensures var id := CacheId(if space.Some? then Some(Strip(space.value)) else None, Strip(table));
            IsCacheId(id) && BuildTableName(table, space).value == Base(id)
  {
  }

  function Base(id: CacheId): string
  {
    match id.space
    case None => id.table
    case Some(s) => s + [SEPARATOR] + id.table
  }

  function Physical(id: CacheId, generation: nat): string
  {
    Base(id) + "@v" + Decimal(generation)
  }

  function VersionTable(space: Option<string>): string
  {
    Base(CacheId(space, VERSION_TABLE))
  }

  /** A base name is its space and its table, a colon between them; its physical names add a generation. */
  lemma NamesReadBack(id: CacheId, generation: nat)
    requires IsCacheId(id)
    ensures Split(Base(id), ':') == if id.space.Some? then [id.space.value, id.table] else [id.table]
    ensures Split(Physical(id, generation), '@') == [Base(id), "v" + Decimal(generation)]
  {
    var suffix := "v" + Decimal(generation);
    BaseHasNoMark(id);
    assert '@' !in suffix;
    assert Physical(id, generation) == Base(id) + "@v" + Decimal(generation);
    JoinMark(Base(id), Decimal(generation));
    assert id.space.Some? ==> Base(id) == id.space.value + [':'] + id.table;
    assert ':' !in id.table && (id.space.Some? ==> ':' !in id.space.value);
    hide *;
    if id.space.Some? {
      SplitPair(id.space.value, ':', id.table);
    }
    SplitNone(id.table, ':');
    SplitPair(Base(id), '@', suffix);
  }

  lemma JoinMark(base: string, number: string)
    ensures base + "@v" + number == base + ['@'] + ("v" + number)
  {
  }

  lemma VersionTableIsSegment()
    ensures IsSegment(VERSION_TABLE)
  {
    assert VERSION_TABLE[0] == '_' && VERSION_TABLE[|VERSION_TABLE| - 1] == 's';
  }

  lemma SeparatorShowsSpace(id: CacheId)
    requires IsCacheId(id)
    ensures SEPARATOR in Base(id) <==> id.space.Some?
  {
    if id.space.Some? {
      assert Base(id)[|id.space.value|] == SEPARATOR;
    }
  }

  lemma BaseInjective(a: CacheId, b: CacheId)
    requires IsCacheId(a) && IsCacheId(b) && Base(a) == Base(b)
    ensures a == b
  {
    SeparatorShowsSpace(a);
    SeparatorShowsSpace(b);
    match (a.space, b.space) {
      case (Some(s), Some(t)) =>
        IndexOfAfter(s, SEPARATOR, a.table);
        IndexOfAfter(t, SEPARATOR, b.table);
        assert Base(a)[..|s|] == s && Base(b)[..|t|] == t;
        assert Base(a)[|s| + 1..] == a.table && Base(b)[|t| + 1..] == b.table;
      case _ =>
    }
  }

  lemma BaseHasNoMark(id: CacheId)
    requires IsCacheId(id)
    ensures GENERATION_MARK !in Base(id)
  {
  }

  /** The physical name determines the space, the table and the generation. */
  lemma PhysicalInjective(a: CacheId, g: nat, b: CacheId, h: nat)
    requires IsCacheId(a) && IsCacheId(b)
    ensures Physical(a, g) == Physical(b, h) ==> a == b && g == h
  {
    if Physical(a, g) == Physical(b, h) {
      BaseHasNoMark(a);
      BaseHasNoMark(b);
      SameMarkedName(Base(a), Decimal(g), Base(b), Decimal(h));
      BaseInjective(a, b);
      DecimalInjective(g, h);
    }
  }

  lemma SameMarkedName(left: string, right: string, left': string, right': string)
    requires GENERATION_MARK !in left && GENERATION_MARK !in left'
    ensures left + "@v" + right == left' + "@v" + right' ==> left == left' && right == right'
  {
    JoinMark(left, right);
    JoinMark(left', right');
    SameCut(left, '@', "v" + right, left', "v" + right');
    SameTail("v", right, right');
  }

  /** No data table is ever a table of generation counters. */
  lemma CountersAreSeparate(id: CacheId, g: nat, space: Option<string>)
    requires space.Some? ==> IsSegment(space.value)
    ensures Physical(id, g) != VersionTable(space)
  {
    VersionTableIsSegment();
    BaseHasNoMark(CacheId(space, VERSION_TABLE));
    assert Physical(id, g)[|Base(id)|] == GENERATION_MARK;
  }

  /** Two caches share a generation counter only when they are the same cache. */
  lemma CounterKeyInjective(a: CacheId, b: CacheId)
    requires IsCacheId(a) && IsCacheId(b)
    ensures VersionTable(a.space) == VersionTable(b.space) && a.table == b.table ==> a == b
  {
    VersionTableIsSegment();
    if VersionTable(a.space) == VersionTable(b.space) {
      BaseInjective(CacheId(a.space, VERSION_TABLE), CacheId(b.space, VERSION_TABLE));
    }
  }

  /** The key a backend stores a row under: separators inside the table name and the row
      identifier become underscores. */
  function BackendKey(inbox: string, table: string, pkid: string): string
  {
    inbox + ":df:" + Replace(table, ':', '_') + ":pkid:" + Replace(pkid, ':', '_')
  }

  /** What is left of a cache's name once its separator has become an underscore. */
  function Flattened(id: CacheId): string
  {
    match id.space
    case None => id.table
    case Some(s) => s + "_" + id.table
  }

  lemma FlattenedPhysical(id: CacheId, g: nat)
    requires IsCacheId(id)
    ensures Replace(Physical(id, g), ':', '_') == Flattened(id) + "@v" + Decimal(g)
    ensures GENERATION_MARK !in Flattened(id)
  {
    var d := Decimal(g);
    ReplaceJoins(Base(id), "@v" + d);
    ReplaceKeeps("@v" + d);
    ReplaceKeeps(id.table);
    if id.space.Some? {
      ReplaceKeeps(id.space.value);
      ReplaceJoins(id.space.value + ":", id.table);
      ReplaceJoins(id.space.value, ":");
      assert Replace(":", ':', '_') == "_";
    }
    assert Physical(id, g) == Base(id) + ("@v" + d);
  }

  lemma ReplaceJoins(a: string, b: string)
    ensures Replace(a + b, ':', '_') == Replace(a, ':', '_') + Replace(b, ':', '_')
  {
  }

  lemma ReplaceKeeps(s: string)
    requires ':' !in s
    ensures Replace(s, ':', '_') == s
  {
  }

  lemma SameBackendKey(inbox: string, t: string, p: string, t': string, p': string)
    ensures BackendKey(inbox, t, p) == BackendKey(inbox, t', p')
       <==> Replace(t, ':', '_') == Replace(t', ':', '_') && Replace(p, ':', '_') == Replace(p', ':', '_')
  {
    var (u, u') := (Replace(t, ':', '_'), Replace(t', ':', '_'));
    var (q, q') := (Replace(p, ':', '_'), Replace(p', ':', '_'));
    var head := inbox + ":df:";
    assert ':' !in u && ':' !in u';
    KeyPieces(head, u, q);
    KeyPieces(head, u', q');
    hide *;
    SameCut(u, ':', "pkid:" + q, u', "pkid:" + q');
    SameTail(head, u + [':'] + ("pkid:" + q), u' + [':'] + ("pkid:" + q'));
    SameTail("pkid:", q, q');
  }

  lemma KeyPieces(head: string, u: string, q: string)
    ensures head + u + ":pkid:" + q == head + (u + [':'] + ("pkid:" + q))
  {
  }

  lemma SameTail(head: string, a: string, b: string)
    ensures head + a == head + b <==> a == b
  {
    assert (head + a)[|head|..] == a && (head + b)[|head|..] == b;
  }

  /** Cache spaces do not isolate rows in the backends: two caches of one inbox store a row
      under the same key exactly when their names agree after the separator has become an
      underscore, for the same generation and flattened row identifiers. */
  lemma RowsCollideIff(inbox: string, a: CacheId, g: nat, p: string, b: CacheId, h: nat, q: string)
    requires IsCacheId(a) && IsCacheId(b)
    ensures BackendKey(inbox, Physical(a, g), p) == BackendKey(inbox, Physical(b, h), q)
       <==> Flattened(a) == Flattened(b) && g == h && Replace(p, ':', '_') == Replace(q, ':', '_')
  {
    SameBackendKey(inbox, Physical(a, g), p, Physical(b, h), q);
    FlattenedPhysical(a, g);
    FlattenedPhysical(b, h);
    SameMarkedName(Flattened(a), Decimal(g), Flattened(b), Decimal(h));
    DecimalInjective(g, h);
  }

  /** Two different spaces whose rows overwrite each other. */
  lemma SpacesCanCollide(inbox: string, g: nat, pkid: string)
    ensures var a, b := CacheId(Some("a"), "b_c"), CacheId(Some("a_b"), "c");
            IsCacheId(a) && IsCacheId(b) && a != b &&
            BackendKey(inbox, Physical(a, g), pkid) == BackendKey(inbox, Physical(b, g), pkid)
  {
    var a, b := CacheId(Some("a"), "b_c"), CacheId(Some("a_b"), "c");
    assert Flattened(a) == "a_b_c" == Flattened(b);
    RowsCollideIff(inbox, a, g, pkid, b, g, pkid);
  }
}
