/** Rows, row operations and the timed store behind `ITableCache`. */
module TableRows {
  import opened Outcomes
  import opened Text

  /** A field value. Two values are equal exactly when their canonical tokens are;
      `asInt` is the integer a text parses to, if any. */
  datatype Value = Number(n: int) | Text(s: string, asInt: Option<int>) | Structured(token: string)

  type RowData = map<string, Value>

  datatype Transition = Created | AlreadyExists | Replaced | ConditionNotMet | Missing

  datatype RowError = BlankIdentifier | InvalidRow | EmptyCondition | NonScalarCondition

  datatype RowOp =
    | Get(pkid: string)
    | Exists(pkid: string)
    | Upsert(pkid: string, data: RowData, ttl: Option<int>)
    | CreateIfAbsent(pkid: string, data: RowData, ttl: Option<int>)
    | ReplaceIf(pkid: string, data: RowData, expected: map<string, Value>, ttl: Option<int>)
    | Delete(pkid: string)
    | UpdateField(pkid: string, field: string, value: Value, ttl: Option<int>)
    | RenewTtl(pkid: string, ttl: Option<int>)

  datatype Reply =
    | Row(found: Option<RowData>)
    | Flag(yes: bool)
    | Count(deleted: nat)
    | Moved(transition: Transition, blocking: Option<RowData>)
    | Raised(error: RowError)

  /** What a row operation does to the one row it addresses. */
  datatype Effect = Keep | Write(data: RowData, ttl: int) | Remove

  /** Every expected field must be present and hold the expected value. */
  predicate Meets(row: RowData, expected: map<string, Value>)
  {
    forall f :: f in expected ==> f in row && row[f] == expected[f]
  }

  /** What an upsert stores: the new data, on a merging backend over the fields already there. */
  function Upserted(merges: bool, data: RowData, current: Option<RowData>): RowData
  {
    if merges && current.Some? then current.value + data else data
  }

  /** One row operation against the row currently live under its key, as one atomic backend call. */
  function Decide(accepts: RowData -> bool, defaultTtl: int, merges: bool, op: RowOp, current: Option<RowData>)
    : (Effect, Reply)
  {
    if IsBlank(op.pkid) then (Keep, Raised(BlankIdentifier))
    else match op
      case Get(_) =>
        if current.Some? && !accepts(current.value) then (Keep, Raised(InvalidRow)) else (Keep, Row(current))
      case Exists(_) => (Keep, Flag(current.Some?))
      case Upsert(_, data, ttl) =>
        if !accepts(data) then (Keep, Raised(InvalidRow))
        else (Write(Upserted(merges, data, current), Resolve(ttl, defaultTtl)), Flag(true))
      case CreateIfAbsent(_, data, ttl) =>
        if !accepts(data) then (Keep, Raised(InvalidRow))
        else if current.None? then (Write(data, Resolve(ttl, defaultTtl)), Moved(Created, None))
        else (Keep, Refused(accepts, AlreadyExists, current.value))
      case ReplaceIf(_, data, expected, ttl) =>
        if !accepts(data) then (Keep, Raised(InvalidRow))
        else DecideReplace(accepts, data, expected, Resolve(ttl, defaultTtl), current)
      case Delete(_) => (Remove, Count(if current.Some? then 1 else 0))
      case UpdateField(_, field, value, ttl) =>
        if IsBlank(field) then (Keep, Raised(BlankIdentifier))
        else
          var row := if current.Some? then current.value else map[];
          (Write(row[field := value], Resolve(ttl, defaultTtl)), Flag(true))
      case RenewTtl(_, ttl) =>
        if current.None? then (Keep, Flag(false))
        else (Write(current.value, Resolve(ttl, defaultTtl)), Flag(true))
  }

  function DecideReplace(accepts: RowData -> bool, data: RowData, expected: map<string, Value>, ttl: int,
                         current: Option<RowData>): (Effect, Reply)
  {
    if expected == map[] then (Keep, Raised(EmptyCondition))
    else if HasContainer(expected) then (Keep, Raised(NonScalarCondition))
    else if current.None? then (Keep, Moved(Missing, None))
    else if Meets(current.value, expected) then (Write(data, ttl), Moved(Replaced, None))
    else (Keep, Refused(accepts, ConditionNotMet, current.value))
  }

  predicate HasContainer(expected: map<string, Value>)
  {
    exists f :: f in expected && expected[f].Structured?
  }

  lemma ReplaceWritesGivenTtl(accepts: RowData -> bool, data: RowData, expected: map<string, Value>, ttl: int,
                              current: Option<RowData>)
    ensures var effect := DecideReplace(accepts, data, expected, ttl, current).0; effect.Write? ==> effect.ttl == ttl
  {
    hide Meets, HasContainer;
  }

  /** Whatever an operation writes gets the TTL it asked for, or the default. */
  lemma WritesResolvedTtl(accepts: RowData -> bool, defaultTtl: int, merges: bool, op: RowOp, current: Option<RowData>)
    ensures var effect := Decide(accepts, defaultTtl, merges, op, current).0;
            effect.Write? ==> !op.Get? && !op.Exists? && !op.Delete? && effect.ttl == Resolve(op.ttl, defaultTtl)
  {
    hide DecideReplace, IsBlank, Resolve;
    if op.ReplaceIf? {
      ReplaceWritesGivenTtl(accepts, op.data, op.expected, Resolve(op.ttl, defaultTtl), current);
    }
  }

  /** CREATED is answered only when no row is live under the key. */
  lemma CreatesOnlyAbsentRows(accepts: RowData -> bool, defaultTtl: int, merges: bool, op: RowOp,
          current: Option<RowData>)
    requires op.CreateIfAbsent? && Decide(accepts, defaultTtl, merges, op, current).1 == Moved(Created, None)
    ensures current.None?
  {
  }

  function Refused(accepts: RowData -> bool, why: Transition, row: RowData): Reply
  {
    if accepts(row) then Moved(why, Some(row)) else Raised(InvalidRow)
  }

  function Resolve(ttl: Option<int>, defaultTtl: int): int
  {
    if ttl.Some? then ttl.value else defaultTtl
  }

  type Key = (string, string)

  datatype Stored = Stored(data: RowData, expiresAt: real)

  /** A backend at one moment: its clock and its rows with their expiry times. */
  datatype Store = Store(now: real, rows: map<Key, Stored>)

  function Live(st: Store, key: Key): Option<Stored>
  {
    if key in st.rows && st.now < st.rows[key].expiresAt then Some(st.rows[key]) else None
  }

  function LiveData(st: Store, key: Key): Option<RowData>
  {
    if Live(st, key).Some? then Some(Live(st, key).value.data) else None
  }

  function Apply(st: Store, key: Key, effect: Effect): Store
  {
    match effect
    case Keep => st
    case Write(data, ttl) => st.(rows := st.rows[key := Stored(data, st.now + ttl as real)])
    case Remove => st.(rows := st.rows - {key})
  }

  /** What an effect at time `now` leaves live in the row it addresses. */
  function LiveAfter(live: Option<Stored>, effect: Effect, now: real): Option<Stored>
  {
    match effect
    case Keep => live
    case Write(data, ttl) => if ttl > 0 then Some(Stored(data, now + ttl as real)) else None
    case Remove => None
  }

  lemma ApplyHere(st: Store, key: Key, effect: Effect)
    ensures Live(Apply(st, key, effect), key) == LiveAfter(Live(st, key), effect, st.now)
  {
  }

  lemma ApplyElsewhere(st: Store, key: Key, effect: Effect, other: Key)
    requires other != key
    ensures Live(Apply(st, key, effect), other) == Live(st, other)
  {
  }

  /** `increment_field`: add to a field of a live row (absent counts as zero) and reset the
      row's TTL; `None` when the field does not hold an integer. */
  function IncrementField(st: Store, key: Key, field: string, increment: int, ttl: int): (Store, Option<int>)
  {
    var row := if LiveData(st, key).Some? then LiveData(st, key).value else map[];
    var before :=
      if field !in row then Some(0)
      else match row[field]
        case Number(n) => Some(n)
        case Text(_, asInt) => asInt
        case Structured(_) => None;
    if before.None? then (st, None)
    else
      var after := before.value + increment;
      (Apply(st, key, Write(row[field := Number(after)], ttl)), Some(after))
  }
}
