/** One Redis server: a map from keys to typed values with optional deadlines, and a clock.

    Every Lua script and every single command is one atomic step on this state.  Deadlines are
    kept in milliseconds and the clock in microseconds, as Redis does.  A key whose deadline lies
    strictly before the clock is invisible to every command, so the model drops it as time passes. */
module Redis {

  import opened Wrappers

  /** What a string key or a hash field holds: Redis stores the printed form, scripts read it back. */
  datatype Scalar = Text(text: string) | Num(num: int) | Real(amount: real)

  /** A list element: an opaque payload, or the JSON document a script encoded. */
  datatype Item = Raw(raw: string) | Doc(doc: map<string, Scalar>)

  datatype Value =
    | Str(scalar: Scalar)
    | Hash(fields: map<string, Scalar>)
    | List(items: seq<Item>)
    | ZSet(scores: map<string, int>)

  datatype Entry = Entry(value: Value, deadline: Option<int>)

  type Cell = Option<Entry>
  type Db = map<string, Entry>

  function Lookup(db: Db, key: string): Cell {
    if key in db then Some(db[key]) else None
  }

  function Store(db: Db, key: string, cell: Cell): Db {
    match cell
    case None => db - {key}
    case Some(e) => db[key := e]
  }

  lemma StoreTwice(db: Db, key: string, a: Cell, b: Cell)
    ensures Store(Store(db, key, a), key, b) == Store(db, key, b)
    ensures Lookup(Store(db, key, a), key) == a
  {
  }

  predicate Expired(e: Entry, now: int) {
    e.deadline.Some? && e.deadline.value < now
  }

  /** What is left of a cell when the clock shows `now` milliseconds. */
  function Aged(cell: Cell, now: int): Cell {
    if cell.Some? && Expired(cell.value, now) then None else cell
  }

  function Purge(db: Db, now: int): Db {
    map k | k in db && !Expired(db[k], now) :: db[k]
  }

  /** EXPIRE and PEXPIRE on a live entry: a deadline that is not in the future deletes the key. */
  function WithDeadline(cell: Cell, now: int, ms: int): Cell {
    if cell.None? || ms <= 0 then None else Some(cell.value.(deadline := Some(now + ms)))
  }

  /** A collection that has become empty is removed together with its deadline. */
  function Trimmed(e: Entry): Cell {
    match e.value
    case Str(_) => Some(e)
    case Hash(f) => if f == map[] then None else Some(e)
    case List(s) => if s == [] then None else Some(e)
    case ZSet(z) => if z == map[] then None else Some(e)
  }

  predicate IsStr(cell: Cell) { cell.Some? ==> cell.value.value.Str? }
  predicate IsHash(cell: Cell) { cell.Some? ==> cell.value.value.Hash? }
  predicate IsList(cell: Cell) { cell.Some? ==> cell.value.value.List? }
  predicate IsZSet(cell: Cell) { cell.Some? ==> cell.value.value.ZSet? }

  function StrOf(cell: Cell): Option<Scalar>
    requires IsStr(cell)
  {
    if cell.Some? then Some(cell.value.value.scalar) else None
  }

  function FieldsOf(cell: Cell): map<string, Scalar>
    requires IsHash(cell)
  {
    if cell.Some? then cell.value.value.fields else map[]
  }

  function ItemsOf(cell: Cell): seq<Item>
    requires IsList(cell)
  {
    if cell.Some? then cell.value.value.items else []
  }

  function ScoresOf(cell: Cell): map<string, int>
    requires IsZSet(cell)
  {
    if cell.Some? then cell.value.value.scores else map[]
  }

  function DeadlineOf(cell: Cell): Option<int> {
    if cell.Some? then cell.value.deadline else None
  }

  function FieldOf(cell: Cell, field: string): Option<Scalar>
    requires IsHash(cell)
  {
    if field in FieldsOf(cell) then Some(FieldsOf(cell)[field]) else None
  }

  predicate IsCounter(cell: Cell, field: string) {
    IsHash(cell) && (field in FieldsOf(cell) ==> FieldsOf(cell)[field].Num?)
  }

  function CountOf(cell: Cell, field: string): int
    requires IsCounter(cell, field)
  {
    if field in FieldsOf(cell) then FieldsOf(cell)[field].num else 0
  }

  /** The elements with a score in (low, high]. */
  function InWindow(scores: map<string, int>, low: int, high: int): map<string, int> {
    map m | m in scores && low < scores[m] <= high :: scores[m]
  }

  function Above(scores: map<string, int>, low: int): map<string, int> {
    map m | m in scores && low < scores[m] :: scores[m]
  }

  ghost predicate IsLowest(scores: map<string, int>, low: int) {
    && (exists m :: m in scores && scores[m] == low)
    && (forall m :: m in scores ==> low <= scores[m])
  }

  class Server {
    var db: Db
    var micros: nat

    constructor ()
      ensures db == map[] && micros == 0
    {
      db, micros := map[], 0;
    }

    function Ms(): int
      reads this
    {
      micros / 1000
    }

    function At(key: string): Cell
      reads this
    {
      Lookup(db, key)
    }

    method Tick(us: nat)
      modifies this
      ensures micros == old(micros) + us
      ensures db == Purge(old(db), Ms())
      ensures forall key :: At(key) == Aged(old(At(key)), Ms())
    {
      micros := micros + us;
      db := Purge(db, Ms());
    }

    method Put(key: string, cell: Cell)
      modifies this`db
      ensures db == Store(old(db), key, cell)
    {
      db := Store(db, key, cell);
    }

    // String commands.

    method Get(key: string) returns (r: Option<Scalar>)
      requires IsStr(At(key))
      ensures r == StrOf(At(key))
    {
      r := StrOf(At(key));
    }

    method SetEx(key: string, scalar: Scalar, seconds: int)
      requires seconds > 0
      modifies this`db
      ensures db == Store(old(db), key, Some(Entry(Str(scalar), Some(Ms() + 1000 * seconds))))
    {
      Put(key, Some(Entry(Str(scalar), Some(Ms() + 1000 * seconds))));
    }

    method Del(key: string) returns (n: int)
      modifies this`db
      ensures db == Store(old(db), key, None)
      ensures n == if old(At(key)).Some? then 1 else 0
    {
      n := if key in db then 1 else 0;
      Put(key, None);
    }

    method PExpire(key: string, ms: int) returns (n: int)
      modifies this`db
      ensures db == Store(old(db), key, WithDeadline(old(At(key)), Ms(), ms))
      ensures n == if old(At(key)).Some? then 1 else 0
    {
      n := if key in db then 1 else 0;
      Put(key, WithDeadline(At(key), Ms(), ms));
    }

    method Expire(key: string, seconds: int) returns (n: int)
      modifies this`db
      ensures db == Store(old(db), key, WithDeadline(old(At(key)), Ms(), 1000 * seconds))
      ensures n == if old(At(key)).Some? then 1 else 0
    {
      n := PExpire(key, 1000 * seconds);
    }

    // Hash commands.

    method HGet(key: string, field: string) returns (r: Option<Scalar>)
      requires IsHash(At(key))
      ensures r == FieldOf(At(key), field)
    {
      r := FieldOf(At(key), field);
    }

    method HGetAll(key: string) returns (r: map<string, Scalar>)
      requires IsHash(At(key))
      ensures r == FieldsOf(At(key))
    {
      r := FieldsOf(At(key));
    }

    method HSet(key: string, fields: map<string, Scalar>)
      requires IsHash(At(key)) && fields != map[]
      modifies this`db
      ensures db == Store(old(db), key,
                Some(Entry(Hash(FieldsOf(old(At(key))) + fields), DeadlineOf(old(At(key))))))
    {
      Put(key, Some(Entry(Hash(FieldsOf(At(key)) + fields), DeadlineOf(At(key)))));
    }

    method HIncrBy(key: string, field: string, delta: int) returns (count: int)
      requires IsCounter(At(key), field)
      modifies this`db
      ensures count == CountOf(old(At(key)), field) + delta
      ensures db == Store(old(db), key,
                Some(Entry(Hash(FieldsOf(old(At(key)))[field := Num(count)]), DeadlineOf(old(At(key))))))
    {
      count := CountOf(At(key), field) + delta;
      Put(key, Some(Entry(Hash(FieldsOf(At(key))[field := Num(count)]), DeadlineOf(At(key)))));
    }

    method HDel(key: string, field: string)
      requires At(key).Some? && IsHash(At(key))
      modifies this`db
      ensures db == Store(old(db), key,
                Trimmed(Entry(Hash(FieldsOf(old(At(key))) - {field}), DeadlineOf(old(At(key))))))
    {
      Put(key, Trimmed(Entry(Hash(FieldsOf(At(key)) - {field}), DeadlineOf(At(key)))));
    }

    // List commands.

    method LPush(key: string, item: Item)
      requires IsList(At(key))
      modifies this`db
      ensures db == Store(old(db), key,
                Some(Entry(List([item] + ItemsOf(old(At(key)))), DeadlineOf(old(At(key))))))
    {
      Put(key, Some(Entry(List([item] + ItemsOf(At(key))), DeadlineOf(At(key)))));
    }

    /** LTRIM key 0 (n - 1). */
    method LTrim(key: string, n: nat)
      requires At(key).Some? && IsList(At(key))
      modifies this`db
      ensures db == Store(old(db), key,
                Trimmed(Entry(List(FirstOf(ItemsOf(old(At(key))), n)), DeadlineOf(old(At(key))))))
    {
      Put(key, Trimmed(Entry(List(FirstOf(ItemsOf(At(key)), n)), DeadlineOf(At(key)))));
    }

    /** LREM key 1 item: removes the leftmost occurrence. */
    method LRem(key: string, item: Item)
      requires IsList(At(key))
      modifies this`db
      ensures db == Store(old(db), key, ListCell(WithoutFirst(ItemsOf(old(At(key))), item), DeadlineOf(old(At(key)))))
    {
      Put(key, ListCell(WithoutFirst(ItemsOf(At(key)), item), DeadlineOf(At(key))));
    }

    /** LMOVE source target RIGHT LEFT. */
    method LMove(source: string, target: string) returns (r: Option<Item>)
      requires IsList(At(source)) && IsList(At(target)) && source != target
      modifies this`db
      ensures var s := ItemsOf(old(At(source)));
        if s == [] then r == None && db == old(db)
        else
          && r == Some(s[|s| - 1])
          && db == Store(Store(old(db), source, ListCell(s[..|s| - 1], DeadlineOf(old(At(source))))), target,
               ListCell([s[|s| - 1]] + ItemsOf(old(At(target))), DeadlineOf(old(At(target)))))
    {
      var s := ItemsOf(At(source));
      if s == [] {
        return None;
      }
      var moved := s[|s| - 1];
      var t := ListCell([moved] + ItemsOf(At(target)), DeadlineOf(At(target)));
      Put(source, ListCell(s[..|s| - 1], DeadlineOf(At(source))));
      Put(target, t);
      r := Some(moved);
    }

    // Sorted-set commands.

    /** ZREMRANGEBYSCORE key -inf bound. */
    method ZRemUpTo(key: string, bound: int)
      requires IsZSet(At(key))
      modifies this`db
      ensures db == Store(old(db), key, ZSetCell(Above(ScoresOf(old(At(key))), bound), DeadlineOf(old(At(key)))))
    {
      Put(key, ZSetCell(Above(ScoresOf(At(key)), bound), DeadlineOf(At(key))));
    }

    method ZCard(key: string) returns (n: nat)
      requires IsZSet(At(key))
      ensures n == |ScoresOf(At(key))|
    {
      n := |ScoresOf(At(key))|;
    }

    method ZAdd(key: string, score: int, member: string)
      requires IsZSet(At(key))
      modifies this`db
      ensures db == Store(old(db), key, ZSetCell(ScoresOf(old(At(key)))[member := score], DeadlineOf(old(At(key)))))
    {
      Put(key, ZSetCell(ScoresOf(At(key))[member := score], DeadlineOf(At(key))));
    }

    /** ZRANGE key 0 0 WITHSCORES: the score of the first element, if there is one. */
    method ZFirst(key: string) returns (r: Option<int>)
      requires IsZSet(At(key))
      ensures r.None? <==> ScoresOf(At(key)) == map[]
      ensures r.Some? ==> IsLowest(ScoresOf(At(key)), r.value)
    {
      r := None;
      var scores := ScoresOf(At(key));
      var left := scores.Keys;
      while left != {}
        invariant left <= scores.Keys
        invariant r.None? <==> left == scores.Keys
        invariant r.Some? ==> exists m :: m in scores && scores[m] == r.value
        invariant r.Some? ==> forall m :: m in scores && m !in left ==> r.value <= scores[m]
        decreases left
      {
        var m :| m in left;
        left := left - {m};
        if r.None? || scores[m] < r.value {
          r := Some(scores[m]);
        }
      }
    }
  }

  function FirstOf<T>(s: seq<T>, n: nat): seq<T> {
    if |s| <= n then s else s[..n]
  }

  function WithoutFirst<T(==)>(s: seq<T>, x: T): seq<T> {
    if s == [] then [] else if s[0] == x then s[1..] else [s[0]] + WithoutFirst(s[1..], x)
  }

  function ListCell(items: seq<Item>, deadline: Option<int>): Cell {
    Trimmed(Entry(List(items), deadline))
  }

  function ZSetCell(scores: map<string, int>, deadline: Option<int>): Cell {
    Trimmed(Entry(ZSet(scores), deadline))
  }
}
