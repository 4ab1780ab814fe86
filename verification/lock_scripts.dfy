/** The nine lock scripts as functions on the cells of their keys. */
module LockSpec {
  import opened Wrappers
  import opened Redis

  /** The record a basic or a writer lock stores while it is held. */
  function Held(owner: string, deadline: int): Cell {
    Some(Entry(Str(Text(owner)), Some(deadline)))
  }

  predicate OwnedBy(cell: Cell, owner: string) {
    cell.Some? && cell.value.value == Str(Text(owner))
  }

  function SetNx(cell: Cell, owner: string, now: int, timeout: int): (Cell, int) {
    if cell.Some? then (cell, 0) else (Held(owner, now + 1000 * timeout), 1)
  }

  function Release(cell: Cell, owner: string): (Cell, int) {
    if OwnedBy(cell, owner) then (None, 1) else (cell, 0)
  }

  function Extend(cell: Cell, owner: string, now: int, timeout: int): (Cell, int) {
    if OwnedBy(cell, owner) then (WithDeadline(cell, now, 1000 * timeout), 1) else (cell, 0)
  }

  function ReadAcquire(readers: Cell, writer: Cell, now: int, timeout: int): (Cell, int)
    requires IsCounter(readers, "readers")
  {
    if writer.Some? then (readers, 0)
    else
      var fields := FieldsOf(readers)["readers" := Num(CountOf(readers, "readers") + 1)];
      (WithDeadline(Some(Entry(Hash(fields), DeadlineOf(readers))), now, 1000 * timeout), 1)
  }

  function ReadRelease(readers: Cell): Cell
    requires IsCounter(readers, "readers")
  {
    var count := CountOf(readers, "readers") - 1;
    if count <= 0 then
      Trimmed(Entry(Hash(FieldsOf(readers) - {"readers"}), DeadlineOf(readers)))
    else
      Some(Entry(Hash(FieldsOf(readers)["readers" := Num(count)]), DeadlineOf(readers)))
  }

  function WriteAcquire(readers: Cell, writer: Cell, owner: string, now: int, timeout: int): (Cell, int)
    requires IsCounter(readers, "readers")
  {
    if writer.Some? || CountOf(readers, "readers") > 0 then (writer, 0)
    else (Held(owner, now + 1000 * timeout), 1)
  }

  predicate IsReentrant(cell: Cell) {
    IsCounter(cell, "count")
  }

  function Owner(cell: Cell): Option<Scalar>
    requires IsReentrant(cell)
  {
    FieldOf(cell, "owner")
  }

  function ReentrantAcquire(cell: Cell, owner: string, now: int, timeout: int): (Cell, int)
    requires IsReentrant(cell)
  {
    if Owner(cell) == None then
      var fields := FieldsOf(cell) + map["owner" := Text(owner), "count" := Num(1)];
      (WithDeadline(Some(Entry(Hash(fields), DeadlineOf(cell))), now, 1000 * timeout), 1)
    else if Owner(cell) == Some(Text(owner)) then
      var fields := FieldsOf(cell)["count" := Num(CountOf(cell, "count") + 1)];
      (WithDeadline(Some(Entry(Hash(fields), DeadlineOf(cell))), now, 1000 * timeout), 1)
    else
      (cell, 0)
  }

  function ReentrantRelease(cell: Cell, owner: string): (Cell, int)
    requires IsReentrant(cell)
  {
    if Owner(cell) == Some(Text(owner)) then
      var count := CountOf(cell, "count") - 1;
      (if count <= 0 then None
       else Some(Entry(Hash(FieldsOf(cell)["count" := Num(count)]), DeadlineOf(cell))), 1)
    else
      (cell, 0)
  }

  function ExtendReentrant(cell: Cell, owner: string, now: int, timeout: int): (Cell, int)
    requires IsReentrant(cell)
  {
    if Owner(cell) == Some(Text(owner)) then (WithDeadline(cell, now, 1000 * timeout), 1) else (cell, 0)
  }
}

/** The lock scripts and the spin loop, statement by statement, on a Redis server. */
module LockScripts {
  import opened Wrappers
  import opened Redis
  import Spec = LockSpec

  class Lock {
    const client: Server

    constructor (client: Server)
      ensures this.client == client
    {
      this.client := client;
    }

    /** `SET key owner NX EX timeout`; Redis refuses a timeout that is not positive. */
    method SetNx(key: string, owner: string, timeout: int) returns (r: int)
      requires timeout > 0
      modifies client`db
      ensures var (cell, code) := Spec.SetNx(old(client.At(key)), owner, client.Ms(), timeout);
        client.db == Store(old(client.db), key, cell) && r == code
    {
      if client.At(key).Some? {
        assert client.db == Store(client.db, key, client.At(key));
        return 0;
      }
      client.SetEx(key, Text(owner), timeout);
      r := 1;
    }

    method ReleaseLock(key: string, owner: string) returns (r: int)
      requires IsStr(client.At(key))
      modifies client`db
      ensures var (cell, code) := Spec.Release(old(client.At(key)), owner);
        client.db == Store(old(client.db), key, cell) && r == code
    {
      var current := client.Get(key);
      if current == Some(Text(owner)) {
        r := client.Del(key);
      } else {
        assert client.db == Store(client.db, key, client.At(key));
        r := 0;
      }
    }

    method ExtendLock(key: string, owner: string, timeout: int) returns (r: int)
      requires IsStr(client.At(key))
      modifies client`db
      ensures var (cell, code) := Spec.Extend(old(client.At(key)), owner, client.Ms(), timeout);
        client.db == Store(old(client.db), key, cell) && r == code
    {
      var current := client.Get(key);
      if current == Some(Text(owner)) {
        r := client.Expire(key, timeout);
      } else {
        assert client.db == Store(client.db, key, client.At(key));
        r := 0;
      }
    }

    method ReentrantAcquire(key: string, owner: string, timeout: int) returns (r: int)
      requires Spec.IsReentrant(client.At(key))
      modifies client`db
      ensures var (cell, code) := Spec.ReentrantAcquire(old(client.At(key)), owner, client.Ms(), timeout);
        client.db == Store(old(client.db), key, cell) && r == code
    {
      var current := client.HGet(key, "owner");
      if current == None {
        var fields := map["owner" := Text(owner), "count" := Num(1)];
        assert "owner" in fields;
        client.HSet(key, fields);
        var _ := client.Expire(key, timeout);
        r := 1;
      } else if current == Some(Text(owner)) {
        var _ := client.HIncrBy(key, "count", 1);
        var _ := client.Expire(key, timeout);
        r := 1;
      } else {
        assert client.db == Store(client.db, key, client.At(key));
        r := 0;
      }
    }

    method ReentrantRelease(key: string, owner: string) returns (r: int)
      requires Spec.IsReentrant(client.At(key))
      modifies client`db
      ensures var (cell, code) := Spec.ReentrantRelease(old(client.At(key)), owner);
        client.db == Store(old(client.db), key, cell) && r == code
    {
      var current := client.HGet(key, "owner");
      if current == Some(Text(owner)) {
        var count := client.HIncrBy(key, "count", -1);
        if count <= 0 {
          var _ := client.Del(key);
        }
        r := 1;
      } else {
        assert client.db == Store(client.db, key, client.At(key));
        r := 0;
      }
    }

    method ExtendReentrantLock(key: string, owner: string, timeout: int) returns (r: int)
      requires Spec.IsReentrant(client.At(key))
      modifies client`db
      ensures var (cell, code) := Spec.ExtendReentrant(old(client.At(key)), owner, client.Ms(), timeout);
        client.db == Store(old(client.db), key, cell) && r == code
    {
      var current := client.HGet(key, "owner");
      if current == Some(Text(owner)) {
        r := client.Expire(key, timeout);
      } else {
        assert client.db == Store(client.db, key, client.At(key));
        r := 0;
      }
    }

    method ReadAcquire(key: string, writerKey: string, timeout: int) returns (r: int)
      requires IsCounter(client.At(key), "readers") && IsStr(client.At(writerKey))
      modifies client`db
      ensures var (cell, code) :=
          Spec.ReadAcquire(old(client.At(key)), old(client.At(writerKey)), client.Ms(), timeout);
        client.db == Store(old(client.db), key, cell) && r == code
    {
      var writer := client.Get(writerKey);
      if writer.Some? {
        assert client.db == Store(client.db, key, client.At(key));
        return 0;
      }
      var _ := client.HIncrBy(key, "readers", 1);
      var _ := client.Expire(key, timeout);
      r := 1;
    }

    method ReadRelease(key: string) returns (r: int)
      requires IsCounter(client.At(key), "readers")
      modifies client`db
      ensures client.db == Store(old(client.db), key, Spec.ReadRelease(old(client.At(key)))) && r == 1
    {
      var count := client.HIncrBy(key, "readers", -1);
      if count <= 0 {
        assert FieldsOf(client.At(key)) - {"readers"} == FieldsOf(old(client.At(key))) - {"readers"};
        client.HDel(key, "readers");
      }
      r := 1;
    }

    method WriteAcquire(key: string, writerKey: string, owner: string, timeout: int) returns (r: int)
      requires IsCounter(client.At(key), "readers") && IsStr(client.At(writerKey)) && timeout > 0
      modifies client`db
      ensures var (cell, code) :=
          Spec.WriteAcquire(old(client.At(key)), old(client.At(writerKey)), owner, client.Ms(), timeout);
        client.db == Store(old(client.db), writerKey, cell) && r == code
    {
      assert client.db == Store(client.db, writerKey, client.At(writerKey));
      var writer := client.Get(writerKey);
      if writer.Some? {
        return 0;
      }
      var readers := client.HGet(key, "readers");
      if readers.Some? && readers.value.num > 0 {
        return 0;
      }
      client.SetEx(writerKey, Text(owner), timeout);
      r := 1;
    }

    method WriteRelease(writerKey: string, owner: string) returns (r: int)
      requires IsStr(client.At(writerKey))
      modifies client`db
      ensures var (cell, code) := Spec.Release(old(client.At(writerKey)), owner);
        client.db == Store(old(client.db), writerKey, cell) && r == code
    {
      var current := client.Get(writerKey);
      if current == Some(Text(owner)) {
        var _ := client.Del(writerKey);
        return 1;
      }
      assert client.db == Store(client.db, writerKey, client.At(writerKey));
      r := 0;
    }

    /** The polling loop.  Round `i` of the environment is a clock reading together with the answer
        an attempt made in that round would get; some reading is at or past the deadline.
        Without a blocking timeout the first answer decides. */
    method SpinAcquire(start: real, blocking: Option<real>, rounds: seq<(real, bool)>) returns (acquired: bool)
      requires blocking.None? ==> rounds != []
      requires blocking.Some? ==> exists i :: 0 <= i < |rounds| && rounds[i].0 >= start + blocking.value
      ensures blocking.None? ==> acquired == rounds[0].1
      ensures blocking.Some? ==>
        (acquired <==> exists i :: 0 <= i < |rounds| && rounds[i].1
                                && AllBefore(rounds[..i + 1], start + blocking.value))
    {
      if blocking.None? {
        return rounds[0].1;
      }
      var deadline := start + blocking.value;
      var i := 0;
      while rounds[i].0 < deadline
        invariant 0 <= i < |rounds|
        invariant forall j :: 0 <= j < i ==> rounds[j].0 < deadline && !rounds[j].1
        decreases |rounds| - i
      {
        if rounds[i].1 {
          return true;
        }
        assert rounds[i].0 < deadline;
        i := i + 1;
      }
      acquired := false;
    }

    static predicate AllBefore(rounds: seq<(real, bool)>, deadline: real) {
      forall j :: 0 <= j < |rounds| ==> rounds[j].0 < deadline
    }
  }
}
