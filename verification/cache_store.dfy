/** The Redis cache on the server: prefixed keys, encoded values, lifetimes.  What is proved of it is what
    the two-level cache relies on: by key, it reads as a map of values in which a miss is no value. */
module CacheStore {
  import opened Wrappers
  import opened Redis
  import T = Tiered
  import opened CachePipeline

  /** The stored text of a key. */
  function TextAt(cell: Cell): Option<string> {
    match cell
    case Some(Entry(Str(Text(text)), _)) => Some(text)
    case _ => None
  }

  class Cache {
    const client: Server
    const prefix: string
    const pipeline: Pipeline

    constructor (client: Server, prefix: string, pipeline: Pipeline)
      ensures this.client == client && this.prefix == prefix && this.pipeline == pipeline
    {
      this.client, this.prefix, this.pipeline := client, prefix, pipeline;
    }

    function FullKey(key: string): string {
      if prefix != "" then prefix + ":" + key else key
    }

    lemma FullKeyIsInjective(a: string, b: string)
      ensures FullKey(a) == FullKey(b) <==> a == b
    {
      if prefix != "" {
        assert FullKey(a)[|prefix| + 1..] == a && FullKey(b)[|prefix| + 1..] == b;
      }
    }

    /** Every key of this cache holds a string. */
    ghost predicate Typed()
      reads client
    {
      forall key :: IsStr(client.At(FullKey(key)))
    }

    /** What the cache answers for a key. */
    function Raw(key: string): Option<T.Datum>
      reads client
    {
      Decode(pipeline, TextAt(client.At(FullKey(key))))
    }

    method GetRaw(key: string) returns (r: Option<T.Datum>)
      requires Typed()
      ensures r == Raw(key)
    {
      var scalar := client.Get(FullKey(key));
      var text := match scalar case Some(Text(t)) => Some(t) case _ => None;
      r := Decode(pipeline, text);
    }

    /** One answer per distinct key; no keys, no call. */
    method GetManyRaw(keys: seq<string>) returns (r: map<string, Option<T.Datum>>)
      requires Typed()
      ensures r == map k | k in keys :: Raw(k)
    {
      r := map[];
      for i := 0 to |keys|
        invariant forall k :: k in r <==> k in keys[..i]
        invariant forall k :: k in r ==> r[k] == Raw(k)
      {
        var raw := GetRaw(keys[i]);
        T.Prefix(keys, i);
        r := r[keys[i] := raw];
      }
      assert keys[..|keys|] == keys;
    }

    /** A lifetime that is absent or not positive stores the key for good.  Afterwards the key reads as
        its encoding decodes, and every other key as before. */
    method Set(key: string, value: T.Datum, ttl: Option<int>)
      requires Typed()
      modifies client`db
      ensures Typed()
      ensures client.At(FullKey(key)) == Some(Entry(Str(Text(Encode(pipeline, value))), Deadline(client.Ms(), ttl)))
      ensures forall k :: k != key ==> client.At(FullKey(k)) == old(client.At(FullKey(k)))
      ensures forall k :: Raw(k) == if k == key then Decode(pipeline, Some(Encode(pipeline, value))) else old(Raw(k))
    {
      ghost var db := client.db;
      var text := Encode(pipeline, value);
      if ttl.Some? && ttl.value > 0 {
        client.SetEx(FullKey(key), Text(text), ttl.value);
      } else {
        client.Put(FullKey(key), Some(Entry(Str(Text(text)), None)));
      }
      forall k ensures k != key ==> client.At(FullKey(k)) == Lookup(db, FullKey(k)) {
        FullKeyIsInjective(k, key);
      }
    }

    static function Deadline(now: int, ttl: Option<int>): Option<int> {
      if ttl.Some? && ttl.value > 0 then Some(now + 1000 * ttl.value) else None
    }

    method Delete(key: string)
      requires Typed()
      modifies client`db
      ensures Typed()
      ensures forall k :: Raw(k) == if k == key then None else old(Raw(k))
    {
      ghost var db := client.db;
      var _ := client.Del(FullKey(key));
      forall k ensures k != key ==> client.At(FullKey(k)) == Lookup(db, FullKey(k)) {
        FullKeyIsInjective(k, key);
      }
    }

    /** Each pair has a lifetime of its own, since jitter is drawn for each. */
    method SetMany(pairs: seq<(string, T.Datum)>, ttls: seq<Option<int>>)
      requires Typed() && |ttls| == |pairs|
      modifies client`db
      ensures Typed()
      ensures forall k :: client.At(FullKey(k)) == LastCell(pairs, ttls, client.Ms(), k, old(client.At(FullKey(k))))
      ensures forall k :: Raw(k) == LastWritten(pairs, k, old(Raw(k)))
    {
      for i := 0 to |pairs|
        invariant Typed()
        invariant forall k ::
          client.At(FullKey(k)) == LastCell(pairs[..i], ttls[..i], client.Ms(), k, old(client.At(FullKey(k))))
        invariant forall k :: Raw(k) == LastWritten(pairs[..i], k, old(Raw(k)))
      {
        Set(pairs[i].0, pairs[i].1, ttls[i]);
        assert pairs[..i + 1][..i] == pairs[..i] && ttls[..i + 1][..i] == ttls[..i];
      }
      assert pairs[..|pairs|] == pairs && ttls[..|pairs|] == ttls;
    }

    /** What is stored under a key after these writes: the last of them, with its own lifetime. */
    function LastCell(pairs: seq<(string, T.Datum)>, ttls: seq<Option<int>>, now: int, key: string, before: Cell): Cell
      requires |ttls| == |pairs|
    {
      if pairs == [] then before
      else
        var n := |pairs| - 1;
        if pairs[n].0 == key then Some(Entry(Str(Text(Encode(pipeline, pairs[n].1))), Deadline(now, ttls[n])))
        else LastCell(pairs[..n], ttls[..n], now, key, before)
    }

    /** A key of a batch without repetitions gets its own value and lifetime. */
    lemma {:induction false} OwnCell(pairs: seq<(string, T.Datum)>, ttls: seq<Option<int>>, now: int, i: nat,
                                     before: Cell)
      requires |ttls| == |pairs| && i < |pairs|
      requires forall j, k :: 0 <= j < k < |pairs| ==> pairs[j].0 != pairs[k].0
      ensures LastCell(pairs, ttls, now, pairs[i].0, before)
           == Some(Entry(Str(Text(Encode(pipeline, pairs[i].1))), Deadline(now, ttls[i])))
      decreases |pairs|
    {
      var n := |pairs| - 1;
      if i < n {
        OwnCell(pairs[..n], ttls[..n], now, i, before);
      }
    }

    /** A stored key lives exactly the given seconds, or for good if they are not positive or absent. */
    static lemma LivesFor(value: Value, now: int, ttl: Option<int>, later: int)
      requires later >= now
      ensures Aged(Some(Entry(value, Deadline(now, ttl))), later)
           == if ttl.Some? && 0 < ttl.value && later > now + 1000 * ttl.value then None
              else Some(Entry(value, Deadline(now, ttl)))
    {
    }

    /** What a key reads as after these writes, if it read as `before`. */
    function LastWritten(pairs: seq<(string, T.Datum)>, key: string, before: Option<T.Datum>): Option<T.Datum> {
      if pairs == [] then before
      else
        var n := |pairs| - 1;
        if pairs[n].0 == key then Decode(pipeline, Some(Encode(pipeline, pairs[n].1)))
        else LastWritten(pairs[..n], key, before)
    }

    /** With a lossless pipeline these are the operations of a map of values. */
    lemma {:induction false} ReadsAsMap(contents: T.Contents, pairs: seq<(string, T.Datum)>, key: string)
      requires Inverse(pipeline)
      requires forall i :: 0 <= i < |pairs| ==> Lossless(pairs[i].1)
      ensures LastWritten(pairs, key, T.Raw(contents, key)) == T.Raw(T.Written(contents, pairs), key)
      decreases |pairs|
    {
      if pairs != [] {
        var n := |pairs| - 1;
        ReadsAsMap(contents, pairs[..n], key);
        CachePipeline.RoundTrip(pipeline, pairs[n].1);
        T.WrittenSnoc(contents, pairs[..n], pairs[n]);
        assert pairs == pairs[..n] + [pairs[n]];
      }
    }

    predicate Lossless(value: T.Datum) {
      value == T.Null || Encode(pipeline, value) != Marker
    }
  }
}
