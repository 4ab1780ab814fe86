/** The optimistic-lock repository: its two scripts, the client operations around them, and every
    interleaving of saves, deletes and restores of one entity. */
module Repository {
  import opened Wrappers
  import opened Redis
  import Decimal
  import Codec = HashCodec

  type Data = map<string, string>

  function Wrap(data: Data): map<string, Scalar> {
    map k | k in data :: Text(data[k])
  }

  lemma WrapMerge(a: Data, b: Data)
    ensures Wrap(a + b) == Wrap(a) + Wrap(b)
  {
  }

  lemma WrapIsInjective(a: Data, b: Data)
    requires Wrap(a) == Wrap(b)
    ensures a == b
  {
    assert a.Keys == Wrap(a).Keys && b.Keys == Wrap(b).Keys;
    forall k | k in a ensures a[k] == b[k] {
      assert Wrap(a)[k] == Text(a[k]) && Wrap(b)[k] == Text(b[k]);
    }
  }

  // The scripts.

  /** The part both scripts share: write the fields, then push and trim the state they replace. */
  function Commit(hash: Cell, history: Cell, max: int, fields: map<string, Scalar>): (Cell, Cell)
    requires IsHash(hash) && IsList(history)
  {
    var prior := FieldsOf(hash);
    var written := if fields == map[] then hash else Some(Entry(Hash(prior + fields), DeadlineOf(hash)));
    (written, if prior == map[] then history else Pushed(history, Doc(prior), max))
  }

  /** One more item in front, under the bound. */
  function Pushed(history: Cell, item: Item, max: int): Cell
    requires IsList(history)
  {
    var pushed := [item] + ItemsOf(history);
    ListCell(if max > 0 then FirstOf(pushed, max) else pushed, DeadlineOf(history))
  }

  /** The full write: refused only if there is a version and it differs. */
  function LockSet(hash: Cell, history: Cell, expected: string, max: int, fields: map<string, Scalar>)
    : (Cell, Cell, int)
    requires IsHash(hash) && IsList(history)
  {
    var current := FieldOf(hash, "version");
    if current != None && current != Some(Text(expected)) then (hash, history, 0)
    else var (h, l) := Commit(hash, history, max, fields); (h, l, 1)
  }

  /** The partial write: refused also if there is no version. */
  function LockPartialSet(hash: Cell, history: Cell, expected: string, max: int, fields: map<string, Scalar>)
    : (Cell, Cell, int)
    requires IsHash(hash) && IsList(history)
  {
    if FieldOf(hash, "version") != Some(Text(expected)) then (hash, history, 0)
    else var (h, l) := Commit(hash, history, max, fields); (h, l, 1)
  }

  /** Without a stored version the full write commits and the partial one is refused; the first write of
      a key stores the fields and no history. */
  lemma Unversioned(hash: Cell, history: Cell, expected: string, max: int, fields: map<string, Scalar>)
    requires IsHash(hash) && IsList(history) && FieldOf(hash, "version") == None
    ensures LockSet(hash, history, expected, max, fields).2 == 1
    ensures LockPartialSet(hash, history, expected, max, fields) == (hash, history, 0)
    ensures hash == None && fields != map[] ==>
      LockSet(hash, history, expected, max, fields) == (Some(Entry(Hash(fields), None)), history, 1)
  {
    assert map[] + fields == fields;
  }

  /** A write of no fields leaves the hash and still records it in the history. */
  lemma NoFields(hash: Cell, history: Cell, expected: string, bound: Option<int>)
    requires IsHash(hash) && IsList(history) && FieldOf(hash, "version") == Some(Text(expected))
    ensures var max := if bound.Some? then bound.value else -1;
      var (h, l, code) := LockSet(hash, history, expected, max, map[]);
      h == hash && code == 1 && IsList(l) && Grew(FieldsOf(hash), ItemsOf(history), ItemsOf(l), bound)
  {
  }

  /** The history after a write that replaced `prior`: that state in front, and at most the bound if there
      is a positive one. */
  predicate Grew(prior: map<string, Scalar>, before: seq<Item>, after: seq<Item>, bound: Option<int>) {
    var all := [Doc(prior)] + before;
    after == if bound.Some? && 0 < bound.value < |all| then all[..bound.value] else all
  }

  lemma CommitGrows(hash: Cell, history: Cell, expected: string, bound: Option<int>, fields: map<string, Scalar>)
    requires IsHash(hash) && IsList(history) && FieldsOf(hash) != map[]
    ensures var max := if bound.Some? then bound.value else -1;
      var full := LockSet(hash, history, expected, max, fields);
      var partial := LockPartialSet(hash, history, expected, max, fields);
      && (full.2 == 1 ==> IsList(full.1) && Grew(FieldsOf(hash), ItemsOf(history), ItemsOf(full.1), bound))
      && (partial.2 == 1 ==> IsList(partial.1) && Grew(FieldsOf(hash), ItemsOf(history), ItemsOf(partial.1), bound))
  {
  }

  /** Alternating names and values, as the scripts receive them. */
  function Unflatten(args: seq<string>): Data {
    if |args| < 2 then map[] else Unflatten(args[..|args| - 2])[args[|args| - 2] := args[|args| - 1]]
  }

  class Scripts {
    const client: Server

    constructor (client: Server)
      ensures this.client == client
    {
      this.client := client;
    }

    /** `args` are the expected version, the history bound, and alternating names and values. */
    method OptimisticLockSet(key: string, historyKey: string, args: seq<string>) returns (r: int)
      requires IsHash(client.At(key)) && IsList(client.At(historyKey)) && key != historyKey
      requires |args| >= 2 && |args| % 2 == 0 && Decimal.Parse(args[1]).Some?
      modifies client`db
      ensures var (hash, history, code) := LockSet(old(client.At(key)), old(client.At(historyKey)),
                                             args[0], Decimal.Parse(args[1]).value, Wrap(Unflatten(args[2..])));
        client.db == Store(Store(old(client.db), key, hash), historyKey, history) && r == code
    {
      var maxHistory := Decimal.Parse(args[1]).value;
      var current := client.HGet(key, "version");
      if current != None && current != Some(Text(args[0])) {
        assert client.db == Store(Store(client.db, key, client.At(key)), historyKey, client.At(historyKey));
        return 0;
      }
      WriteAndPush(key, historyKey, maxHistory, args[2..]);
      r := 1;
    }

    method OptimisticLockPartialSet(key: string, historyKey: string, args: seq<string>) returns (r: int)
      requires IsHash(client.At(key)) && IsList(client.At(historyKey)) && key != historyKey
      requires |args| >= 2 && |args| % 2 == 0 && Decimal.Parse(args[1]).Some?
      modifies client`db
      ensures var (hash, history, code) := LockPartialSet(old(client.At(key)), old(client.At(historyKey)),
                                             args[0], Decimal.Parse(args[1]).value, Wrap(Unflatten(args[2..])));
        client.db == Store(Store(old(client.db), key, hash), historyKey, history) && r == code
    {
      var maxHistory := Decimal.Parse(args[1]).value;
      var current := client.HGet(key, "version");
      if current == None || current != Some(Text(args[0])) {
        assert client.db == Store(Store(client.db, key, client.At(key)), historyKey, client.At(historyKey));
        return 0;
      }
      WriteAndPush(key, historyKey, maxHistory, args[2..]);
      r := 1;
    }

    /** The tail of both scripts. */
    method WriteAndPush(key: string, historyKey: string, maxHistory: int, args: seq<string>)
      requires IsHash(client.At(key)) && IsList(client.At(historyKey)) && key != historyKey && |args| % 2 == 0
      modifies client`db
      ensures var (hash, history) :=
          Commit(old(client.At(key)), old(client.At(historyKey)), maxHistory, Wrap(Unflatten(args)));
        client.db == Store(Store(old(client.db), key, hash), historyKey, history)
    {
      ghost var db, hash0, history0 := client.db, client.At(key), client.At(historyKey);
      var oldData := client.HGetAll(key);
      var fields: Data := Arguments(args);
      assert Store(db, key, hash0) == db;
      if fields != map[] {
        NotEmpty(fields);
        client.HSet(key, Wrap(fields));
      }
      assert Wrap(fields) == map[] <==> fields == map[] by {
        if fields != map[] {
          NotEmpty(fields);
        } else {
          assert Wrap(fields) == map[];
        }
      }
      ghost var hash := Commit(hash0, history0, maxHistory, Wrap(fields)).0;
      assert client.db == Store(db, key, hash);
      assert client.At(historyKey) == history0;
      if oldData != map[] {
        PushAndTrim(historyKey, maxHistory, Doc(oldData));
      } else {
        assert Store(client.db, historyKey, history0) == client.db;
      }
    }

    method PushAndTrim(historyKey: string, maxHistory: int, item: Item)
      requires IsList(client.At(historyKey))
      modifies client`db
      ensures var history := old(client.At(historyKey));
        client.db == Store(old(client.db), historyKey, Pushed(history, item, maxHistory))
    {
      ghost var db := client.db;
      client.LPush(historyKey, item);
      if maxHistory > 0 {
        ghost var pushed := client.At(historyKey);
        client.LTrim(historyKey, maxHistory);
        StoreTwice(db, historyKey, pushed, client.At(historyKey));
      }
    }

    /** The loop that gathers names and values two by two. */
    method Arguments(args: seq<string>) returns (fields: Data)
      requires |args| % 2 == 0
      ensures fields == Unflatten(args)
    {
      fields := map[];
      var i := 0;
      while i < |args|
        invariant 0 <= i <= |args| && i % 2 == 0
        invariant fields == Unflatten(args[..i])
      {
        assert args[..i + 2][..i] == args[..i];
        fields := fields[args[i] := args[i + 1]];
        i := i + 2;
      }
      assert args[..|args|] == args;
    }
  }

  lemma NotEmpty(fields: Data)
    requires fields != map[]
    ensures Wrap(fields) != map[]
  {
  }

  // Every interleaving.

  /** One entity.  `log` lists every state ever stored, oldest first, and `commits` the versions that
      successful scripts expected; `seen` holds what a client read and will act on. */
  datatype State = State(hash: Cell, history: Cell, log: seq<Data>, commits: seq<int>, seen: map<string, Data>)

  datatype Event =
    | Save(version: int, fields: Data)
    | Look(client: string)
    | Delete(client: string, now: string)
    | Restore(client: string, now: string)

  function HashCell(data: Data): Cell {
    Some(Entry(Hash(Wrap(data)), None))
  }

  function DeletePatch(version: int, now: string): Data {
    map["deleted" := "1", "deleted_at" := now, "version" := Decimal.Print(version + 1), "updated_at" := now]
  }

  function RestorePatch(version: int, now: string): Data {
    map["deleted" := "0", "deleted_at" := Codec.Sentinel, "version" := Decimal.Print(version + 1), "updated_at" := now]
  }

  /** The entity right after its first save. */
  function Created(data: Data): State {
    State(HashCell(data), None, [data], [], map[])
  }

  function VersionOf(data: Data): Option<int> {
    if "version" in data then Decimal.Parse(data["version"]) else None
  }

  function Current(s: State): Data
    requires s.log != []
  {
    s.log[|s.log| - 1]
  }

  predicate Enabled(s: State, e: Event) {
    && IsHash(s.hash) && IsList(s.history) && s.log != []
    && match e
       case Save(version, fields) => "version" in fields && fields["version"] == Decimal.Print(version + 1)
       case Look(_) => true
       case Delete(client, _) => client in s.seen && VersionOf(s.seen[client]).Some?
       case Restore(client, _) => client in s.seen && VersionOf(s.seen[client]).Some?
  }

  /** The script an event runs: what it expects, what it writes, and its outcome. */
  function Expected(s: State, e: Event): int
    requires Enabled(s, e) && !e.Look?
  {
    if e.Save? then e.version else VersionOf(s.seen[e.client]).value
  }

  function Patch(s: State, e: Event): Data
    requires Enabled(s, e) && !e.Look?
  {
    match e
    case Save(_, fields) => fields
    case Delete(_, now) => DeletePatch(Expected(s, e), now)
    case Restore(_, now) => RestorePatch(Expected(s, e), now)
  }

  function Outcome(s: State, e: Event, max: int): (Cell, Cell, int)
    requires Enabled(s, e) && !e.Look?
  {
    var expected := Decimal.Print(Expected(s, e));
    if e.Save? then LockSet(s.hash, s.history, expected, max, Wrap(Patch(s, e)))
    else LockPartialSet(s.hash, s.history, expected, max, Wrap(Patch(s, e)))
  }

  function Next(s: State, e: Event, max: int): State
    requires Enabled(s, e)
  {
    if e.Look? then s.(seen := s.seen[e.client := Current(s)])
    else
      var (hash, history, code) := Outcome(s, e, max);
      if code == 0 then s.(hash := hash, history := history)
      else State(hash, history, s.log + [Current(s) + Patch(s, e)], s.commits + [Expected(s, e)], s.seen)
  }

  predicate Valid(s: State, run: seq<Event>, max: int)
    decreases |run|
  {
    run == [] || (Enabled(s, run[0]) && Valid(Next(s, run[0], max), run[1..], max))
  }

  function Run(s: State, run: seq<Event>, max: int): State
    requires Valid(s, run, max)
    decreases |run|
  {
    if run == [] then s else Run(Next(s, run[0], max), run[1..], max)
  }

  /** Earlier states newest first, and the part of them a history bound keeps. */
  function Past(log: seq<Data>): seq<Item> {
    if |log| <= 1 then [] else [Doc(Wrap(log[|log| - 2]))] + Past(log[..|log| - 1])
  }

  function KeptPast(log: seq<Data>, max: int): seq<Item> {
    if max > 0 then FirstOf(Past(log), max) else Past(log)
  }

  predicate AtVersion(data: Data, version: int) {
    "version" in data && data["version"] == Decimal.Print(version)
  }

  predicate Versioned(log: seq<Data>) {
    forall i :: 0 <= i < |log| ==> AtVersion(log[i], i + 1)
  }

  ghost predicate Inv(s: State, max: int) {
    && s.log != [] && Versioned(s.log)
    && s.hash == HashCell(Current(s))
    && s.history == ListCell(KeptPast(s.log, max), None)
    && |s.commits| == |s.log| - 1 && (forall k :: 0 <= k < |s.commits| ==> s.commits[k] == k + 1)
    && (forall c :: c in s.seen ==> s.seen[c] in s.log)
  }

  lemma CurrentVersion(s: State, max: int)
    requires Inv(s, max)
    ensures FieldOf(s.hash, "version") == Some(Text(Decimal.Print(|s.log|)))
    ensures FieldsOf(s.hash) == Wrap(Current(s)) && FieldsOf(s.hash) != map[]
  {
    assert "version" in Wrap(Current(s));
  }

  /** A script succeeds exactly when it expects the number of states stored so far. */
  lemma SucceedsIff(s: State, e: Event, max: int)
    requires Inv(s, max) && Enabled(s, e) && !e.Look?
    ensures var (hash, history, code) := Outcome(s, e, max);
      && (code == 1 <==> Expected(s, e) == |s.log|)
      && (code != 1 ==> code == 0 && hash == s.hash && history == s.history)
  {
    CurrentVersion(s, max);
    Decimal.PrintIsInjective(Expected(s, e), |s.log|);
  }

  lemma TrimmedPush(head: Item, past: seq<Item>, max: nat)
    requires max > 0
    ensures FirstOf([head] + FirstOf(past, max), max) == FirstOf([head] + past, max)
  {
  }

  lemma PastSnoc(log: seq<Data>, data: Data, max: int)
    requires log != []
    ensures var pushed := [Doc(Wrap(log[|log| - 1]))] + KeptPast(log, max);
      KeptPast(log + [data], max) == if max > 0 then FirstOf(pushed, max) else pushed
  {
    var longer := log + [data];
    assert longer[..|longer| - 1] == log;
    assert Past(longer) == [Doc(Wrap(log[|log| - 1]))] + Past(log);
    if max > 0 {
      TrimmedPush(Doc(Wrap(log[|log| - 1])), Past(log), max);
    }
  }

  lemma CommitStep(s: State, max: int, patch: Data)
    requires Inv(s, max) && "version" in patch
    ensures Commit(s.hash, s.history, max, Wrap(patch))
         == (HashCell(Current(s) + patch), ListCell(KeptPast(s.log + [Current(s) + patch], max), None))
  {
    CurrentVersion(s, max);
    NotEmpty(patch);
    WrapMerge(Current(s), patch);
    PastSnoc(s.log, Current(s) + patch, max);
    assert ItemsOf(s.history) == KeptPast(s.log, max);
  }

  /** What a successful operation does to everything. */
  function Committed(s: State, e: Event, max: int): State
    requires Enabled(s, e) && !e.Look?
  {
    var log := s.log + [Current(s) + Patch(s, e)];
    State(HashCell(log[|s.log|]), ListCell(KeptPast(log, max), None), log, s.commits + [Expected(s, e)], s.seen)
  }

  lemma Succeeds(s: State, e: Event, max: int)
    requires Inv(s, max) && Enabled(s, e) && !e.Look?
    ensures Next(s, e, max) == if Expected(s, e) == |s.log| then Committed(s, e, max) else s
  {
    SucceedsIff(s, e, max);
    if Expected(s, e) == |s.log| {
      CommitStep(s, max, Patch(s, e));
    }
  }

  /** A committed save stores the current state with its fields merged in. */
  lemma SaveStores(s: State, version: int, fields: Data, max: int)
    requires Inv(s, max) && "version" in fields && fields["version"] == Decimal.Print(version + 1)
    ensures var e := Save(version, fields);
      && Enabled(s, e)
      && Outcome(s, e, max) == LockSet(s.hash, s.history, Decimal.Print(version), max, Wrap(fields))
      && (Outcome(s, e, max).2 == 1 ==>
           var s' := Next(s, e, max);
           s'.log != [] && s'.hash == HashCell(Current(s')) && Current(s') == Current(s) + fields)
  {
    var e := Save(version, fields);
    Succeeds(s, e, max);
    SucceedsIff(s, e, max);
  }

  lemma InvStep(s: State, e: Event, max: int)
    requires Inv(s, max) && Enabled(s, e)
    ensures Inv(Next(s, e, max), max)
  {
    if e.Look? {
      assert Current(s) in s.log;
    } else {
      Succeeds(s, e, max);
      if Expected(s, e) == |s.log| {
        PatchVersion(s, e);
        CommittedInv(s, Committed(s, e, max), Current(s) + Patch(s, e), max);
      }
    }
  }

  lemma PatchVersion(s: State, e: Event)
    requires Enabled(s, e) && !e.Look?
    ensures AtVersion(Current(s) + Patch(s, e), Expected(s, e) + 1)
  {
  }

  lemma CommittedInv(s: State, s': State, data: Data, max: int)
    requires Inv(s, max) && s'.log == s.log + [data] && AtVersion(data, |s.log| + 1)
    requires s'.hash == HashCell(data) && s'.history == ListCell(KeptPast(s'.log, max), None)
    requires s'.commits == s.commits + [|s.log|] && s'.seen == s.seen
    ensures Inv(s', max)
  {
  }

  lemma {:induction false} AlwaysInv(s: State, run: seq<Event>, max: int)
    requires Inv(s, max) && Valid(s, run, max)
    ensures Inv(Run(s, run, max), max)
    decreases |run|
  {
    if run != [] {
      InvStep(s, run[0], max);
      AlwaysInv(Next(s, run[0], max), run[1..], max);
    }
  }

  lemma CreatedInv(data: Data, max: int)
    requires AtVersion(data, 1)
    ensures Inv(Created(data), max)
  {
  }

  lemma {:induction false} PastAt(log: seq<Data>, k: nat)
    requires k < |log| - 1
    ensures |Past(log)| == |log| - 1 && Past(log)[k] == Doc(Wrap(log[|log| - 2 - k]))
  {
    if k > 0 {
      PastAt(log[..|log| - 1], k - 1);
    } else if |log| > 2 {
      PastAt(log[..|log| - 1], 0);
    }
  }

  /** At version v the history holds the v - 1 earlier states newest first, with versions v - 1, v - 2, ...,
      or the newest `max` of them under a positive bound; `k` is any position in it. */
  predicate ShowsPast(s: State, max: int, k: nat) {
    var v := |s.log|;
    && IsList(s.history)
    && v >= 1 && s.hash == HashCell(s.log[v - 1]) && AtVersion(s.log[v - 1], v)
    && |ItemsOf(s.history)| == (if 0 < max < v - 1 then max else v - 1)
    && (k < |ItemsOf(s.history)| ==>
          ItemsOf(s.history)[k] == Doc(Wrap(s.log[v - 2 - k])) && AtVersion(s.log[v - 2 - k], v - 1 - k))
  }

  /** History is the exact past, at every point of every run. */
  lemma HistoryIsThePast(data: Data, run: seq<Event>, max: int, k: nat)
    requires AtVersion(data, 1) && Valid(Created(data), run, max)
    ensures ShowsPast(Run(Created(data), run, max), max, k)
  {
    CreatedInv(data, max);
    AlwaysInv(Created(data), run, max);
    HistoryFrom(Run(Created(data), run, max), max, k);
  }

  lemma HistoryFrom(s: State, max: int, k: nat)
    requires Inv(s, max)
    ensures ShowsPast(s, max, k)
  {
    KeptAt(s.log, max, k);
    assert ItemsOf(s.history) == KeptPast(s.log, max);
  }

  lemma KeptAt(log: seq<Data>, max: int, k: nat)
    requires log != []
    ensures var v, items := |log|, KeptPast(log, max);
      && |items| == (if 0 < max < v - 1 then max else v - 1)
      && (k < |items| ==> items[k] == Doc(Wrap(log[v - 2 - k])))
  {
    if |log| > 1 {
      PastAt(log, if k < |log| - 1 then k else 0);
    }
  }

  /** No lost update: successful operations expect 1, 2, 3, ... in turn, so no two that read the same
      version both commit. */
  lemma NoLostUpdate(data: Data, run: seq<Event>, max: int, i: nat, j: nat)
    requires AtVersion(data, 1) && Valid(Created(data), run, max)
    requires i < |Run(Created(data), run, max).commits| && j < |Run(Created(data), run, max).commits|
    ensures var commits := Run(Created(data), run, max).commits;
      commits[i] == i + 1 && (commits[i] == commits[j] ==> i == j)
  {
    CreatedInv(data, max);
    AlwaysInv(Created(data), run, max);
  }

  lemma VersionDetermines(log: seq<Data>, data: Data)
    requires Versioned(log) && data in log
    ensures VersionOf(data).Some? && 1 <= VersionOf(data).value <= |log|
    ensures data == log[VersionOf(data).value - 1]
  {
    var i :| 0 <= i < |log| && log[i] == data;
    Decimal.ParsePrint(i + 1);
  }

  /** A delete or restore commits exactly when the stored state is the very state it read; a refused
      operation leaves hash and history untouched. */
  lemma CommitsWhatItRead(data: Data, run: seq<Event>, max: int, e: Event)
    requires AtVersion(data, 1) && Valid(Created(data), run, max)
    requires Enabled(Run(Created(data), run, max), e) && (e.Delete? || e.Restore?)
    ensures var s := Run(Created(data), run, max);
      var (hash, history, code) := Outcome(s, e, max);
      && (code == 1 <==> s.hash == HashCell(s.seen[e.client]))
      && (code != 1 ==> hash == s.hash && history == s.history)
  {
    CreatedInv(data, max);
    AlwaysInv(Created(data), run, max);
    CommitsFrom(Run(Created(data), run, max), max, e);
  }

  lemma CommitsFrom(s: State, max: int, e: Event)
    requires Inv(s, max) && Enabled(s, e) && (e.Delete? || e.Restore?)
    ensures var (hash, history, code) := Outcome(s, e, max);
      && (code == 1 <==> s.hash == HashCell(s.seen[e.client]))
      && (code != 1 ==> hash == s.hash && history == s.history)
  {
    SucceedsIff(s, e, max);
    var read := s.seen[e.client];
    assert Current(s) in s.log;
    VersionDetermines(s.log, read);
    VersionDetermines(s.log, Current(s));
    assert VersionOf(Current(s)) == Some(|s.log|) by { Decimal.ParsePrint(|s.log|); }
    if s.hash == HashCell(read) {
      WrapIsInjective(read, Current(s));
    }
  }

  /** A delete or restore right after its read, at any point of any run, commits. */
  lemma UndisturbedCommits(data: Data, run: seq<Event>, max: int, e: Event)
    requires AtVersion(data, 1) && Valid(Created(data), run, max) && (e.Delete? || e.Restore?)
    ensures var s := Run(Created(data), run, max);
      && Enabled(s, Look(e.client)) && Enabled(Next(s, Look(e.client), max), e)
      && Outcome(Next(s, Look(e.client), max), e, max).2 == 1
  {
    CreatedInv(data, max);
    AlwaysInv(Created(data), run, max);
    var s := Run(Created(data), run, max);
    var s' := Next(s, Look(e.client), max);
    InvStep(s, Look(e.client), max);
    assert s'.seen[e.client] == s.log[|s.log| - 1];
    VersionDetermines(s.log, s'.seen[e.client]);
    CommitsFrom(s', max, e);
  }

  /** Hence what a committed delete or restore stores is the state its client read with the patch merged in. */
  lemma PatchesWhatItRead(data: Data, run: seq<Event>, max: int, e: Event)
    requires AtVersion(data, 1) && Valid(Created(data), run, max)
    requires Enabled(Run(Created(data), run, max), e) && (e.Delete? || e.Restore?)
    requires Outcome(Run(Created(data), run, max), e, max).2 == 1
    ensures var s := Run(Created(data), run, max);
      var s' := Next(s, e, max);
      s'.log != [] && s'.hash == HashCell(Current(s')) && Current(s') == s.seen[e.client] + Patch(s, e)
  {
    CreatedInv(data, max);
    AlwaysInv(Created(data), run, max);
    var s := Run(Created(data), run, max);
    CommitsFrom(s, max, e);
    WrapIsInjective(s.seen[e.client], Current(s));
    Succeeds(s, e, max);
    SucceedsIff(s, e, max);
  }

  /** A save commits exactly when no state newer than the one it was made from has been stored. */
  lemma SaveCommitsIffNewest(data: Data, run: seq<Event>, max: int, e: Event)
    requires AtVersion(data, 1) && Valid(Created(data), run, max)
    requires Enabled(Run(Created(data), run, max), e) && e.Save?
    ensures var s := Run(Created(data), run, max);
      Outcome(s, e, max).2 == 1 <==> VersionOf(Current(s)) == Some(e.version)
  {
    CreatedInv(data, max);
    AlwaysInv(Created(data), run, max);
    var s := Run(Created(data), run, max);
    SucceedsIff(s, e, max);
    Decimal.ParsePrint(|s.log|);
  }
}
