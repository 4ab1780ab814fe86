/** The client side of the repository: how entities become script arguments, and what a reader sees
    after a save, a delete or a restore. */
module EntityStore {
  import opened Wrappers
  import opened Redis
  import opened Codec = HashCodec
  import R = Repository

  datatype Failure = NotFound | Unreadable | NotDeleted | Conflict

  predicate Declares(schema: Schema, name: string, ftype: FieldType) {
    exists i :: 0 <= i < |schema| && schema[i].name == name && schema[i].ftype == ftype
  }

  /** Every model has the audit fields of the base model. */
  predicate BaseModel(schema: Schema) {
    && Distinct(schema)
    && Declares(schema, "version", TInt) && Declares(schema, "deleted", TBool)
    && Declares(schema, "updated_at", TDate) && Declares(schema, "deleted_at", TDate)
  }

  predicate IsDeleted(entity: Entity) {
    "deleted" in entity && entity["deleted"] == Bool(true)
  }

  function Version(entity: Entity): Option<int> {
    if "version" in entity && entity["version"].Int? then Some(entity["version"].n) else None
  }

  function Saved(entity: Entity, version: int, at: int): Entity {
    entity + map["version" := Int(version + 1), "updated_at" := Date(at)]
  }

  function DeleteChange(version: int, at: int): Entity {
    map["deleted" := Bool(true), "deleted_at" := Date(at), "version" := Int(version + 1), "updated_at" := Date(at)]
  }

  function RestoreChange(version: int, at: int): Entity {
    map["deleted" := Bool(false), "deleted_at" := Nothing, "version" := Int(version + 1), "updated_at" := Date(at)]
  }

  function Deleted(entity: Entity, version: int, at: int): Entity {
    entity + DeleteChange(version, at)
  }

  function Restored(entity: Entity, version: int, at: int): Entity {
    entity + RestoreChange(version, at)
  }

  /** The same entity but for these fields. */
  predicate Differs(entity: Entity, r: Entity, fields: Entity) {
    && r.Keys == entity.Keys + fields.Keys
    && (forall name :: name in fields ==> r[name] == fields[name])
    && (forall name :: name in entity && name !in fields ==> r[name] == entity[name])
  }

  /** What a save, a delete and a restore return or leave to be read. */
  lemma ResultsDiffer(entity: Entity, version: int, at: int)
    ensures Differs(entity, Saved(entity, version, at), map["version" := Int(version + 1), "updated_at" := Date(at)])
    ensures Differs(entity, Deleted(entity, version, at),
      map["deleted" := Bool(true), "deleted_at" := Date(at), "version" := Int(version + 1), "updated_at" := Date(at)])
    ensures Differs(entity, Restored(entity, version, at),
      map["deleted" := Bool(false), "deleted_at" := Nothing, "version" := Int(version + 1), "updated_at" := Date(at)])
  {
  }

  function Unwrap(fields: map<string, Scalar>): R.Data {
    map k | k in fields && fields[k].Text? :: fields[k].text
  }

  /** Writing a patch changes what is read exactly by what the patch says. */
  lemma PatchReads(schema: Schema, data: R.Data, fmt: Formats, entity: Entity, patch: R.Data, change: Entity)
    requires Distinct(schema) && FromHash(schema, data, fmt) == Ok(entity)
    requires patch.Keys == change.Keys && patch.Keys <= Names(schema)
    requires forall i :: 0 <= i < |schema| && schema[i].name in patch ==>
               ReadValue(schema[i], patch[schema[i].name], fmt) == Ok(change[schema[i].name])
    ensures FromHash(schema, data + patch, fmt) == Ok(entity + change)
  {
    FromHashFields(schema, data, fmt, entity);
    assert (entity + change).Keys == Names(schema);
    FromHashFields(schema, data + patch, fmt, entity + change);
  }

  lemma DeclaredName(schema: Schema, name: string, ftype: FieldType)
    requires Distinct(schema) && Declares(schema, name, ftype)
    ensures name in Names(schema)
    ensures forall i :: 0 <= i < |schema| && schema[i].name == name ==> schema[i].ftype == ftype
  {
  }

  const AuditNames := {"version", "deleted", "updated_at", "deleted_at"}

  predicate AuditField(f: Field) {
    && f.name in AuditNames
    && (f.name == "version" ==> f.ftype == TInt)
    && (f.name == "deleted" ==> f.ftype == TBool)
    && (f.name == "updated_at" || f.name == "deleted_at" ==> f.ftype == TDate)
  }

  lemma BaseNames(schema: Schema)
    requires BaseModel(schema)
    ensures AuditNames <= Names(schema)
    ensures forall i :: 0 <= i < |schema| && schema[i].name in AuditNames ==> AuditField(schema[i])
  {
    DeclaredName(schema, "version", TInt);
    DeclaredName(schema, "deleted", TBool);
    DeclaredName(schema, "updated_at", TDate);
    DeclaredName(schema, "deleted_at", TDate);
  }

  /** How each audit field reads back. */
  lemma AuditValues(f: Field, fmt: Formats, version: int, at: int)
    requires Inverse(fmt)
    ensures f.ftype == TInt ==> ReadValue(f, Decimal.Print(version), fmt) == Ok(Int(version))
    ensures f.ftype == TDate ==> ReadValue(f, fmt.iso(at), fmt) == Ok(Date(at))
    ensures f.ftype == TBool ==> ReadValue(f, "1", fmt) == Ok(Bool(true)) && ReadValue(f, "0", fmt) == Ok(Bool(false))
    ensures ReadValue(f, Sentinel, fmt) == Ok(Nothing)
  {
    Decimal.ParsePrint(version);
  }

  lemma RestoredField(f: Field, fmt: Formats, version: int, at: int)
    requires Inverse(fmt) && AuditField(f)
    ensures ReadValue(f, R.RestorePatch(version, fmt.iso(at))[f.name], fmt) == Ok(RestoreChange(version, at)[f.name])
  {
    AuditValues(f, fmt, version + 1, at);
  }

  lemma DeletedField(f: Field, fmt: Formats, version: int, at: int)
    requires Inverse(fmt) && AuditField(f)
    ensures ReadValue(f, R.DeletePatch(version, fmt.iso(at))[f.name], fmt) == Ok(DeleteChange(version, at)[f.name])
  {
    AuditValues(f, fmt, version + 1, at);
  }

  /** What `restore` returns is what a reader finds right after it, and the entity is visible again. */
  lemma RestoreReturnsWhatFindReads(schema: Schema, data: R.Data, fmt: Formats, entity: Entity, version: int, at: int)
    requires BaseModel(schema) && Inverse(fmt)
    requires FromHash(schema, data, fmt) == Ok(entity) && Version(entity) == Some(version)
    ensures FromHash(schema, data + R.RestorePatch(version, fmt.iso(at)), fmt) == Ok(Restored(entity, version, at))
    ensures !IsDeleted(Restored(entity, version, at))
  {
    var patch := R.RestorePatch(version, fmt.iso(at));
    var change := RestoreChange(version, at);
    BaseNames(schema);
    forall i | 0 <= i < |schema| && schema[i].name in patch
      ensures ReadValue(schema[i], patch[schema[i].name], fmt) == Ok(change[schema[i].name])
    {
      RestoredField(schema[i], fmt, version, at);
    }
    PatchReads(schema, data, fmt, entity, patch, change);
  }

  /** After a delete a reader finds the same entity marked deleted, so `find` hides it. */
  lemma DeleteHides(schema: Schema, data: R.Data, fmt: Formats, entity: Entity, version: int, at: int)
    requires BaseModel(schema) && Inverse(fmt)
    requires FromHash(schema, data, fmt) == Ok(entity) && Version(entity) == Some(version)
    ensures FromHash(schema, data + R.DeletePatch(version, fmt.iso(at)), fmt) == Ok(Deleted(entity, version, at))
    ensures IsDeleted(Deleted(entity, version, at))
  {
    var patch := R.DeletePatch(version, fmt.iso(at));
    var change := DeleteChange(version, at);
    BaseNames(schema);
    forall i | 0 <= i < |schema| && schema[i].name in patch
      ensures ReadValue(schema[i], patch[schema[i].name], fmt) == Ok(change[schema[i].name])
    {
      DeletedField(schema[i], fmt, version, at);
    }
    PatchReads(schema, data, fmt, entity, patch, change);
  }

  lemma VersionRead(schema: Schema, data: R.Data, fmt: Formats, entity: Entity, version: int)
    requires BaseModel(schema) && FromHash(schema, data, fmt) == Ok(entity) && Version(entity) == Some(version)
    requires "version" in data
    ensures R.VersionOf(data) == Some(version)
  {
    BaseNames(schema);
    FromHashFields(schema, data, fmt, entity);
    var i :| 0 <= i < |schema| && schema[i].name == "version";
    assert ReadField(schema[i], data, fmt) == Ok(Int(version));
  }

  /** A client read this entity in this run and goes on to delete or restore it. */
  ghost predicate HasRead(first: R.Data, run: seq<R.Event>, max: int, client: string,
                          schema: Schema, fmt: Formats, entity: Entity, version: int) {
    && BaseModel(schema) && Inverse(fmt)
    && R.AtVersion(first, 1) && R.Valid(R.Created(first), run, max)
    && var s := R.Run(R.Created(first), run, max);
      client in s.seen && FromHash(schema, s.seen[client], fmt) == Ok(entity) && Version(entity) == Some(version)
  }

  lemma ReadsVersion(first: R.Data, run: seq<R.Event>, max: int, client: string,
                     schema: Schema, fmt: Formats, entity: Entity, version: int)
    requires HasRead(first, run, max, client, schema, fmt, entity, version)
    ensures var s := R.Run(R.Created(first), run, max);
      R.VersionOf(s.seen[client]) == Some(version) && IsHash(s.hash) && IsList(s.history) && s.log != []
  {
    R.CreatedInv(first, max);
    R.AlwaysInv(R.Created(first), run, max);
    var s := R.Run(R.Created(first), run, max);
    var i :| 0 <= i < |s.log| && s.log[i] == s.seen[client];
    assert R.AtVersion(s.log[i], i + 1);
    VersionRead(schema, s.seen[client], fmt, entity, version);
  }

  /** In every interleaving: the script that `restore` runs writes its patch against the version it read,
      and if it commits, the hash stored right after reads as exactly what `restore` returns, visibly. */
  lemma RestoredIsStored(first: R.Data, run: seq<R.Event>, max: int, client: string,
                         schema: Schema, fmt: Formats, entity: Entity, version: int, at: int)
    requires HasRead(first, run, max, client, schema, fmt, entity, version)
    ensures var s, e := R.Run(R.Created(first), run, max), R.Restore(client, fmt.iso(at));
      && R.Enabled(s, e)
      && R.Outcome(s, e, max) == R.LockPartialSet(s.hash, s.history, Decimal.Print(version), max,
           R.Wrap(R.RestorePatch(version, fmt.iso(at))))
      && (R.Outcome(s, e, max).2 == 1 ==>
           var s' := R.Next(s, e, max);
           && s'.log != [] && s'.hash == R.HashCell(R.Current(s'))
           && FromHash(schema, R.Current(s'), fmt) == Ok(Restored(entity, version, at)))
    ensures !IsDeleted(Restored(entity, version, at))
    ensures Differs(entity, Restored(entity, version, at),
      map["deleted" := Bool(false), "deleted_at" := Nothing, "version" := Int(version + 1), "updated_at" := Date(at)])
  {
    ResultsDiffer(entity, version, at);
    var s, e := R.Run(R.Created(first), run, max), R.Restore(client, fmt.iso(at));
    ReadsVersion(first, run, max, client, schema, fmt, entity, version);
    RestoreReturnsWhatFindReads(schema, s.seen[client], fmt, entity, version, at);
    if R.Outcome(s, e, max).2 == 1 {
      R.PatchesWhatItRead(first, run, max, e);
    }
  }

  /** In every interleaving: if the script that `delete` runs commits, the hash stored right after reads
      as the entity that `delete` read, marked deleted. */
  lemma DeletedIsStored(first: R.Data, run: seq<R.Event>, max: int, client: string,
                        schema: Schema, fmt: Formats, entity: Entity, version: int, at: int)
    requires HasRead(first, run, max, client, schema, fmt, entity, version)
    ensures var s, e := R.Run(R.Created(first), run, max), R.Delete(client, fmt.iso(at));
      && R.Enabled(s, e)
      && R.Outcome(s, e, max) == R.LockPartialSet(s.hash, s.history, Decimal.Print(version), max,
           R.Wrap(R.DeletePatch(version, fmt.iso(at))))
      && (R.Outcome(s, e, max).2 == 1 ==>
           var s' := R.Next(s, e, max);
           && s'.log != [] && s'.hash == R.HashCell(R.Current(s'))
           && FromHash(schema, R.Current(s'), fmt) == Ok(Deleted(entity, version, at)))
    ensures IsDeleted(Deleted(entity, version, at))
    ensures Differs(entity, Deleted(entity, version, at),
      map["deleted" := Bool(true), "deleted_at" := Date(at), "version" := Int(version + 1), "updated_at" := Date(at)])
  {
    ResultsDiffer(entity, version, at);
    var s, e := R.Run(R.Created(first), run, max), R.Delete(client, fmt.iso(at));
    ReadsVersion(first, run, max, client, schema, fmt, entity, version);
    DeleteHides(schema, s.seen[client], fmt, entity, version, at);
    if R.Outcome(s, e, max).2 == 1 {
      R.PatchesWhatItRead(first, run, max, e);
    }
  }

  lemma SavedIsTyped(schema: Schema, entity: Entity, version: int, at: int)
    requires BaseModel(schema) && Typed(schema, entity)
    ensures Typed(schema, Saved(entity, version, at))
  {
    BaseNames(schema);
    var saved := Saved(entity, version, at);
    assert saved.Keys == Names(schema);
    forall i | 0 <= i < |schema| ensures Matches(saved[schema[i].name], schema[i])
                                      || (schema[i].optional && saved[schema[i].name] == Nothing) {
      assert schema[i].name in entity;
      if schema[i].name in AuditNames {
        assert AuditField(schema[i]);
      }
    }
  }

  lemma SavedSentinel(schema: Schema, entity: Entity, version: int, at: int)
    requires BaseModel(schema) && Typed(schema, entity)
    ensures NoSentinelText(Saved(entity, version, at)) <==> NoSentinelText(entity)
  {
    BaseNames(schema);
    var saved := Saved(entity, version, at);
    forall name | name in entity
      ensures entity[name] == Codec.Value.Str(Sentinel) <==> saved[name] == Codec.Value.Str(Sentinel)
    {
      var i :| 0 <= i < |schema| && schema[i].name == name;
      assert name in AuditNames ==> AuditField(schema[i]);
    }
    assert saved.Keys == entity.Keys;
  }

  /** Whatever was stored, what a save writes reads as what it returns, unless a string is the sentinel. */
  lemma SaveReads(schema: Schema, fmt: Formats, data: R.Data, entity: Entity, version: int, at: int)
    requires BaseModel(schema) && Inverse(fmt) && Typed(schema, entity)
    ensures var saved := Saved(entity, version, at);
      FromHash(schema, data + ToHash(saved, fmt), fmt) == Ok(saved) <==> NoSentinelText(entity)
  {
    var saved := Saved(entity, version, at);
    SavedIsTyped(schema, entity, version, at);
    SavedSentinel(schema, entity, version, at);
    var patch := ToHash(saved, fmt);
    forall i | 0 <= i < |schema| ensures ReadField(schema[i], data + patch, fmt) == ReadField(schema[i], patch, fmt) {
      assert schema[i].name in Names(schema) && schema[i].name in patch;
    }
    SameReads(schema, data + patch, patch, fmt);
    RoundTrip(schema, saved, fmt);
  }

  /** In every interleaving: the script that `save` runs is an event of the run, and if it commits, the hash
      stored right after reads as exactly what `save` returns, unless a string is the sentinel: the entity
      given, with the next version and the time of the save. */
  lemma SavedIsStored(first: R.Data, run: seq<R.Event>, max: int,
                      schema: Schema, fmt: Formats, entity: Entity, version: int, at: int)
    requires BaseModel(schema) && Inverse(fmt) && R.AtVersion(first, 1) && R.Valid(R.Created(first), run, max)
    requires Typed(schema, entity) && Version(entity) == Some(version)
    ensures var s, saved := R.Run(R.Created(first), run, max), Saved(entity, version, at);
      var e := R.Save(version, ToHash(saved, fmt));
      && R.Enabled(s, e)
      && R.Outcome(s, e, max) == R.LockSet(s.hash, s.history, Decimal.Print(version), max, R.Wrap(ToHash(saved, fmt)))
      && (R.Outcome(s, e, max).2 == 1 ==>
           var s' := R.Next(s, e, max);
           && s'.log != [] && s'.hash == R.HashCell(R.Current(s'))
           && (FromHash(schema, R.Current(s'), fmt) == Ok(saved) <==> NoSentinelText(entity)))
    ensures Differs(entity, Saved(entity, version, at), map["version" := Int(version + 1), "updated_at" := Date(at)])
  {
    R.CreatedInv(first, max);
    R.AlwaysInv(R.Created(first), run, max);
    var s, saved := R.Run(R.Created(first), run, max), Saved(entity, version, at);
    var patch := ToHash(saved, fmt);
    var e := R.Save(version, patch);
    assert Differs(entity, saved, map["version" := Int(version + 1), "updated_at" := Date(at)]) by {
      ResultsDiffer(entity, version, at);
    }
    assert "version" in patch && patch["version"] == Decimal.Print(version + 1);
    R.SaveStores(s, version, patch, max);
    SaveReads(schema, fmt, R.Current(s), entity, version, at);
  }

  /** Every typed entity free of the sentinel, once stored in its first version, can be read back, and a
      delete or restore right after that read commits. */
  lemma StoredCanBeRead(schema: Schema, fmt: Formats, entity: Entity, max: int, client: string, at: int)
    requires BaseModel(schema) && Inverse(fmt) && Typed(schema, entity) && NoSentinelText(entity)
    requires Version(entity) == Some(1)
    ensures var first, run := ToHash(entity, fmt), [R.Look(client)];
      && HasRead(first, run, max, client, schema, fmt, entity, 1)
      && var s := R.Run(R.Created(first), run, max);
        && R.Enabled(s, R.Delete(client, fmt.iso(at))) && R.Outcome(s, R.Delete(client, fmt.iso(at)), max).2 == 1
        && R.Enabled(s, R.Restore(client, fmt.iso(at))) && R.Outcome(s, R.Restore(client, fmt.iso(at)), max).2 == 1
  {
    var first, look := ToHash(entity, fmt), R.Look(client);
    RoundTrip(schema, entity, fmt);
    assert R.AtVersion(first, 1);
    R.UndisturbedCommits(first, [], max, R.Delete(client, fmt.iso(at)));
    R.UndisturbedCommits(first, [], max, R.Restore(client, fmt.iso(at)));
    var s := R.Next(R.Created(first), look, max);
    assert [look][1..] == [] && R.Run(R.Created(first), [look], max) == s;
    assert s.seen[client] == first;
  }

  const AuditSchema: Schema := [
    Field("version", TInt, false, None), Field("deleted", TBool, false, None),
    Field("updated_at", TDate, true, None), Field("deleted_at", TDate, true, None)]

  const AuditEntity: Entity :=
    map["version" := Int(1), "deleted" := Bool(true), "updated_at" := Date(7), "deleted_at" := Date(7)]

  lemma SomeSchema()
    ensures BaseModel(AuditSchema)
  {
    assert AuditSchema[0].name == "version" && AuditSchema[1].name == "deleted";
    assert AuditSchema[2].name == "updated_at" && AuditSchema[3].name == "deleted_at";
  }

  lemma AuditTyped()
    ensures Typed(AuditSchema, AuditEntity)
  {
    var schema, entity := AuditSchema, AuditEntity;
    assert schema[0].name == "version" && schema[1].name == "deleted";
    assert schema[2].name == "updated_at" && schema[3].name == "deleted_at";
    assert Names(schema) == entity.Keys;
  }

  /** Such an entity exists. */
  lemma SomeEntity()
    ensures BaseModel(AuditSchema) && Typed(AuditSchema, AuditEntity) && NoSentinelText(AuditEntity)
    ensures Version(AuditEntity) == Some(1) && IsDeleted(AuditEntity) && Inverse(Plain)
  {
    PlainIsInverse();
    SomeSchema();
    AuditTyped();
  }

  /** A delete followed by a restore leaves everything but the version and the update time as it was. */
  lemma RestoreUndoesDelete(entity: Entity, version: int, t1: int, t2: int)
    requires entity.Keys >= {"deleted", "deleted_at", "version", "updated_at"}
    requires entity["deleted"] == Bool(false) && entity["deleted_at"] == Nothing
    ensures Restored(Deleted(entity, version, t1), version + 1, t2)
         == entity + map["version" := Int(version + 2), "updated_at" := Date(t2)]
  {
  }

  function Selected(data: R.Data, names: set<string>): R.Data {
    map k | k in names && k in data :: data[k]
  }

  /** `flat` holds the names and values of exactly these fields. */
  predicate Gathered(flat: seq<string>, data: R.Data, fields: Schema) {
    |flat| % 2 == 0 && R.Unflatten(flat) == Selected(data, Names(fields))
  }

  lemma GatheredNone(schema: Schema, data: R.Data)
    ensures Gathered([], data, schema[..0])
  {
  }

  lemma GatheredMore(flat: seq<string>, data: R.Data, schema: Schema, i: nat)
    requires i < |schema| && Distinct(schema) && data.Keys == Names(schema) && Gathered(flat, data, schema[..i])
    ensures schema[i].name in data
    ensures Gathered(flat + [schema[i].name, data[schema[i].name]], data, schema[..i + 1])
  {
    assert schema[i].name in Names(schema);
    assert schema[..i + 1][..i] == schema[..i];
    NamesSnoc(schema[..i + 1]);
    TwoMore(flat, schema[i].name, data[schema[i].name]);
  }

  lemma GatheredAll(flat: seq<string>, data: R.Data, schema: Schema)
    requires data.Keys == Names(schema) && Gathered(flat, data, schema[..|schema|])
    ensures |flat| % 2 == 0 && R.Unflatten(flat) == data
  {
    assert schema[..|schema|] == schema;
  }

  class Store {
    const client: Server
    const scripts: R.Scripts
    const prefix: string
    const schema: Schema
    const fmt: Formats
    const maxHistory: Option<int>

    constructor (client: Server, prefix: string, schema: Schema, fmt: Formats, maxHistory: Option<int>)
      ensures this.client == client && scripts.client == client && this.prefix == prefix
      ensures this.schema == schema && this.fmt == fmt && this.maxHistory == maxHistory
    {
      this.client := client;
      scripts := new R.Scripts(client);
      this.prefix, this.schema, this.fmt, this.maxHistory := prefix, schema, fmt, maxHistory;
    }

    function Key(id: string): string { if prefix != "" then prefix + ":" + id else id }
    function HistoryKey(id: string): string { Key(id) + ":history" }

    lemma KeysDiffer(a: string, b: string)
      ensures Key(a) == Key(b) <==> a == b
      ensures Key(a) != HistoryKey(a)
    {
      if prefix != "" {
        assert Key(a)[|prefix| + 1..] == a && Key(b)[|prefix| + 1..] == b;
      }
      assert |Key(a)| != |HistoryKey(a)|;
    }

    /** The history keeps the replaced state in front, and no more than this repository's bound. */
    predicate Kept(hash: Cell, before: Cell, after: Cell)
      requires IsHash(hash) && IsList(before)
    {
      FieldsOf(hash) != map[] ==> IsList(after) && R.Grew(FieldsOf(hash), ItemsOf(before), ItemsOf(after), maxHistory)
    }

    lemma BothKeep(id: string, expected: string, fields: map<string, Scalar>)
      requires Ready(id)
      ensures var hash, history := client.At(Key(id)), client.At(HistoryKey(id));
        var full := R.LockSet(hash, history, expected, MaxHistory(), fields);
        var partial := R.LockPartialSet(hash, history, expected, MaxHistory(), fields);
        && (full.2 == 1 ==> Kept(hash, history, full.1))
        && (partial.2 == 1 ==> Kept(hash, history, partial.1))
    {
      if FieldsOf(client.At(Key(id))) != map[] {
        R.CommitGrows(client.At(Key(id)), client.At(HistoryKey(id)), expected, maxHistory, fields);
      }
    }

    /** No bound is sent as -1. */
    function MaxHistory(): int { if maxHistory.Some? then maxHistory.value else -1 }

    predicate Ready(id: string)
      reads client
    {
      scripts.client == client && BaseModel(schema) && IsHash(client.At(Key(id))) && IsList(client.At(HistoryKey(id)))
    }

    function Stored(id: string): R.Data
      requires Ready(id)
      reads client
    {
      Unwrap(FieldsOf(client.At(Key(id))))
    }

    /** `find_including_deleted`, and the read that starts a delete or a restore. */
    method Read(id: string) returns (r: Result<Entity, Failure>)
      requires Ready(id)
      ensures Stored(id) == map[] ==> r == Err(NotFound)
      ensures Stored(id) != map[] ==>
        r == match FromHash(schema, Stored(id), fmt)
             case Ok(entity) => Ok(entity)
             case Err(_) => Err(Unreadable)
    {
      var fields := client.HGetAll(Key(id));
      var data := Unwrap(fields);
      if data == map[] {
        return Err(NotFound);
      }
      var decoded := Decode(schema, data, fmt);
      if decoded.Err? {
        return Err(Unreadable);
      }
      r := Ok(decoded.value);
    }

    method Find(id: string) returns (r: Result<Option<Entity>, Failure>)
      requires Ready(id)
      ensures Stored(id) == map[] ==> r == Ok(None)
      ensures Stored(id) != map[] ==>
        r == match FromHash(schema, Stored(id), fmt)
             case Ok(entity) => Ok(if IsDeleted(entity) then None else Some(entity))
             case Err(_) => Err(Unreadable)
    {
      var read := Read(id);
      if read == Err(NotFound) {
        return Ok(None);
      }
      if read.Err? {
        return Err(read.error);
      }
      r := Ok(if IsDeleted(read.value) then None else Some(read.value));
    }

    /** The update branch of `save`: the entity with the next version is written if the stored version is
        the one it was made from, and otherwise nothing changes and the caller learns of the conflict. */
    method Save(id: string, entity: Entity, version: int, at: int) returns (r: Result<Entity, Failure>)
      requires Ready(id) && entity.Keys == Names(schema) && Version(entity) == Some(version)
      modifies client`db
      ensures var (hash, history, code) := R.LockSet(old(client.At(Key(id))), old(client.At(HistoryKey(id))),
            Decimal.Print(version), MaxHistory(), R.Wrap(ToHash(Saved(entity, version, at), fmt)));
        && client.db == Redis.Store(Redis.Store(old(client.db), Key(id), hash), HistoryKey(id), history)
        && r == if code == 0 then Err(Conflict) else Ok(Saved(entity, version, at))
      ensures r.Ok? ==>
        Differs(entity, r.value, map["version" := Int(version + 1), "updated_at" := Date(at)])
      ensures r.Ok? ==> Kept(old(client.At(Key(id))), old(client.At(HistoryKey(id))), client.At(HistoryKey(id)))
    {
      ResultsDiffer(entity, version, at);
      BaseNames(schema);
      var next := Saved(entity, version, at);
      assert next.Keys == Names(schema);
      var result := WriteAll(id, next, version);
      r := if result == 0 then Err(Conflict) else Ok(next);
    }

    /** The script call of `save`. */
    method WriteAll(id: string, next: Entity, version: int) returns (result: int)
      requires Ready(id) && next.Keys == Names(schema)
      modifies client`db
      ensures var (hash, history, code) := R.LockSet(old(client.At(Key(id))), old(client.At(HistoryKey(id))),
            Decimal.Print(version), MaxHistory(), R.Wrap(ToHash(next, fmt)));
        && client.db == Redis.Store(Redis.Store(old(client.db), Key(id), hash), HistoryKey(id), history)
        && result == code && (code == 0 || code == 1)
      ensures result == 1 ==> Kept(old(client.At(Key(id))), old(client.At(HistoryKey(id))), client.At(HistoryKey(id)))
    {
      BothKeep(id, Decimal.Print(version), R.Wrap(ToHash(next, fmt)));
      var data := Encode(schema, next, fmt);
      var args := Arguments(version, data);
      result := scripts.OptimisticLockSet(Key(id), HistoryKey(id), args);
    }

    /** Expected version, history bound, then names and values in field order. */
    method Arguments(version: int, data: R.Data) returns (args: seq<string>)
      requires Distinct(schema) && data.Keys == Names(schema)
      ensures |args| >= 2 && |args| % 2 == 0
      ensures args[0] == Decimal.Print(version) && Decimal.Parse(args[1]) == Some(MaxHistory())
      ensures R.Unflatten(args[2..]) == data
    {
      args := [Decimal.Print(version), Decimal.Print(MaxHistory())];
      var flat := FieldArguments(data);
      args := args + flat;
      assert args[2..] == flat;
      Decimal.ParsePrint(MaxHistory());
    }

    method FieldArguments(data: R.Data) returns (flat: seq<string>)
      requires Distinct(schema) && data.Keys == Names(schema)
      ensures |flat| % 2 == 0 && R.Unflatten(flat) == data
    {
      flat := [];
      GatheredNone(schema, data);
      for i := 0 to |schema|
        invariant Gathered(flat, data, schema[..i])
      {
        GatheredMore(flat, data, schema, i);
        flat := flat + [schema[i].name, data[schema[i].name]];
      }
      GatheredAll(flat, data, schema);
    }

    /** The second half of `delete`, after `Read` gave an entity of this version. */
    method CommitDelete(id: string, version: int, at: int) returns (r: Result<(), Failure>)
      requires Ready(id)
      modifies client`db
      ensures var (hash, history, code) := R.LockPartialSet(old(client.At(Key(id))), old(client.At(HistoryKey(id))),
            Decimal.Print(version), MaxHistory(), R.Wrap(R.DeletePatch(version, fmt.iso(at))));
        && client.db == Redis.Store(Redis.Store(old(client.db), Key(id), hash), HistoryKey(id), history)
        && r == if code == 0 then Err(Conflict) else Ok(())
      ensures r.Ok? ==> Kept(old(client.At(Key(id))), old(client.At(HistoryKey(id))), client.At(HistoryKey(id)))
    {
      BothKeep(id, Decimal.Print(version), R.Wrap(R.DeletePatch(version, fmt.iso(at))));
      Decimal.ParsePrint(MaxHistory());
      var head := [Decimal.Print(version), Decimal.Print(MaxHistory())];
      var pairs := ["deleted", "1", "deleted_at", fmt.iso(at),
                    "version", Decimal.Print(version + 1), "updated_at", fmt.iso(at)];
      FourPairs("deleted", "1", "deleted_at", fmt.iso(at),
                "version", Decimal.Print(version + 1), "updated_at", fmt.iso(at));
      assert (head + pairs)[2..] == pairs;
      var allowed := scripts.OptimisticLockPartialSet(Key(id), HistoryKey(id), head + pairs);
      r := if allowed == 0 then Err(Conflict) else Ok(());
    }

    /** The second half of `restore`: only a deleted entity can be restored. */
    method CommitRestore(id: string, entity: Entity, version: int, at: int) returns (r: Result<Entity, Failure>)
      requires Ready(id) && Version(entity) == Some(version)
      modifies client`db
      ensures !IsDeleted(entity) ==> r == Err(NotDeleted) && client.db == old(client.db)
      ensures IsDeleted(entity) ==>
        var (hash, history, code) := R.LockPartialSet(old(client.At(Key(id))), old(client.At(HistoryKey(id))),
            Decimal.Print(version), MaxHistory(), R.Wrap(R.RestorePatch(version, fmt.iso(at))));
        && client.db == Redis.Store(Redis.Store(old(client.db), Key(id), hash), HistoryKey(id), history)
        && r == if code == 0 then Err(Conflict) else Ok(Restored(entity, version, at))
      ensures r.Ok? ==>
        Differs(entity, r.value, map["deleted" := Bool(false), "deleted_at" := Nothing,
                                     "version" := Int(version + 1), "updated_at" := Date(at)])
      ensures r.Ok? ==> Kept(old(client.At(Key(id))), old(client.At(HistoryKey(id))), client.At(HistoryKey(id)))
    {
      BothKeep(id, Decimal.Print(version), R.Wrap(R.RestorePatch(version, fmt.iso(at))));
      ResultsDiffer(entity, version, at);
      if !IsDeleted(entity) {
        return Err(NotDeleted);
      }
      Decimal.ParsePrint(MaxHistory());
      var head := [Decimal.Print(version), Decimal.Print(MaxHistory())];
      var pairs := ["deleted", "0", "deleted_at", Sentinel,
                    "version", Decimal.Print(version + 1), "updated_at", fmt.iso(at)];
      FourPairs("deleted", "0", "deleted_at", Sentinel,
                "version", Decimal.Print(version + 1), "updated_at", fmt.iso(at));
      assert (head + pairs)[2..] == pairs;
      var allowed := scripts.OptimisticLockPartialSet(Key(id), HistoryKey(id), head + pairs);
      r := if allowed == 0 then Err(Conflict) else Ok(Restored(entity, version, at));
    }
  }

  lemma FourPairs(a: string, w: string, b: string, x: string, c: string, y: string, d: string, z: string)
    ensures R.Unflatten([a, w, b, x, c, y, d, z]) == map[a := w, b := x, c := y, d := z]
  {
    TwoMore([a, w, b, x, c, y], d, z);
    TwoMore([a, w, b, x], c, y);
    TwoMore([a, w], b, x);
    TwoMore([], a, w);
    assert [] + [a, w] == [a, w];
    assert [a, w] + [b, x] == [a, w, b, x];
    assert [a, w, b, x] + [c, y] == [a, w, b, x, c, y];
    assert [a, w, b, x, c, y] + [d, z] == [a, w, b, x, c, y, d, z];
  }

  lemma TwoMore(args: seq<string>, name: string, text: string)
    requires |args| % 2 == 0
    ensures R.Unflatten(args + [name, text]) == R.Unflatten(args)[name := text]
  {
    assert (args + [name, text])[..|args|] == args;
  }
}
