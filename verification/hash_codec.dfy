/** The hash encoding of entities: every field printed by its value, read back by its declared type. */
module HashCodec {
  import opened Wrappers
  import Decimal

  datatype FieldType = TStr | TInt | TFloat | TBool | TDate

  /** A float stands for its bit pattern and a datetime for its instant, each as a number: both have
      countably many values, so that distinct ones can have distinct texts. */
  datatype Value = Nothing | Str(text: string) | Int(n: int) | Float(bits: int) | Bool(b: bool) | Date(at: int)

  datatype Field = Field(name: string, ftype: FieldType, optional: bool, default: Option<Value>)

  type Schema = seq<Field>
  type Entity = map<string, Value>

  datatype Error = MissingField(name: string) | BadValue(name: string)

  /** Printing and parsing of floats and datetimes, which belong to Python. */
  datatype Formats = Formats(
    float: int -> string, parseFloat: string -> Option<int>,
    iso: int -> string, parseIso: string -> Option<int>)

  const Sentinel: string := "\0__NONE__\0"

  ghost predicate Inverse(fmt: Formats) {
    && (forall x :: fmt.parseFloat(fmt.float(x)) == Some(x) && fmt.float(x) != Sentinel)
    && (forall t :: fmt.parseIso(fmt.iso(t)) == Some(t) && fmt.iso(t) != Sentinel)
  }

  /** Decimal text for both, which shows that the hypothesis can be met. */
  const Plain := Formats(n => Decimal.Print(n), text => Decimal.Parse(text),
                         n => Decimal.Print(n), text => Decimal.Parse(text))

  lemma PlainIsInverse()
    ensures Inverse(Plain)
  {
    forall n ensures Decimal.Parse(Decimal.Print(n)) == Some(n) && Decimal.Print(n) != Sentinel {
      Decimal.ParsePrint(n);
      assert Sentinel[0] == '\0';
    }
  }

  predicate Distinct(schema: Schema) {
    forall i, j :: 0 <= i < j < |schema| ==> schema[i].name != schema[j].name
  }

  function Names(schema: Schema): set<string> {
    set i | 0 <= i < |schema| :: schema[i].name
  }

  function PrintValue(v: Value, fmt: Formats): string {
    match v
    case Nothing => Sentinel
    case Bool(b) => if b then "1" else "0"
    case Date(at) => fmt.iso(at)
    case Str(text) => text
    case Int(n) => Decimal.Print(n)
    case Float(bits) => fmt.float(bits)
  }

  /** One field read from its text. */
  function ReadValue(f: Field, raw: string, fmt: Formats): Result<Value, Error> {
    if raw == Sentinel then Ok(Nothing)
    else
      match f.ftype
      case TInt => var n := Decimal.Parse(raw); if n.Some? then Ok(Int(n.value)) else Err(BadValue(f.name))
      case TFloat => var b := fmt.parseFloat(raw); if b.Some? then Ok(Float(b.value)) else Err(BadValue(f.name))
      case TBool => Ok(Bool(raw == "1"))
      case TDate => var t := fmt.parseIso(raw); if t.Some? then Ok(Date(t.value)) else Err(BadValue(f.name))
      case TStr => Ok(Str(raw))
  }

  /** One field read from the hash: a missing one takes its default. */
  function ReadField(f: Field, data: map<string, string>, fmt: Formats): Result<Value, Error> {
    if f.name in data then ReadValue(f, data[f.name], fmt)
    else if f.default.Some? then Ok(f.default.value)
    else Err(MissingField(f.name))
  }

  function ToHash(entity: Entity, fmt: Formats): map<string, string> {
    map name | name in entity :: PrintValue(entity[name], fmt)
  }

  /** Reads fields in order and stops at the first that cannot be read. */
  function FromHash(schema: Schema, data: map<string, string>, fmt: Formats): Result<Entity, Error> {
    if schema == [] then Ok(map[])
    else
      var last := schema[|schema| - 1];
      var before := FromHash(schema[..|schema| - 1], data, fmt);
      if before.Err? then before
      else
        var v := ReadField(last, data, fmt);
        if v.Err? then Err(v.error) else Ok(before.value[last.name := v.value])
  }

  /** `to_hash`: one pass over the fields of an entity. */
  method Encode(schema: Schema, entity: Entity, fmt: Formats) returns (r: map<string, string>)
    requires entity.Keys == Names(schema)
    ensures r == ToHash(entity, fmt)
  {
    r := map[];
    for i := 0 to |schema|
      invariant r.Keys == set j | 0 <= j < i :: schema[j].name
      invariant forall name :: name in r ==> name in entity && r[name] == PrintValue(entity[name], fmt)
    {
      assert schema[i].name in Names(schema);
      var value := entity[schema[i].name];
      var text;
      if value.Nothing? {
        text := Sentinel;
      } else if value.Bool? {
        text := if value.b then "1" else "0";
      } else if value.Date? {
        text := fmt.iso(value.at);
      } else {
        text := PrintValue(value, fmt);
      }
      r := r[schema[i].name := text];
    }
  }

  /** `from_hash`: one pass over the declared fields; the first unreadable one raises. */
  method Decode(schema: Schema, data: map<string, string>, fmt: Formats) returns (r: Result<Entity, Error>)
    ensures r == FromHash(schema, data, fmt)
  {
    var entity: Entity := map[];
    for i := 0 to |schema|
      invariant FromHash(schema[..i], data, fmt) == Ok(entity)
    {
      assert schema[..i + 1][..i] == schema[..i];
      var v := ReadField(schema[i], data, fmt);
      if v.Err? {
        FirstError(schema, data, fmt, i);
        return Err(v.error);
      }
      entity := entity[schema[i].name := v.value];
    }
    assert schema[..|schema|] == schema;
    r := Ok(entity);
  }

  lemma {:induction false} FirstError(schema: Schema, data: map<string, string>, fmt: Formats, i: nat)
    requires i < |schema| && FromHash(schema[..i], data, fmt).Ok? && ReadField(schema[i], data, fmt).Err?
    ensures FromHash(schema, data, fmt) == Err(ReadField(schema[i], data, fmt).error)
    decreases |schema|
  {
    if i < |schema| - 1 {
      assert schema[..|schema| - 1][..i] == schema[..i];
      FirstError(schema[..|schema| - 1], data, fmt, i);
    }
  }

  /** Every declared field, and no other, reads as the entity has it. */
  predicate ReadsAs(schema: Schema, data: map<string, string>, fmt: Formats, entity: Entity) {
    && entity.Keys == Names(schema)
    && forall i :: 0 <= i < |schema| ==>
         schema[i].name in entity && ReadField(schema[i], data, fmt) == Ok(entity[schema[i].name])
  }

  lemma NamesSnoc(schema: Schema)
    requires schema != [] && Distinct(schema)
    ensures var init, last := schema[..|schema| - 1], schema[|schema| - 1];
      Distinct(init) && Names(schema) == Names(init) + {last.name} && last.name !in Names(init)
  {
  }

  lemma ReadsInit(schema: Schema, data: map<string, string>, fmt: Formats, rest: Entity, v: Value)
    requires schema != [] && Distinct(schema) && rest.Keys == Names(schema[..|schema| - 1])
    requires ReadsAs(schema, data, fmt, rest[schema[|schema| - 1].name := v])
    ensures ReadsAs(schema[..|schema| - 1], data, fmt, rest)
    ensures ReadField(schema[|schema| - 1], data, fmt) == Ok(v)
  {
    var init, last := schema[..|schema| - 1], schema[|schema| - 1];
    NamesSnoc(schema);
    forall i | 0 <= i < |init| ensures init[i].name in rest && ReadField(init[i], data, fmt) == Ok(rest[init[i].name]) {
      assert init[i] == schema[i] && init[i].name in Names(init);
    }
  }

  lemma ReadsSnoc(schema: Schema, data: map<string, string>, fmt: Formats, rest: Entity, v: Value)
    requires schema != [] && Distinct(schema) && rest.Keys == Names(schema[..|schema| - 1])
    requires ReadsAs(schema[..|schema| - 1], data, fmt, rest) && ReadField(schema[|schema| - 1], data, fmt) == Ok(v)
    ensures ReadsAs(schema, data, fmt, rest[schema[|schema| - 1].name := v])
  {
    var init, last := schema[..|schema| - 1], schema[|schema| - 1];
    var entity := rest[last.name := v];
    NamesSnoc(schema);
    forall i | 0 <= i < |schema|
      ensures schema[i].name in entity && ReadField(schema[i], data, fmt) == Ok(entity[schema[i].name])
    {
      if i < |init| {
        assert init[i] == schema[i] && init[i].name in Names(init);
      }
    }
  }

  lemma {:induction false} OkReads(schema: Schema, data: map<string, string>, fmt: Formats)
    requires Distinct(schema) && FromHash(schema, data, fmt).Ok?
    ensures ReadsAs(schema, data, fmt, FromHash(schema, data, fmt).value)
    decreases |schema|
  {
    if schema == [] {
      assert Names(schema) == {};
    } else {
      var init, last := schema[..|schema| - 1], schema[|schema| - 1];
      NamesSnoc(schema);
      OkReads(init, data, fmt);
      ReadsSnoc(schema, data, fmt, FromHash(init, data, fmt).value, ReadField(last, data, fmt).value);
    }
  }

  lemma {:induction false} ReadsOk(schema: Schema, data: map<string, string>, fmt: Formats, entity: Entity)
    requires Distinct(schema) && ReadsAs(schema, data, fmt, entity)
    ensures FromHash(schema, data, fmt) == Ok(entity)
    decreases |schema|
  {
    if schema == [] {
      assert Names(schema) == {};
    } else {
      var init, last := schema[..|schema| - 1], schema[|schema| - 1];
      var rest := entity - {last.name};
      NamesSnoc(schema);
      assert last.name in Names(schema);
      assert entity == rest[last.name := entity[last.name]];
      ReadsInit(schema, data, fmt, rest, entity[last.name]);
      ReadsOk(init, data, fmt, rest);
    }
  }

  /** What reading a whole hash means, field by field. */
  lemma FromHashFields(schema: Schema, data: map<string, string>, fmt: Formats, entity: Entity)
    requires Distinct(schema)
    ensures FromHash(schema, data, fmt) == Ok(entity) <==> ReadsAs(schema, data, fmt, entity)
  {
    if FromHash(schema, data, fmt).Ok? {
      OkReads(schema, data, fmt);
    }
    if ReadsAs(schema, data, fmt, entity) {
      ReadsOk(schema, data, fmt, entity);
    }
  }

  /** A hash that lacks a declared field reads with its default, or not at all: the first such field
      without one is reported. */
  lemma LacksField(schema: Schema, data: map<string, string>, fmt: Formats, i: nat)
    requires Distinct(schema) && i < |schema| && schema[i].name !in data
    ensures var r, name := FromHash(schema, data, fmt), schema[i].name;
      && (r.Ok? ==> schema[i].default.Some? && name in r.value && r.value[name] == schema[i].default.value)
      && (schema[i].default.None? && FromHash(schema[..i], data, fmt).Ok? ==> r == Err(MissingField(name)))
  {
    if FromHash(schema, data, fmt).Ok? {
      OkReads(schema, data, fmt);
      assert ReadField(schema[i], data, fmt).Ok?;
    }
    if schema[i].default.None? && FromHash(schema[..i], data, fmt).Ok? {
      FirstError(schema, data, fmt, i);
    }
  }

  /** A text that cannot be parsed by its field's type is reported, if every field before it can be read. */
  lemma Unparsable(schema: Schema, data: map<string, string>, fmt: Formats, i: nat)
    requires i < |schema| && FromHash(schema[..i], data, fmt).Ok?
    requires schema[i].name in data && data[schema[i].name] != Sentinel
    requires var raw := data[schema[i].name];
      match schema[i].ftype
      case TInt => Decimal.Parse(raw).None?
      case TFloat => fmt.parseFloat(raw).None?
      case TDate => fmt.parseIso(raw).None?
      case _ => false
    ensures FromHash(schema, data, fmt) == Err(BadValue(schema[i].name))
  {
    FirstError(schema, data, fmt, i);
  }

  /** Only the declared fields matter. */
  lemma {:induction false} SameReads(schema: Schema, a: map<string, string>, b: map<string, string>, fmt: Formats)
    requires forall i :: 0 <= i < |schema| ==> ReadField(schema[i], a, fmt) == ReadField(schema[i], b, fmt)
    ensures FromHash(schema, a, fmt) == FromHash(schema, b, fmt)
    decreases |schema|
  {
    if schema != [] {
      assert forall i :: 0 <= i < |schema| - 1 ==> schema[..|schema| - 1][i] == schema[i];
      SameReads(schema[..|schema| - 1], a, b, fmt);
    }
  }

  predicate Matches(v: Value, f: Field) {
    match f.ftype
    case TStr => v.Str?
    case TInt => v.Int?
    case TFloat => v.Float?
    case TBool => v.Bool?
    case TDate => v.Date?
  }

  /** The entity has exactly the declared fields, each with a value of its type, or None where optional. */
  predicate Typed(schema: Schema, entity: Entity) {
    && entity.Keys == Names(schema)
    && forall i :: 0 <= i < |schema| ==>
         schema[i].name in entity &&
         (Matches(entity[schema[i].name], schema[i]) || (schema[i].optional && entity[schema[i].name] == Nothing))
  }

  predicate NoSentinelText(entity: Entity) {
    forall name :: name in entity ==> entity[name] != Str(Sentinel)
  }

  lemma ReadPrinted(v: Value, f: Field, fmt: Formats)
    requires Inverse(fmt) && (Matches(v, f) || v == Nothing)
    ensures ReadValue(f, PrintValue(v, fmt), fmt) == Ok(v) <==> v != Str(Sentinel)
  {
    if v.Int? {
      Decimal.ParsePrint(v.n);
    }
  }

  /** The stored forms: None as the sentinel, truth values as 1 and 0, strings as they are; and whatever is
      not 1 reads as false. */
  lemma StoredForms(name: string, fmt: Formats, text: string, b: bool)
    ensures PrintValue(Nothing, fmt) == Sentinel == "\0__NONE__\0" && PrintValue(Str(text), fmt) == text
    ensures PrintValue(Bool(b), fmt) == if b then "1" else "0"
    ensures text != Sentinel ==>
      && ReadValue(Field(name, TBool, false, None), text, fmt) == Ok(Bool(text == "1"))
      && ReadValue(Field(name, TStr, false, None), text, fmt) == Ok(Str(text))
  {
  }

  /** Round trip: a typed entity comes back from its hash exactly unless one of its strings is the sentinel. */
  lemma RoundTrip(schema: Schema, entity: Entity, fmt: Formats)
    requires Distinct(schema) && Typed(schema, entity) && Inverse(fmt)
    ensures FromHash(schema, ToHash(entity, fmt), fmt) == Ok(entity) <==> NoSentinelText(entity)
  {
    var data := ToHash(entity, fmt);
    FromHashFields(schema, data, fmt, entity);
    forall i | 0 <= i < |schema|
      ensures ReadField(schema[i], data, fmt) == Ok(entity[schema[i].name]) <==> entity[schema[i].name] != Str(Sentinel)
    {
      ReadPrinted(entity[schema[i].name], schema[i], fmt);
    }
    assert forall name :: name in entity ==> exists i :: 0 <= i < |schema| && schema[i].name == name;
  }

  /** One string equal to the sentinel: the entity comes back with None in its place. */
  lemma SentinelIsLost()
    ensures var schema, entity := [Field("name", TStr, false, None)], map["name" := Str(Sentinel)];
      && Distinct(schema) && Typed(schema, entity) && Inverse(Plain)
      && FromHash(schema, ToHash(entity, Plain), Plain) == Ok(map["name" := Nothing])
  {
    var schema, entity := [Field("name", TStr, false, None)], map["name" := Str(Sentinel)];
    var lost: Entity := map["name" := Nothing];
    PlainIsInverse();
    assert schema[0].name == "name" && Names(schema) == {"name"};
    assert ToHash(entity, Plain)["name"] == Sentinel;
    assert ReadsAs(schema, ToHash(entity, Plain), Plain, lost);
    FromHashFields(schema, ToHash(entity, Plain), Plain, lost);
  }
}
