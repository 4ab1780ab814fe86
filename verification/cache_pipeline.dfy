/** How the Redis cache turns a value into stored text and back. */
module CachePipeline {
  import opened Wrappers
  import opened Tiered

  const Marker: string := "\0__REDIS_KIT_NONE__\0"

  datatype Compressor = Compressor(compress: string -> string, decompress: string -> string)

  datatype Pipeline = Pipeline(dumps: string -> string, loads: string -> string, compressor: Option<Compressor>)

  ghost predicate Inverse(p: Pipeline) {
    && (forall x :: p.loads(p.dumps(x)) == x)
    && (p.compressor.Some? ==> forall x :: p.compressor.value.decompress(p.compressor.value.compress(x)) == x)
  }

  function Packed(p: Pipeline, payload: string): string {
    var data := p.dumps(payload);
    if p.compressor.Some? then p.compressor.value.compress(data) else data
  }

  function Encode(p: Pipeline, value: Datum): string {
    match value
    case Null => Marker
    case Just(payload) => Packed(p, payload)
  }

  /** None is a miss, which a cached None is not. */
  function Decode(p: Pipeline, data: Option<string>): Option<Datum> {
    if data.None? then None
    else if data.value == Marker then Some(Null)
    else Some(Just(p.loads(if p.compressor.Some? then p.compressor.value.decompress(data.value) else data.value)))
  }

  /** Every cached None comes back as one, and any other value exactly unless its stored text is the marker. */
  lemma RoundTrip(p: Pipeline, value: Datum)
    requires Inverse(p)
    ensures Decode(p, Some(Encode(p, value))) == Some(value)
       <==> value == Null || Encode(p, value) != Marker
    ensures Decode(p, None) != Decode(p, Some(Encode(p, value)))
  {
  }

  /** A serializer whose text can be the marker, such as one that stores text as it is, loses that value:
      it comes back as a cached None. */
  lemma MarkerIsLost()
    ensures var p := Pipeline(x => x, x => x, None);
      Inverse(p) && Decode(p, Some(Encode(p, Just(Marker)))) == Some(Null)
  {
  }

  /** What is stored: the marker for None, and otherwise the serialized value, compressed last. */
  lemma StoredText(p: Pipeline, payload: string)
    ensures Encode(p, Null) == Marker == "\0__REDIS_KIT_NONE__\0"
    ensures Encode(p, Just(payload)) ==
      match p.compressor case None => p.dumps(payload) case Some(z) => z.compress(p.dumps(payload))
  {
  }
}
