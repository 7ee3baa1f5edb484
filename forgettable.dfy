/** `Forgettable<T>`: a field value that can be permanently erased, its JSON
    encoding, and the extraction/injection of erasable fields in an event's
    JSON object. */
module Forgetting {
  import opened Wrappers

  /** The part of `serde_json::Value` the code inspects. */
  datatype Json =
    | JNull
    | JBool(b: bool)
    | JNum(n: int)
    | JStr(s: string)
    | JArray(items: seq<Json>)
    | JObject(fields: map<string, Json>)

  datatype Forgettable<T> = Set(v: T) | Forgotten

  /** `value` / `into_value`: the value unless forgotten. */
  function Value<T>(f: Forgettable<T>): (r: Option<T>)
    ensures r.Some? <==> IsSet(f)
    ensures r.Some? ==> f == Set(r.value)
  {
    match f
    case Set(v) => Some(v)
    case Forgotten => None
  }

  /** `is_set` */
  predicate IsSet<T>(f: Forgettable<T>) { f.Set? }

  /** `is_forgotten` */
  predicate IsForgotten<T>(f: Forgettable<T>) { f.Forgotten? }

  /** `is_set` and `is_forgotten` are each other's negation. */
  lemma SetXorForgotten<T>(f: Forgettable<T>)
    ensures IsSet(f) != IsForgotten(f)
    ensures IsForgotten(f) <==> Value(f) == None
  {
  }

  /** `Serialize`: a set value as itself, a forgotten one as `null`. */
  function Serialize(f: Forgettable<Json>): (j: Json)
    ensures f.Forgotten? ==> j == JNull
    ensures f.Set? ==> j == f.v
  {
    match f
    case Set(v) => v
    case Forgotten => JNull
  }

  /** `Deserialize`, through `Option<T>`: `null` is forgotten, anything else is set. */
  function Deserialize(j: Json): (f: Forgettable<Json>)
    ensures f.Forgotten? <==> j == JNull
    ensures f.Set? ==> f.v == j
  {
    if j == JNull then Forgotten else Set(j)
  }

  /** Encoding then decoding gives the value back, except for a set value that
      is itself `null`, which comes back as forgotten. */
  lemma SerdeRoundTrip(f: Forgettable<Json>, j: Json)
    ensures Deserialize(Serialize(f)) == f <==> f != Set(JNull)
    ensures Serialize(Deserialize(j)) == j
  {
  }

  /** The listed fields that are present and not `null`: the ones extraction erases. */
  function Erasable(obj: map<string, Json>, names: seq<string>): set<string>
  {
    set k | k in names && k in obj && obj[k] != JNull
  }

  /** The event object after extraction: erasable fields become `null`. */
  function Erased(obj: map<string, Json>, names: seq<string>): (r: map<string, Json>)
    ensures r.Keys == obj.Keys
    ensures forall k :: k in obj && k !in names ==> r[k] == obj[k]
  {
    map k | k in obj :: if k in Erasable(obj, names) then JNull else obj[k]
  }

  /** The payload extraction returns: the erased fields with their old values. */
  function Payload(obj: map<string, Json>, names: seq<string>): (r: map<string, Json>)
    ensures r.Keys == Erasable(obj, names)
  {
    map k | k in Erasable(obj, names) :: obj[k]
  }

  /** Reference result of `extract_forgettable_payload`: the new event and the payload. */
  function ExtractSpec(event: Json, names: seq<string>): (Json, Option<Json>)
  {
    if |names| == 0 || !event.JObject? then (event, None)
    else
      var obj := event.fields;
      (JObject(Erased(obj, names)),
       if Erasable(obj, names) == {} then None else Some(JObject(Payload(obj, names))))
  }

  /** Reference result of `inject_forgettable_payload`: payload keys overwrite
      the event's when both are objects. */
  function InjectSpec(event: Json, payload: Json): Json
  {
    if event.JObject? && payload.JObject? then JObject(event.fields + payload.fields) else event
  }

  /** `extract_forgettable_payload`: copies every listed non-null field to the
      payload and nulls it in the event. */
  method ExtractForgettablePayload(event: Json, names: seq<string>) returns (out: Json, payload: Option<Json>)
    ensures (out, payload) == ExtractSpec(event, names)
  {
    if |names| == 0 {
      return event, None;
    }
    if !event.JObject? {
      return event, None;
    }
    var obj := event.fields;
    var taken: map<string, Json> := map[];
    var anyExtracted := false;
    var i := 0;
    while i < |names|
      invariant 0 <= i <= |names|
      invariant obj == Erased(event.fields, names[..i])
      invariant taken == Payload(event.fields, names[..i])
      invariant anyExtracted <==> Erasable(event.fields, names[..i]) != {}
    {
      var name := names[i];
      assert names[..i + 1] == names[..i] + [name];
      if name in obj && obj[name] != JNull {
        ErasesNext(event.fields, names[..i], name);
        taken := taken[name := obj[name]];
        obj := obj[name := JNull];
        anyExtracted := true;
      } else {
        KeepsNext(event.fields, names[..i], name);
      }
      i := i + 1;
    }
    assert names[..|names|] == names;
    out := JObject(obj);
    payload := if anyExtracted then Some(JObject(taken)) else None;
  }

  /** One more listed name whose field is still present and not `null`: it is
      erased and goes to the payload. */
  lemma ErasesNext(fields: map<string, Json>, pre: seq<string>, name: string)
    requires var o := Erased(fields, pre); name in o && o[name] != JNull
    ensures Erasable(fields, pre + [name]) == Erasable(fields, pre) + {name}
    ensures Erased(fields, pre + [name]) == Erased(fields, pre)[name := JNull]
    ensures Payload(fields, pre + [name]) == Payload(fields, pre)[name := fields[name]]
    ensures Erased(fields, pre)[name] == fields[name]
  {
    assert name !in Erasable(fields, pre);
    assert Erasable(fields, pre + [name]) == Erasable(fields, pre) + {name};
  }

  /** One more listed name whose field is absent or already `null`: nothing changes. */
  lemma KeepsNext(fields: map<string, Json>, pre: seq<string>, name: string)
    requires var o := Erased(fields, pre); !(name in o && o[name] != JNull)
    ensures Erasable(fields, pre + [name]) == Erasable(fields, pre)
    ensures Erased(fields, pre + [name]) == Erased(fields, pre)
    ensures Payload(fields, pre + [name]) == Payload(fields, pre)
  {
    assert Erasable(fields, pre + [name]) == Erasable(fields, pre);
  }

  /** `inject_forgettable_payload`: inserts every payload key into the event. */
  method InjectForgettablePayload(event: Json, payload: Json) returns (out: Json)
    ensures out == InjectSpec(event, payload)
  {
    if !(event.JObject? && payload.JObject?) {
      return event;
    }
    var obj := event.fields;
    var todo := payload.fields.Keys;
    while todo != {}
      invariant todo <= payload.fields.Keys
      invariant obj == event.fields + map k | k in payload.fields.Keys - todo :: payload.fields[k]
      decreases todo
    {
      var key :| key in todo;
      obj := obj[key := payload.fields[key]];
      todo := todo - {key};
    }
    assert payload.fields.Keys - {} == payload.fields.Keys;
    assert (map k | k in payload.fields.Keys :: payload.fields[k]) == payload.fields;
    return JObject(obj);
  }

  /** Extraction is undone by injecting its payload; when there is no payload
      the event was not changed at all. */
  lemma InjectAfterExtract(event: Json, names: seq<string>)
    ensures var (out, payload) := ExtractSpec(event, names);
      (payload.None? ==> out == event) &&
      (payload.Some? ==> InjectSpec(out, payload.value) == event)
  {
    if |names| > 0 && event.JObject? {
      var obj := event.fields;
      if Erasable(obj, names) == {} {
        assert Erased(obj, names) == obj;
      } else {
        assert Erased(obj, names) + Payload(obj, names) == obj;
      }
    }
  }

  /** Extraction erases exactly the listed non-null fields: each is `null`
      afterwards and present in the payload with its old value. */
  lemma ExtractErasesListed(obj: map<string, Json>, names: seq<string>, k: string)
    requires |names| > 0 && k in names && k in obj && obj[k] != JNull
    ensures var (out, payload) := ExtractSpec(JObject(obj), names);
      out.fields[k] == JNull && payload.Some? && payload.value.fields[k] == obj[k]
  {
    assert k in Erasable(obj, names);
  }

  /** When every listed field is absent or already `null`, extraction returns
      no payload. */
  lemma ExtractNothingToErase(obj: map<string, Json>, names: seq<string>)
    requires forall k :: k in names && k in obj ==> obj[k] == JNull
    ensures ExtractSpec(JObject(obj), names).1 == None
  {
    assert Erasable(obj, names) == {};
  }

}
