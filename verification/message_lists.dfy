/** `createMessageList` and `createInboxMessageList`: a `{data: [...]}` envelope
    decoded into a list of messages, one per element of `data`, in order. The two
    differ only in the metadata their list type reads from the envelope. */
module MessageLists {
  import opened Results
  import opened JsonTree
  import opened Collaborators
  import opened Entities
  import opened ElementDecoding
  import opened MessageDecoding

  /** `l` is what a list builder returns for `json`: `data` is an array, every
      element of it decodes as a message, `l` holds those messages in order, and
      `meta` read the envelope successfully. */
  ghost predicate EnvelopeDecodes<M>(p: Parsers, json: JsonObject, meta: JsonObject -> Result<M>,
                                     l: ResponseList<Message, M>) {
    && "data" in json
    && json["data"].JArray?
    && meta(json) == Ok(l.meta)
    && |l.items| == |json["data"].items|
    && forall i :: 0 <= i < |l.items| ==>
         json["data"].items[i].JObject? && DecodeMessage(p, json["data"].items[i].fields) == Ok(l.items[i])
  }

  /** The body both list builders share: `getJSONArray("data")`, then the list's
      metadata, then one `new MessageJSONImpl(list.getJSONObject(i))` per element. */
  function DecodeMessageEnvelope<M>(p: Parsers, json: JsonObject, meta: JsonObject -> Result<M>)
    : (r: Result<ResponseList<Message, M>>)
    ensures r.Ok? ==> EnvelopeDecodes(p, json, meta, r.value)
    ensures "data" !in json ==> r == Err(Wrapped(KeyNotFound("data")))
    ensures "data" in json && !json["data"].JArray? ==> r == Err(Wrapped(NotAJSONArray("data")))
    ensures "data" in json && json["data"].JArray? && meta(json).Err? ==> r == Err(meta(json).error)
  {
    var list :- GetJSONArray(json, "data");
    var m :- meta(json);
    var messages :- DecodeEach(list, MessageDecoder(p));
    Ok(ResponseList(messages, m))
  }

  /** Whenever `l` is what a list builder returns, decoding yields exactly `l`. */
  lemma DecodeMessageEnvelopeComplete<M>(p: Parsers, json: JsonObject, meta: JsonObject -> Result<M>,
                                         l: ResponseList<Message, M>)
    requires EnvelopeDecodes(p, json, meta, l)
    ensures DecodeMessageEnvelope(p, json, meta) == Ok(l)
  {
    var items := json["data"].items;
    forall i | 0 <= i < |items|
      ensures items[i].JObject? && MessageDecoder(p)(items[i].fields) == Ok(l.items[i])
    {
    }
    DecodeEachComplete(items, MessageDecoder(p), l.items);
  }

  /** `createMessageList(res, conf)` applied to the parsed body of `res`. */
  function CreateMessageList(p: Parsers, json: JsonObject): (r: Result<ResponseList<Message, ResponseMeta>>)
    ensures r.Ok? ==> EnvelopeDecodes(p, json, p.responseMeta, r.value)
    ensures !("data" in json && json["data"].JArray?) ==> r.Err?
  {
    DecodeMessageEnvelope(p, json, p.responseMeta)
  }

  /** `createInboxMessageList(res, conf)` applied to the parsed body of `res`. */
  function CreateInboxMessageList(p: Parsers, json: JsonObject): (r: Result<ResponseList<Message, InboxMeta>>)
    ensures r.Ok? ==> EnvelopeDecodes(p, json, p.inboxMeta, r.value)
    ensures !("data" in json && json["data"].JArray?) ==> r.Err?
  {
    DecodeMessageEnvelope(p, json, p.inboxMeta)
  }

  /** All or nothing at list level: one element of `data` that is not an object,
      or does not decode as a message, makes the whole list fail. */
  lemma OneBadMessageFailsTheList(p: Parsers, json: JsonObject, i: nat)
    requires "data" in json && json["data"].JArray? && i < |json["data"].items|
    requires !json["data"].items[i].JObject? || DecodeMessage(p, json["data"].items[i].fields).Err?
    ensures CreateMessageList(p, json).Err?
    ensures CreateInboxMessageList(p, json).Err?
  {
  }

  // ---------------------------------------------------------------------------
  // A worked example: `{"data": [{"id": "1", "message": "hi", "from": {"id": "10", "name": "A"}}]}`

  const ExampleSender: JsonObject := map["id" := JString("10"), "name" := JString("A")]

  const ExampleMessage: JsonObject :=
    map["id" := JString("1"), "message" := JString("hi"), "from" := JObject(ExampleSender)]

  const ExampleEnvelope: JsonObject := map["data" := JArray([JObject(ExampleMessage)])]

  /** The example decodes to one message with id `1`, text `hi` and sender `{10, A}`,
      no recipients, empty comments and attachments without paging, and null
      timestamps and counts, given collaborators that read the members as written. */
  lemma ExampleEnvelopeDecodes(p: Parsers, meta: ResponseMeta)
    requires p.rawString("id", ExampleMessage) == Some("1")
    requires p.rawString("message", ExampleMessage) == Some("hi")
    requires p.idNameEntity(ExampleSender) == Ok(IdNameEntity(Some("10"), Some("A")))
    requires p.iso8601Datetime("created_time", ExampleMessage) == Ok(None)
    requires p.iso8601Datetime("updated_time", ExampleMessage) == Ok(None)
    requires p.responseMeta(ExampleEnvelope) == Ok(meta)
    ensures CreateMessageList(p, ExampleEnvelope) == Ok(ResponseList([
              Message(Some("1"), Some(IdNameEntity(Some("10"), Some("A"))), [], PagedList([], None),
                      Some("hi"), None, None, PagedList([], None), None, None)], meta))
  {
    var m := Message(Some("1"), Some(IdNameEntity(Some("10"), Some("A"))), [], PagedList([], None),
                     Some("hi"), None, None, PagedList([], None), None, None);
    assert MessageDecodes(p, ExampleMessage, m);
    DecodeMessageComplete(p, ExampleMessage, m);
    DecodeMessageEnvelopeComplete(p, ExampleEnvelope, p.responseMeta, ResponseList([m], meta));
  }
}
