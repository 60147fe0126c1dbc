/** `MessageJSONImpl.init` and the constructors of the nested attachment,
    attachment media and attachment target values. Each decoder is given a
    relational specification (`...Decodes`) written field by field, and is proved
    to agree with it in both directions; each is also shown to fail exactly when
    one of its steps fails, with the error of the first failing step. */
module MessageDecoding {
  import opened Results
  import opened JsonTree
  import opened Collaborators
  import opened Entities
  import opened ElementDecoding

  // ---------------------------------------------------------------------------
  // Attachment target and media

  /** `t` is what `new AttachmentTargetJSONImpl(o)` builds: `id` and `url` as the
      string reader gives them. */
  ghost predicate TargetDecodes(p: Parsers, o: JsonObject, t: AttachmentTarget) {
    t.id == p.rawString("id", o) && t.url == p.rawString("url", o)
  }

  /** `new AttachmentTargetJSONImpl(json)`: reads `id` and `url`; it cannot fail. */
  function DecodeTarget(p: Parsers, o: JsonObject): (r: AttachmentTarget)
    ensures TargetDecodes(p, o, r)
  {
    AttachmentTarget(p.rawString("id", o), p.rawString("url", o))
  }

  /** The target that the specification describes is the only one the constructor builds. */
  lemma DecodeTargetComplete(p: Parsers, o: JsonObject, t: AttachmentTarget)
    requires TargetDecodes(p, o, t)
    ensures DecodeTarget(p, o) == t
  {
  }

  /** `m` is what `new AttachmentMediaJSONImpl(o)` builds: `image` is present, is an
      object, and the image decoder turns it into `m.image`. */
  ghost predicate MediaDecodes(p: Parsers, o: JsonObject, m: AttachmentMedia) {
    "image" in o && o["image"].JObject? && p.image(o["image"].fields) == Ok(m.image)
  }

  /** `new AttachmentMediaJSONImpl(json)`: the member `image` is required and must
      be an object; a null or missing image is an error, not a null field. */
  function DecodeMedia(p: Parsers, o: JsonObject): (r: Result<AttachmentMedia>)
    ensures r.Ok? <==> "image" in o && o["image"].JObject? && p.image(o["image"].fields).Ok?
    ensures r.Ok? ==> MediaDecodes(p, o, r.value)
    ensures "image" !in o ==> r == Err(Wrapped(KeyNotFound("image")))
    ensures "image" in o && !o["image"].JObject? ==> r == Err(Wrapped(NotAJSONObject("image")))
  {
    var image :- GetJSONObject(o, "image");
    var decoded :- p.image(image);
    Ok(AttachmentMedia(decoded))
  }

  /** Whatever the media specification describes is exactly what the constructor builds. */
  lemma DecodeMediaComplete(p: Parsers, o: JsonObject, m: AttachmentMedia)
    requires MediaDecodes(p, o, m)
    ensures DecodeMedia(p, o) == Ok(m)
  {
  }

  function MediaDecoder(p: Parsers): JsonObject -> Result<AttachmentMedia> {
    o => DecodeMedia(p, o)
  }

  function TargetDecoder(p: Parsers): JsonObject -> Result<AttachmentTarget> {
    o => Ok(DecodeTarget(p, o))
  }

  // ---------------------------------------------------------------------------
  // Attachment

  /** `a` is what `new AttachmentJSONImpl(o)` builds: the four strings as the
      string reader gives them; `media` and `target` null when absent or null,
      and otherwise decoded from an object. */
  ghost predicate AttachmentDecodes(p: Parsers, o: JsonObject, a: Attachment) {
    && a.description == p.rawString("description", o)
    && (if IsNull(o, "media") then a.media.None?
        else && o["media"].JObject?
             && a.media.Some? && MediaDecodes(p, o["media"].fields, a.media.value))
    && (if IsNull(o, "target") then a.target.None?
        else && o["target"].JObject?
             && var t := o["target"].fields;
             && a.target.Some? && TargetDecodes(p, t, a.target.value))
    && a.title == p.rawString("title", o)
    && a.kind == p.rawString("type", o)
    && a.url == p.rawString("url", o)
  }

  /** The steps of the attachment constructor that can fail, in source order. */
  function AttachmentSteps(p: Parsers, o: JsonObject): seq<Option<FacebookException>> {
    [ ErrorOf(DecodeOptional(o, "media", MediaDecoder(p))),
      ErrorOf(DecodeOptional(o, "target", TargetDecoder(p))) ]
  }

  /** `new AttachmentJSONImpl(json)`. */
  function DecodeAttachment(p: Parsers, o: JsonObject): (r: Result<Attachment>)
    ensures r.Ok? ==> AttachmentDecodes(p, o, r.value)
  {
    var description := p.rawString("description", o);
    var media :- DecodeOptional(o, "media", MediaDecoder(p));
    var target :- DecodeOptional(o, "target", TargetDecoder(p));
    var title := p.rawString("title", o);
    var kind := p.rawString("type", o);
    var url := p.rawString("url", o);
    Ok(Attachment(description, media, target, title, kind, url))
  }

  function AttachmentDecoder(p: Parsers): JsonObject -> Result<Attachment> {
    o => DecodeAttachment(p, o)
  }

  /** Whenever `a` is what the attachment constructor builds, decoding yields exactly `a`. */
  lemma DecodeAttachmentComplete(p: Parsers, o: JsonObject, a: Attachment)
    requires AttachmentDecodes(p, o, a)
    ensures DecodeAttachment(p, o) == Ok(a)
  {
    if !IsNull(o, "media") {
      DecodeOptionalComplete(o, "media", MediaDecoder(p), a.media);
    }
    if !IsNull(o, "target") {
      DecodeOptionalComplete(o, "target", TargetDecoder(p), a.target);
    }
  }

  /** All or nothing: an attachment decodes exactly when every step succeeds, and
      a failed one fails with the error of its first failing step. */
  lemma {:induction false} DecodeAttachmentAllOrNothing(p: Parsers, o: JsonObject)
    ensures DecodeAttachment(p, o).Ok? <==> AllSucceed(AttachmentSteps(p, o))
    ensures DecodeAttachment(p, o).Err? ==>
              exists k :: FailsFirstAt(AttachmentSteps(p, o), k)
                          && AttachmentSteps(p, o)[k] == Some(DecodeAttachment(p, o).error)
  {
    var steps := AttachmentSteps(p, o);
    if DecodeAttachment(p, o).Ok? {
      assert steps[0].None? && steps[1].None?;
    } else if steps[0].Some? {
      assert FailsFirstAt(steps, 0);
    } else {
      assert FailsFirstAt(steps, 1);
    }
  }

  // ---------------------------------------------------------------------------
  // Message fields

  /** `to` as the source builds it: empty when absent or null; otherwise an object
      whose `data` must be an array, decoded element by element in order. */
  ghost predicate RecipientsDecode(p: Parsers, o: JsonObject, to: seq<IdNameEntity>) {
    if IsNull(o, "to") then to == []
    else
      && o["to"].JObject?
      && "data" in o["to"].fields
      && o["to"].fields["data"].JArray?
      && ElementsDecode(o["to"].fields["data"].items, p.idNameEntity, to)
  }

  /** The recipient list. Unlike the paged members, a present `to` without `data` is an error. */
  function DecodeRecipients(p: Parsers, o: JsonObject): (r: Result<seq<IdNameEntity>>)
    ensures IsNull(o, "to") ==> r == Ok([])
    ensures r.Ok? ==> RecipientsDecode(p, o, r.value)
    ensures !IsNull(o, "to") && !o["to"].JObject? ==> r == Err(Wrapped(NotAJSONObject("to")))
    ensures !IsNull(o, "to") && o["to"].JObject? && "data" !in o["to"].fields
            ==> r == Err(Wrapped(KeyNotFound("data")))
  {
    if IsNull(o, "to") then Ok([])
    else
      var to :- GetJSONObject(o, "to");
      var list :- GetJSONArray(to, "data");
      DecodeEach(list, p.idNameEntity)
  }

  /** Whenever `to` is what the source builds, decoding yields exactly `to`. */
  lemma DecodeRecipientsComplete(p: Parsers, o: JsonObject, to: seq<IdNameEntity>)
    requires RecipientsDecode(p, o, to)
    ensures DecodeRecipients(p, o) == Ok(to)
  {
    if !IsNull(o, "to") {
      DecodeEachComplete(o["to"].fields["data"].items, p.idNameEntity, to);
    }
  }

  /** `v` is what the source leaves in `unread` or `unseen`: null when the member is
      absent or null, otherwise the integer reader's value. */
  ghost predicate CountDecodes(p: Parsers, o: JsonObject, key: string, v: Option<int>) {
    if IsNull(o, key) then v.None?
    else v.Some? && p.primitiveInt(key, o) == Ok(v.value)
  }

  /** `if (!json.isNull(key)) field = getPrimitiveInt(key, json)`. */
  function DecodeCount(p: Parsers, o: JsonObject, key: string): (r: Result<Option<int>>)
    ensures IsNull(o, key) ==> r == Ok(None)
    ensures r.Ok? ==> CountDecodes(p, o, key, r.value)
    ensures !IsNull(o, key) && p.primitiveInt(key, o).Ok? ==> r == Ok(Some(p.primitiveInt(key, o).value))
    ensures !IsNull(o, key) && p.primitiveInt(key, o).Err? ==> r == Err(p.primitiveInt(key, o).error)
  {
    if IsNull(o, key) then Ok(None)
    else
      var n :- p.primitiveInt(key, o);
      Ok(Some(n))
  }

  /** Whenever `v` is what the source leaves in the count, decoding yields exactly `v`. */
  lemma DecodeCountComplete(p: Parsers, o: JsonObject, key: string, v: Option<int>)
    requires CountDecodes(p, o, key, v)
    ensures DecodeCount(p, o, key) == Ok(v)
  {
  }

  // ---------------------------------------------------------------------------
  // Message

  /** `m` is what `init(o)` leaves in a `MessageJSONImpl`, field by field. */
  ghost predicate MessageDecodes(p: Parsers, o: JsonObject, m: Message) {
    && m.id == p.rawString("id", o)
    && OptionalDecodes(o, "from", p.idNameEntity, m.from)
    && RecipientsDecode(p, o, m.to)
    && m.message == p.rawString("message", o)
    && p.iso8601Datetime("created_time", o) == Ok(m.createdTime)
    && p.iso8601Datetime("updated_time", o) == Ok(m.updatedTime)
    && PagedDecodes(p, o, "comments", p.comment, m.comments)
    && PagedDecodes(p, o, "attachments", AttachmentDecoder(p), m.attachments)
    && CountDecodes(p, o, "unread", m.unread)
    && CountDecodes(p, o, "unseen", m.unseen)
  }

  /** The steps of `init` that can fail, in the order `init` takes them. */
  function MessageSteps(p: Parsers, o: JsonObject): seq<Option<FacebookException>> {
    [ ErrorOf(DecodeOptional(o, "from", p.idNameEntity)),
      ErrorOf(DecodeRecipients(p, o)),
      ErrorOf(p.iso8601Datetime("created_time", o)),
      ErrorOf(p.iso8601Datetime("updated_time", o)),
      ErrorOf(DecodePaged(p, o, "comments", p.comment)),
      ErrorOf(DecodePaged(p, o, "attachments", AttachmentDecoder(p))),
      ErrorOf(DecodeCount(p, o, "unread")),
      ErrorOf(DecodeCount(p, o, "unseen")) ]
  }

  /** `MessageJSONImpl.init(json)`. */
  function DecodeMessage(p: Parsers, o: JsonObject): (r: Result<Message>)
    ensures r.Ok? ==> MessageDecodes(p, o, r.value)
  {
    var id := p.rawString("id", o);
    var from :- DecodeOptional(o, "from", p.idNameEntity);
    var to :- DecodeRecipients(p, o);
    var message := p.rawString("message", o);
    var createdTime :- p.iso8601Datetime("created_time", o);
    var updatedTime :- p.iso8601Datetime("updated_time", o);
    var comments :- DecodePaged(p, o, "comments", p.comment);
    var attachments :- DecodePaged(p, o, "attachments", AttachmentDecoder(p));
    var unread :- DecodeCount(p, o, "unread");
    var unseen :- DecodeCount(p, o, "unseen");
    Ok(Message(id, from, to, attachments, message, createdTime, updatedTime, comments, unread, unseen))
  }

  function MessageDecoder(p: Parsers): JsonObject -> Result<Message> {
    o => DecodeMessage(p, o)
  }

  /** Whenever `m` is what `init` leaves in the object, decoding yields exactly `m`. */
  lemma DecodeMessageComplete(p: Parsers, o: JsonObject, m: Message)
    requires MessageDecodes(p, o, m)
    ensures DecodeMessage(p, o) == Ok(m)
  {
    DecodeOptionalComplete(o, "from", p.idNameEntity, m.from);
    DecodeRecipientsComplete(p, o, m.to);
    DecodeCountComplete(p, o, "unread", m.unread);
    DecodeCountComplete(p, o, "unseen", m.unseen);
    DecodePagedComplete(p, o, "comments", p.comment, m.comments);
    DecodePagedComplete(p, o, "attachments", AttachmentDecoder(p), m.attachments);
  }

  /** All or nothing: `init` produces a message exactly when every step succeeds,
      and a failed decode fails with the error of the first step that failed. */
  lemma {:induction false} DecodeMessageAllOrNothing(p: Parsers, o: JsonObject)
    ensures DecodeMessage(p, o).Ok? <==> AllSucceed(MessageSteps(p, o))
    ensures DecodeMessage(p, o).Err? ==>
              exists k :: FailsFirstAt(MessageSteps(p, o), k)
                          && MessageSteps(p, o)[k] == Some(DecodeMessage(p, o).error)
  {
    var steps := MessageSteps(p, o);
    if DecodeMessage(p, o).Ok? {
      assert forall j :: 0 <= j < |steps| ==> steps[j].None?;
    } else if steps[0].Some? {
      assert FailsFirstAt(steps, 0);
    } else if steps[1].Some? {
      assert FailsFirstAt(steps, 1);
    } else if steps[2].Some? {
      assert FailsFirstAt(steps, 2);
    } else if steps[3].Some? {
      assert FailsFirstAt(steps, 3);
    } else if steps[4].Some? {
      assert FailsFirstAt(steps, 4);
    } else if steps[5].Some? {
      assert FailsFirstAt(steps, 5);
    } else if steps[6].Some? {
      assert FailsFirstAt(steps, 6);
    } else {
      assert FailsFirstAt(steps, 7);
    }
  }

  /** The string, date and integer readers give the same answers on `o1` and `o2`. */
  ghost predicate SameReadings(p: Parsers, o1: JsonObject, o2: JsonObject) {
    forall name :: && p.rawString(name, o1) == p.rawString(name, o2)
                   && p.iso8601Datetime(name, o1) == p.iso8601Datetime(name, o2)
                   && p.primitiveInt(name, o1) == p.primitiveInt(name, o2)
  }

  /** Member `k` reads the same through `isNull` and the typed accessors in both objects. */
  ghost predicate SameMember(o1: JsonObject, o2: JsonObject, k: string) {
    || (IsNull(o1, k) && IsNull(o2, k))
    || (k in o1 && k in o2 && o1[k] == o2[k])
  }

  /** Each field decoder of `init` looks at its own member only. */
  lemma FieldDecodersReadOwnMember(p: Parsers, o1: JsonObject, o2: JsonObject)
    requires SameReadings(p, o1, o2)
    requires SameMember(o1, o2, "from") && SameMember(o1, o2, "to")
    requires SameMember(o1, o2, "comments") && SameMember(o1, o2, "attachments")
    requires SameMember(o1, o2, "unread") && SameMember(o1, o2, "unseen")
    ensures MessageSteps(p, o1) == MessageSteps(p, o2)
    ensures DecodeOptional(o1, "from", p.idNameEntity) == DecodeOptional(o2, "from", p.idNameEntity)
    ensures DecodeRecipients(p, o1) == DecodeRecipients(p, o2)
    ensures DecodePaged(p, o1, "comments", p.comment) == DecodePaged(p, o2, "comments", p.comment)
    ensures DecodePaged(p, o1, "attachments", AttachmentDecoder(p))
            == DecodePaged(p, o2, "attachments", AttachmentDecoder(p))
    ensures DecodeCount(p, o1, "unread") == DecodeCount(p, o2, "unread")
    ensures DecodeCount(p, o1, "unseen") == DecodeCount(p, o2, "unseen")
  {
    assert p.primitiveInt("unread", o1) == p.primitiveInt("unread", o2);
    assert p.primitiveInt("unseen", o1) == p.primitiveInt("unseen", o2);
    assert p.iso8601Datetime("created_time", o1) == p.iso8601Datetime("created_time", o2);
    assert p.iso8601Datetime("updated_time", o1) == p.iso8601Datetime("updated_time", o2);
  }

  /** For the members `init` reads through `isNull`, a member written as `null`
      and a missing member cannot be told apart: the decode is the same, provided
      the field readers, whose code is not part of this model, read both alike. */
  lemma NullAndAbsentAlike(p: Parsers, o: JsonObject, key: string)
    requires key in {"from", "to", "comments", "attachments", "unread", "unseen"}
    requires SameReadings(p, o[key := JNull], o - {key})
    ensures DecodeMessage(p, o[key := JNull]) == DecodeMessage(p, o - {key})
  {
    var o1, o2 := o[key := JNull], o - {key};
    assert forall k :: k != key ==> SameMember(o1, o2, k);
    assert SameMember(o1, o2, key);
    FieldDecodersReadOwnMember(p, o1, o2);
    assert p.rawString("id", o1) == p.rawString("id", o2);
    assert p.rawString("message", o1) == p.rawString("message", o2);
  }
}
