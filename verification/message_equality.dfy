/** `equals` and `hashCode` of the message and of its nested attachment values.
    A message is an entity: equal to another exactly when their ids are equal
    (two null ids included), whatever else they hold. Attachments, their media and
    their targets are values: equal exactly when every field is equal.

    Hashes follow the source's `31 * result + h(field)` combination over unbounded
    integers; the hash of a string and of an image are parameters. */
module MessageEquality {
  import opened Results
  import opened Collaborators
  import opened Entities
  import opened EquivalenceRelations

  /** `a != null ? a.equals(b) : b == null` for fields compared with `eq`. */
  function NullSafeEquals<T>(a: Option<T>, b: Option<T>, eq: (T, T) -> bool): (r: bool)
    requires a.Some? && b.Some? ==> (eq(a.value, b.value) <==> a.value == b.value)
    ensures r <==> a == b
  {
    match a
    case Some(x) => b.Some? && eq(x, b.value)
    case None => b.None?
  }

  function StringEquals(a: string, b: string): bool {
    a == b
  }

  /** `a != null ? h(a) : 0`. */
  function NullableHash<T>(h: T -> int, a: Option<T>): int {
    match a
    case Some(x) => h(x)
    case None => 0
  }

  /** The combination every `hashCode` here uses: starting from `seed`, each field
      hash `h` in declaration order turns the running value `v` into `31 * v + h`. */
  function HashFields(seed: int, hs: seq<int>): int
    decreases |hs|
  {
    if |hs| == 0 then seed else HashFields(31 * seed + hs[0], hs[1..])
  }

  /** Adding one more field multiplies the running hash by 31 and adds the field's hash. */
  lemma {:induction false} HashFieldsSnoc(seed: int, hs: seq<int>, h: int)
    ensures HashFields(seed, hs + [h]) == 31 * HashFields(seed, hs) + h
    decreases |hs|
  {
    if |hs| == 0 {
      assert (hs + [h])[1..] == [];
    } else {
      assert (hs + [h])[1..] == hs[1..] + [h];
      HashFieldsSnoc(31 * seed + hs[0], hs[1..], h);
    }
  }

  /** A six-field hash, field by field. */
  lemma HashFieldsSix(seed: int, hs: seq<int>)
    requires |hs| == 6
    ensures HashFields(seed, hs) ==
            31 * (31 * (31 * (31 * (31 * (31 * seed + hs[0]) + hs[1]) + hs[2]) + hs[3]) + hs[4]) + hs[5]
  {
    HashFieldsSnoc(seed, [], hs[0]);
    HashFieldsSnoc(seed, hs[..1], hs[1]);
    assert hs[..1] + [hs[1]] == hs[..2];
    HashFieldsSnoc(seed, hs[..2], hs[2]);
    assert hs[..2] + [hs[2]] == hs[..3];
    HashFieldsSnoc(seed, hs[..3], hs[3]);
    assert hs[..3] + [hs[3]] == hs[..4];
    HashFieldsSnoc(seed, hs[..4], hs[4]);
    assert hs[..4] + [hs[4]] == hs[..5];
    HashFieldsSnoc(seed, hs[..5], hs[5]);
    assert hs[..5] + [hs[5]] == hs;
  }

  // ---------------------------------------------------------------------------
  // Message

  /** `MessageJSONImpl.equals`: compares the ids only. */
  function MessageEquals(a: Message, b: Message): (r: bool)
    ensures r <==> a.id == b.id
  {
    NullSafeEquals(a.id, b.id, StringEquals)
  }

  /** `MessageJSONImpl.hashCode`. */
  function MessageHash(stringHash: string -> int, m: Message): (r: int)
    ensures r == HashFields(1, [NullableHash(stringHash, m.id)])
  {
    31 * 1 + NullableHash(stringHash, m.id)
  }

  /** Message equality is an equivalence relation. */
  lemma MessageEqualsIsEquivalence()
    ensures Equivalence(MessageEquals)
  {
  }

  /** Equal messages have equal hashes, whatever the string hash. */
  lemma EqualMessagesHashAlike(stringHash: string -> int, a: Message, b: Message)
    requires MessageEquals(a, b)
    ensures MessageHash(stringHash, a) == MessageHash(stringHash, b)
  {
  }

  /** Message equality is not structural: two messages with the same id are equal,
      whatever their sender, recipients, text, timestamps, comments, attachments
      or counts. */
  lemma MessageEqualityIgnoresContent(a: Message, b: Message)
    requires a.id == b.id
    ensures MessageEquals(a, b)
  {
  }

  /** A worked instance of the rule above: two different messages with the same
      id `1` and the texts `hi` and `bye` are equal. */
  lemma SameIdDifferentBodyEqual()
    ensures exists a: Message, b: Message :: a != b && MessageEquals(a, b)
  {
    var a := Message(Some("1"), None, [], PagedList([], None), Some("hi"), None, None, PagedList([], None), None, None);
    var b := a.(message := Some("bye"));
    assert a.message != b.message;
    assert a != b && MessageEquals(a, b);
  }

  // ---------------------------------------------------------------------------
  // Attachment target

  /** `AttachmentTargetJSONImpl.equals`: null-safe on `id` and `url`. */
  function TargetEquals(a: AttachmentTarget, b: AttachmentTarget): (r: bool)
    ensures r <==> a == b
  {
    NullSafeEquals(a.id, b.id, StringEquals) && NullSafeEquals(a.url, b.url, StringEquals)
  }

  /** `AttachmentTargetJSONImpl.hashCode`. */
  function TargetHash(stringHash: string -> int, t: AttachmentTarget): (r: int)
    ensures r == HashFields(0, [NullableHash(stringHash, t.id), NullableHash(stringHash, t.url)])
  {
    var id, url := NullableHash(stringHash, t.id), NullableHash(stringHash, t.url);
    HashFieldsSnoc(0, [], id);
    HashFieldsSnoc(0, [id], url);
    assert [id] + [url] == [id, url];
    31 * id + url
  }

  lemma EqualTargetsHashAlike(stringHash: string -> int, a: AttachmentTarget, b: AttachmentTarget)
    requires TargetEquals(a, b)
    ensures TargetHash(stringHash, a) == TargetHash(stringHash, b)
  {
  }

  /** Targets that differ only in `url` are not equal. */
  lemma TargetsDifferingInUrlDiffer(a: AttachmentTarget, url: Option<string>)
    requires url != a.url
    ensures !TargetEquals(a, a.(url := url))
  {
  }

  // ---------------------------------------------------------------------------
  // Attachment media

  /** `AttachmentMediaJSONImpl.equals`: compares the images. */
  function MediaEquals(a: AttachmentMedia, b: AttachmentMedia): (r: bool)
    ensures r <==> a == b
  {
    a.image == b.image
  }

  /** `AttachmentMediaJSONImpl.hashCode`: the image's hash. */
  function MediaHash(imageHash: Image -> int, m: AttachmentMedia): (r: int)
    ensures r == HashFields(0, [imageHash(m.image)])
  {
    HashFieldsSnoc(0, [], imageHash(m.image));
    imageHash(m.image)
  }

  /** Media equality is an equivalence relation. */
  lemma MediaEqualsIsEquivalence()
    ensures Equivalence(MediaEquals)
  {
  }

  /** Equal media have equal hashes, whatever the image hash. */
  lemma EqualMediaHashAlike(imageHash: Image -> int, a: AttachmentMedia, b: AttachmentMedia)
    requires MediaEquals(a, b)
    ensures MediaHash(imageHash, a) == MediaHash(imageHash, b)
  {
  }

  // ---------------------------------------------------------------------------
  // Attachment

  /** `AttachmentJSONImpl.equals`: null-safe on all six fields, media and target
      compared with their own `equals`. */
  function AttachmentEquals(a: Attachment, b: Attachment): (r: bool)
    ensures r <==> a == b
  {
    && NullSafeEquals(a.description, b.description, StringEquals)
    && NullSafeEquals(a.media, b.media, MediaEquals)
    && NullSafeEquals(a.target, b.target, TargetEquals)
    && NullSafeEquals(a.title, b.title, StringEquals)
    && NullSafeEquals(a.kind, b.kind, StringEquals)
    && NullSafeEquals(a.url, b.url, StringEquals)
  }

  /** `AttachmentJSONImpl.hashCode`. */
  function AttachmentHash(stringHash: string -> int, imageHash: Image -> int, a: Attachment): (r: int)
    ensures r == HashFields(0, [ NullableHash(stringHash, a.description),
                                 NullableHash((m: AttachmentMedia) => MediaHash(imageHash, m), a.media),
                                 NullableHash((t: AttachmentTarget) => TargetHash(stringHash, t), a.target),
                                 NullableHash(stringHash, a.title),
                                 NullableHash(stringHash, a.kind),
                                 NullableHash(stringHash, a.url) ])
  {
    var h0 := NullableHash(stringHash, a.description);
    var h1 := 31 * h0 + NullableHash((m: AttachmentMedia) => MediaHash(imageHash, m), a.media);
    var h2 := 31 * h1 + NullableHash((t: AttachmentTarget) => TargetHash(stringHash, t), a.target);
    var h3 := 31 * h2 + NullableHash(stringHash, a.title);
    var h4 := 31 * h3 + NullableHash(stringHash, a.kind);
    HashFieldsSix(0, [ NullableHash(stringHash, a.description),
                        NullableHash((m: AttachmentMedia) => MediaHash(imageHash, m), a.media),
                        NullableHash((t: AttachmentTarget) => TargetHash(stringHash, t), a.target),
                        NullableHash(stringHash, a.title),
                        NullableHash(stringHash, a.kind),
                        NullableHash(stringHash, a.url) ]);
    31 * h4 + NullableHash(stringHash, a.url)
  }

  /** Attachment equality is an equivalence relation. */
  lemma AttachmentEqualsIsEquivalence()
    ensures Equivalence(AttachmentEquals)
  {
  }

  /** Target equality is an equivalence relation. */
  lemma TargetEqualsIsEquivalence()
    ensures Equivalence(TargetEquals)
  {
  }

  /** Equal attachments have equal hashes, whatever the string and image hashes. */
  lemma EqualAttachmentsHashAlike(stringHash: string -> int, imageHash: Image -> int, a: Attachment, b: Attachment)
    requires AttachmentEquals(a, b)
    ensures AttachmentHash(stringHash, imageHash, a) == AttachmentHash(stringHash, imageHash, b)
  {
  }

  /** Attachments that differ only in `url` are not equal. */
  lemma AttachmentsDifferingInUrlDiffer(a: Attachment, url: Option<string>)
    requires url != a.url
    ensures !AttachmentEquals(a, a.(url := url))
  {
  }
}
