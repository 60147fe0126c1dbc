# Message JSON decoder of facebook4j, in Dafny

This project models the core of facebook4j's `MessageJSONImpl`. That class turns
a Graph API JSON object into an immutable `Message`. A message has an id, a sender,
a recipient list, a text, two timestamps, paged comments, paged attachments and
unread/unseen counts. The class also builds message lists from `{data: [...]}`
envelopes, and it defines `equals`/`hashCode` for the message and for the nested
attachment, attachment media and attachment target values.

Layout:

- `results.dfy` (`Results`): `Option`, the single error kind `FacebookException`
  (a wrapped `JSONException` or an error raised by a collaborator), and the
  failure-compatible `Result`.
- `json.dfy` (`JsonTree`): the JSON tree and the org.json accessors the decoder
  uses: `isNull` (absent or JSON null), `getJSONObject`, `getJSONArray`, and
  `JSONArray.getJSONObject`.
- `collaborators.dfy` (`Collaborators`): the helpers the decoder calls but which
  are not part of this model. `Parsers` bundles them as function parameters:
  `getRawString`, `getISO8601Datetime`, `getPrimitiveInt`, `IdNameEntityJSONImpl`,
  `CommentJSONImpl`, `ImageJSONImpl`, and the metadata readers of `PagableListImpl`,
  `ResponseListImpl` and `InboxResponseListImpl`. Their result types are opaque.
- `entities.dfy` (`Entities`): `Message`, `Attachment`, `AttachmentMedia`,
  `AttachmentTarget`, `PagedList`, `ResponseList`.
- `element_decoding.dfy` (`ElementDecoding`): the three nested shapes. An array is
  decoded element by element. An optional object is null when absent or null.
  A paged envelope may lack `data`.
- `message_decoding.dfy` (`MessageDecoding`): `init` and the attachment, media and
  target constructors.
- `message_lists.dfy` (`MessageLists`): `createMessageList` and `createInboxMessageList`.
- `message_equality.dfy` (`MessageEquality`): `equals` and `hashCode`.
- `relations.dfy` (`EquivalenceRelations`): reflexivity, symmetry, transitivity.

Each decoder has a relational specification written field by field
(`ElementsDecode`, `OptionalDecodes`, `PagedDecodes`, `RecipientsDecode`,
`CountDecodes`, `AttachmentDecodes`, `MessageDecodes`, `EnvelopeDecodes`).
Every successful result satisfies its specification. A `...Complete` lemma proves
the converse: whatever satisfies the specification is exactly what the decoder
returns. The `...AllOrNothing` lemmas list the steps that can fail, in the order
the source takes them. Decoding succeeds exactly when every step succeeds. A failed
decode carries the error of the first failing step, and no partial value is built.

Behaviours of the code worth noting:

- A `comments` or `attachments` object without `data` yields a list with no
  element. The code creates `PagableListImpl(1, obj)`, where 1 is only a capacity,
  and adds nothing. It never yields a one-element list.
- A `to` object without `data` is an error. Unlike the paged members, it has no fallback.
- `getRawString` is modelled as a total function returning `Option`, not `Result`.
  `AttachmentTargetJSONImpl`'s constructor calls it outside any `try` and declares
  no checked exception, so the call cannot fail.

Every `hashCode` (message, attachment, media, target) is stated against
`HashFields`, the `31 * result + h` combination over the fields' hashes in
declaration order, and the `...HashAlike` lemmas prove that equal values hash
alike. Every `equals` is proved to satisfy `Equivalence` (reflexive, symmetric and
transitive) from `relations.dfy`.

## Model

| member | source | states |
|---|---|---|
| `ElementDecoding.DecodeFrom` | facebook4j-core/src/main/java/facebook4j/internal/json/MessageJSONImpl.java:83-85 | The element loop from `start` succeeds iff every remaining element is an object that decodes. On success it has one value per element, in order, each that element's decoding. On failure it carries the error of the first failing element. |
| `ElementDecoding.DecodeEach` | facebook4j-core/src/main/java/facebook4j/internal/json/MessageJSONImpl.java:95-101 | A successful array decode has exactly as many values as the array, in input order, each the decoding of the object at that index. A failure is the error of the first element that is not an object or does not decode. |
| `ElementDecoding.DecodeEachComplete` | facebook4j-core/src/main/java/facebook4j/internal/json/MessageJSONImpl.java:111-117 | Any sequence that decodes the array element-wise is exactly what the array decode returns. |
| `ElementDecoding.DecodeOptional` | facebook4j-core/src/main/java/facebook4j/internal/json/MessageJSONImpl.java:75-78 | An absent or null member leaves the field null. A present member must be an object; otherwise the error is "not a JSONObject". A nested decoder's error propagates unchanged. |
| `ElementDecoding.DecodeOptionalComplete` | facebook4j-core/src/main/java/facebook4j/internal/json/MessageJSONImpl.java:275-280 | Whatever the optional-member rule allows is exactly what the decoder returns. |
| `ElementDecoding.DecodePaged` | facebook4j-core/src/main/java/facebook4j/internal/json/MessageJSONImpl.java:92-107 | Absent or null gives an empty list without paging. An object with non-null `data` needs `data` to be an array, then decodes it element-wise in order with the envelope's paging. An object without `data` gives no element, with the envelope's paging. The non-object, non-array and paging errors come in that order. |
| `ElementDecoding.DecodePagedComplete` | facebook4j-core/src/main/java/facebook4j/internal/json/MessageJSONImpl.java:108-123 | Any paged list that satisfies the three-way rule is exactly what the decoder returns. |
| `MessageDecoding.DecodeTarget` | facebook4j-core/src/main/java/facebook4j/internal/json/MessageJSONImpl.java:398-401 | A target holds the `id` and `url` members as the string reader gives them, and building it cannot fail. |
| `MessageDecoding.DecodeTargetComplete` | facebook4j-core/src/main/java/facebook4j/internal/json/MessageJSONImpl.java:398-401 | Any target whose `id` and `url` are what the string reader gives is exactly what the constructor builds. |
| `MessageDecoding.DecodeMedia` | facebook4j-core/src/main/java/facebook4j/internal/json/MessageJSONImpl.java:358-364 | Media decodes iff `image` is present, is an object, and the image decoder accepts it. A missing `image` gives "not found"; a null or non-object `image` gives "not a JSONObject". |
| `MessageDecoding.DecodeMediaComplete` | facebook4j-core/src/main/java/facebook4j/internal/json/MessageJSONImpl.java:358-364 | Any media whose image is the image decoder's result for an object `image` member is exactly what the constructor builds. |
| `MessageDecoding.DecodeAttachment` | facebook4j-core/src/main/java/facebook4j/internal/json/MessageJSONImpl.java:272-287 | A decoded attachment has the four strings the string reader gives. Media and target are null when absent or null; otherwise they are decoded from an object, the target as its `id` and `url`. |
| `MessageDecoding.DecodeAttachmentComplete` | facebook4j-core/src/main/java/facebook4j/internal/json/MessageJSONImpl.java:272-283 | Any attachment that satisfies the field-by-field specification is exactly what the constructor builds. |
| `MessageDecoding.DecodeAttachmentAllOrNothing` | facebook4j-core/src/main/java/facebook4j/internal/json/MessageJSONImpl.java:273-286 | An attachment decodes iff the media and target steps both succeed. Otherwise the error is that of the first failing step. |
| `MessageDecoding.DecodeRecipients` | facebook4j-core/src/main/java/facebook4j/internal/json/MessageJSONImpl.java:79-88 | Absent or null `to` gives no recipients. Otherwise `to` must be an object with a `data` array: one recipient per element, in order, each that element's id/name decoding. A `to` without `data` fails. |
| `MessageDecoding.DecodeRecipientsComplete` | facebook4j-core/src/main/java/facebook4j/internal/json/MessageJSONImpl.java:79-85 | Any recipient list that satisfies the rule is exactly what is decoded. |
| `MessageDecoding.DecodeCount` | facebook4j-core/src/main/java/facebook4j/internal/json/MessageJSONImpl.java:124-129 | `unread`/`unseen` stay null when absent or null. Otherwise they hold the integer reader's value, or its error. |
| `MessageDecoding.DecodeCountComplete` | facebook4j-core/src/main/java/facebook4j/internal/json/MessageJSONImpl.java:124-129 | Any count the rule allows (null for a null or absent member, otherwise the integer reader's value) is exactly what is decoded. |
| `MessageDecoding.DecodeMessage` | facebook4j-core/src/main/java/facebook4j/internal/json/MessageJSONImpl.java:72-133 | A decoded message satisfies the field-by-field specification: id and text from the string reader; sender, recipients, comments, attachments and counts by the rules above; timestamps from the date reader. |
| `MessageDecoding.DecodeMessageComplete` | facebook4j-core/src/main/java/facebook4j/internal/json/MessageJSONImpl.java:74-129 | Any message that satisfies the field-by-field specification is exactly what `init` builds. |
| `MessageDecoding.DecodeMessageAllOrNothing` | facebook4j-core/src/main/java/facebook4j/internal/json/MessageJSONImpl.java:72-133 | `init` produces a message iff none of its eight failing steps fails. A failed decode carries the error of the first failing step, in source order. So a timestamp the date reader rejects, or a failing comment or attachment, fails the whole message. |
| `MessageDecoding.FieldDecodersReadOwnMember` | facebook4j-core/src/main/java/facebook4j/internal/json/MessageJSONImpl.java:75-129 | The sender, recipient, comment, attachment and count steps each depend only on their own member, when the field readers agree on both objects. |
| `MessageDecoding.NullAndAbsentAlike` | facebook4j-core/src/main/java/facebook4j/internal/json/MessageJSONImpl.java:75-129 | For `from`, `to`, `comments`, `attachments`, `unread` and `unseen`, a member written as `null` and a missing member decode to the same result. This assumes the field readers read both objects alike. |
| `MessageLists.DecodeMessageEnvelope` | facebook4j-core/src/main/java/facebook4j/internal/json/MessageJSONImpl.java:173-188 | On success, `data` is an array, the list has exactly `data.length` messages, and message i is the decoding of `data[i]`. A missing `data` fails with "not found" and a non-array `data` with "not a JSONArray"; a metadata error comes next. |
| `MessageLists.DecodeMessageEnvelopeComplete` | facebook4j-core/src/main/java/facebook4j/internal/json/MessageJSONImpl.java:174-184 | Any list that satisfies the envelope specification is exactly what is decoded. |
| `MessageLists.CreateMessageList` | facebook4j-core/src/main/java/facebook4j/internal/json/MessageJSONImpl.java:168-192 | It fails without a `data` array. On success, it holds one message per element of `data`, in order, with the response list's metadata. |
| `MessageLists.CreateInboxMessageList` | facebook4j-core/src/main/java/facebook4j/internal/json/MessageJSONImpl.java:195-219 | The same as the plain list builder, with the inbox list's metadata. |
| `MessageLists.OneBadMessageFailsTheList` | facebook4j-core/src/main/java/facebook4j/internal/json/MessageJSONImpl.java:177-190 | One element of `data` that is not an object, or does not decode as a message, makes both list builders fail. |
| `MessageLists.ExampleEnvelopeDecodes` | facebook4j-core/src/main/java/facebook4j/internal/json/MessageJSONImpl.java:168-192 | A one-message envelope `{id 1, message hi, from {10, A}}` gives one message with those values. It has no recipients, empty unpaged comments and attachments, and null timestamps and counts. |
| `MessageEquality.NullSafeEquals` | facebook4j-core/src/main/java/facebook4j/internal/json/MessageJSONImpl.java:320-325 | The null-safe comparison is true exactly when both sides are null or both hold equal values. |
| `MessageEquality.MessageEquals` | facebook4j-core/src/main/java/facebook4j/internal/json/MessageJSONImpl.java:229-244 | Two messages are equal exactly when their ids are equal; two null ids are equal. |
| `MessageEquality.MessageEqualsIsEquivalence` | facebook4j-core/src/main/java/facebook4j/internal/json/MessageJSONImpl.java:229-244 | Message equality is reflexive, symmetric and transitive. |
| `MessageEquality.MessageHash` | facebook4j-core/src/main/java/facebook4j/internal/json/MessageJSONImpl.java:221-227 | The hash is `31 * 1` plus the id's hash, or plus 0 for a null id, as a `HashFields` combination seeded with 1. `EqualMessagesHashAlike` gives its promise. |
| `MessageEquality.EqualMessagesHashAlike` | facebook4j-core/src/main/java/facebook4j/internal/json/MessageJSONImpl.java:221-227 | Equal messages have equal hashes, for any string hash. |
| `MessageEquality.MessageEqualityIgnoresContent` | facebook4j-core/src/main/java/facebook4j/internal/json/MessageJSONImpl.java:238-243 | Any two messages with the same id are equal, whatever their sender, recipients, text, timestamps, comments, attachments or counts. |
| `MessageEquality.SameIdDifferentBodyEqual` | facebook4j-core/src/main/java/facebook4j/internal/json/MessageJSONImpl.java:230-244 | Two different messages with the same id and different texts are equal. |
| `MessageEquality.TargetEquals` | facebook4j-core/src/main/java/facebook4j/internal/json/MessageJSONImpl.java:411-422 | Targets are equal exactly when `id` and `url` are both equal, null-safely. |
| `MessageEquality.TargetEqualsIsEquivalence` | facebook4j-core/src/main/java/facebook4j/internal/json/MessageJSONImpl.java:411-422 | Target equality is reflexive, symmetric and transitive. |
| `MessageEquality.TargetHash` | facebook4j-core/src/main/java/facebook4j/internal/json/MessageJSONImpl.java:424-429 | The hash combines the hashes of `id` and `url`, in that order, each 0 when null. `EqualTargetsHashAlike` gives its promise. |
| `MessageEquality.EqualTargetsHashAlike` | facebook4j-core/src/main/java/facebook4j/internal/json/MessageJSONImpl.java:424-429 | Equal targets have equal hashes. |
| `MessageEquality.TargetsDifferingInUrlDiffer` | facebook4j-core/src/main/java/facebook4j/internal/json/MessageJSONImpl.java:418-419 | Targets that differ only in `url` are not equal. |
| `MessageEquality.MediaEquals` | facebook4j-core/src/main/java/facebook4j/internal/json/MessageJSONImpl.java:370-379 | Media are equal exactly when their images are equal. |
| `MessageEquality.MediaEqualsIsEquivalence` | facebook4j-core/src/main/java/facebook4j/internal/json/MessageJSONImpl.java:370-379 | Media equality is reflexive, symmetric and transitive. |
| `MessageEquality.MediaHash` | facebook4j-core/src/main/java/facebook4j/internal/json/MessageJSONImpl.java:381-384 | The media's hash is the image's hash: a one-field `HashFields` combination seeded with 0. `EqualMediaHashAlike` gives its promise. |
| `MessageEquality.EqualMediaHashAlike` | facebook4j-core/src/main/java/facebook4j/internal/json/MessageJSONImpl.java:370-384 | Equal media have equal hashes, for any image hash. |
| `MessageEquality.AttachmentEquals` | facebook4j-core/src/main/java/facebook4j/internal/json/MessageJSONImpl.java:313-328 | Attachments are equal exactly when all six fields are equal, null-safely, with media and target compared by their own equality. |
| `MessageEquality.AttachmentEqualsIsEquivalence` | facebook4j-core/src/main/java/facebook4j/internal/json/MessageJSONImpl.java:313-328 | Attachment equality is reflexive, symmetric and transitive. |
| `MessageEquality.AttachmentHash` | facebook4j-core/src/main/java/facebook4j/internal/json/MessageJSONImpl.java:330-339 | The hash combines the hashes of description, media, target, title, type and url, in that order, each 0 when null; media and target use their own hashes. `EqualAttachmentsHashAlike` gives its promise. |
| `MessageEquality.EqualAttachmentsHashAlike` | facebook4j-core/src/main/java/facebook4j/internal/json/MessageJSONImpl.java:330-339 | Equal attachments have equal hashes, for any string and image hash. |
| `MessageEquality.AttachmentsDifferingInUrlDiffer` | facebook4j-core/src/main/java/facebook4j/internal/json/MessageJSONImpl.java:325 | Attachments that differ only in `url` are not equal. |

## Left out

- The `HttpResponse`/`Configuration` constructor and `res.asJSONObject()`. The list builders take the already parsed envelope object.
- The JSON-store registration (`DataObjectFactoryUtil`), which is a thread-local debug side effect enabled by configuration.
- The internals of `getRawString`, `getISO8601Datetime` (ISO-8601 parsing), `getPrimitiveInt`, `IdNameEntityJSONImpl`, `CommentJSONImpl`, `ImageJSONImpl`, `PagableListImpl`, `ResponseListImpl` and `InboxResponseListImpl`. Their code is not part of this model, so they are parameters and every property holds for any of them.
- `ImageJSONImpl.equals`/`hashCode`: the image's equality is taken to be the equality of the opaque `Image` type, with an arbitrary image hash. This assumes the image's `equals` is an equivalence consistent with its hash.
- `MessageEquality.MessageHash`, `TargetHash`, `AttachmentHash`: they combine field hashes with `31 * result + h` over unbounded integers. Java's 32-bit wrap-around is not modelled, and `String.hashCode` is a parameter. The promise that equal values hash alike does not depend on either.
- `equals` against objects of another class, and the `this == obj` shortcut. The Dafny functions compare two values of the same type.
- `toString`, Java serialization, and the getters, which return fields unchanged.
- `ConversationMethods.java`, which only declares HTTP-backed interface methods.
- JSON numbers are integers only. No member read by the core is a fraction.
- Runtime exceptions (a `NullPointerException`, say) are not modelled; only `JSONException` and `FacebookException` are.
