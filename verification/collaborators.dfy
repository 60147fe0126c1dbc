/** The collaborators the message decoder calls but whose code is not part of
    this model: the `z_F4JInternalParseUtil` field readers, the decoders of
    comments, images and id/name references, and the paging metadata readers of
    the list types. Each is a parameter: a total function value whose result the
    decoder passes on unchanged, so every property proved holds for any of them. */
module Collaborators {
  import opened Results
  import opened JsonTree

  /** A parsed ISO-8601 timestamp (`java.util.Date`). */
  type Date(==, !new)

  /** A decoded image (`ImageJSONImpl`); its `equals` is taken to be this type's equality. */
  type Image(==, !new)

  /** A decoded comment (`CommentJSONImpl`). */
  type Comment(==, !new)

  /** The paging cursors `PagableListImpl` reads from an envelope. */
  type Paging(==, !new)

  /** The metadata `ResponseListImpl` reads from a list envelope. */
  type ResponseMeta(==, !new)

  /** The metadata `InboxResponseListImpl` reads from an inbox envelope. */
  type InboxMeta(==, !new)

  /** A user or page reference (`IdNameEntity`): an id and a display name, either may be null. */
  datatype IdNameEntity = IdNameEntity(id: Option<string>, name: Option<string>)

  datatype Parsers = Parsers(
    /** `getRawString(name, json)`: the member as a string, or null. It declares no
        checked exception (the attachment target constructor calls it outside any
        try block), so it cannot fail. */
    rawString: (string, JsonObject) -> Option<string>,
    /** `getISO8601Datetime(name, json)`: null, a date, or a failure on a bad format. */
    iso8601Datetime: (string, JsonObject) -> Result<Option<Date>>,
    /** `getPrimitiveInt(name, json)`. */
    primitiveInt: (string, JsonObject) -> Result<int>,
    /** `new IdNameEntityJSONImpl(json)`. */
    idNameEntity: JsonObject -> Result<IdNameEntity>,
    /** `new CommentJSONImpl(json)`. */
    comment: JsonObject -> Result<Comment>,
    /** `new ImageJSONImpl(json)`. */
    image: JsonObject -> Result<Image>,
    /** The paging part of `new PagableListImpl(size, json)`. */
    paging: JsonObject -> Result<Paging>,
    /** The metadata part of `new ResponseListImpl(size, json)`. */
    responseMeta: JsonObject -> Result<ResponseMeta>,
    /** The metadata part of `new InboxResponseListImpl(size, json)`. */
    inboxMeta: JsonObject -> Result<InboxMeta>
  )
}
