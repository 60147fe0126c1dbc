/** The immutable values the decoder builds. Every Java field that may stay null
    is an `Option`; lists are sequences in input order. */
module Entities {
  import opened Results
  import opened Collaborators

  /** A list built from a `{data: [...], paging: {...}}` envelope. `paging` is
      `None` for a list made without an envelope (`new PagableListImpl(0)`). */
  datatype PagedList<+T> = PagedList(items: seq<T>, paging: Option<Paging>)

  /** The list returned by the list builders, with the envelope's metadata `M`. */
  datatype ResponseList<+T, +M> = ResponseList(items: seq<T>, meta: M)

  /** `AttachmentTargetJSONImpl`: the object an attachment points at. */
  datatype AttachmentTarget = AttachmentTarget(id: Option<string>, url: Option<string>)

  /** `AttachmentMediaJSONImpl`: the media of an attachment, one image. */
  datatype AttachmentMedia = AttachmentMedia(image: Image)

  /** `AttachmentJSONImpl`. `kind` holds the JSON member `type`. */
  datatype Attachment = Attachment(
    description: Option<string>,
    media: Option<AttachmentMedia>,
    target: Option<AttachmentTarget>,
    title: Option<string>,
    kind: Option<string>,
    url: Option<string>
  )

  /** `MessageJSONImpl`, field for field. */
  datatype Message = Message(
    id: Option<string>,
    from: Option<IdNameEntity>,
    to: seq<IdNameEntity>,
    attachments: PagedList<Attachment>,
    message: Option<string>,
    createdTime: Option<Date>,
    updatedTime: Option<Date>,
    comments: PagedList<Comment>,
    unread: Option<int>,
    unseen: Option<int>
  )
}
