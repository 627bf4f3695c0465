/**
 * The remote mailbox the core talks to through the Gmail API, reduced to
 * what the core reads and changes: each message's raw content, labels and
 * trash flag, the listing of message ids a search returns page by page, and
 * the log of every request sent. Any request may fail (quota, network); the
 * requests that fail are fixed in advance by their position in the log.
 */
module Gmail {

  import opened Wrappers
  import opened Model
  import opened Mime

  /**
   * A message as `format=raw` delivers it, once base64url-decoded and parsed:
   * its header fields and its MIME tree.
   */
  datatype Raw = Raw(headers: seq<Header>, body: Content)

  /**
   * A message resource as `messages.get` with `format=raw` returns it, plus
   * the trash flag the store keeps.
   */
  datatype StoredMessage = StoredMessage(
    raw: Option<Raw>,            // `raw` may be missing from a response
    labelIds: seq<string>,
    trashed: bool,
    internalDate: int,
    sizeEstimate: int,
    threadId: string)

  /** One response of `messages.list`: the ids on the page and the token of the next one. */
  datatype Page = Page(messages: Option<seq<MessageId>>, nextPageToken: Option<string>)

  /**
   * The fields the search asks `messages.get` for: id, labels, internal date,
   * size, the top-level headers and the filename of each top-level part
   * (`parts` is missing for a message that is not multipart).
   */
  datatype MessageMeta = MessageMeta(
    id: MessageId,
    labelIds: Option<seq<string>>,
    internalDate: int,
    sizeEstimate: int,
    headers: seq<Header>,
    parts: Option<seq<Option<string>>>)

  /** A request sent to the mailbox. */
  datatype Request =
    | List(query: string, pageToken: Option<string>)
    | GetRaw(id: MessageId)
    | GetMetadata(id: MessageId)
    | Insert
    | Modify(id: MessageId, labelId: string)
    | Trash(id: MessageId)
    | Delete(id: MessageId)

  function HeadersOf(m: StoredMessage): seq<Header> {
    if m.raw.Some? then m.raw.value.headers else []
  }

  function PartFileNames(ps: seq<Part>): (r: seq<Option<string>>)
    ensures |r| == |ps|
    ensures forall i :: 0 <= i < |ps| ==> r[i] == ps[i].fileName
  {
    if ps == [] then [] else [ps[0].fileName] + PartFileNames(ps[1..])
  }

  /** What `messages.get` with the search's fields returns for a stored message. */
  function MetadataOf(id: MessageId, m: StoredMessage): (r: MessageMeta)
    ensures r.id == id && r.headers == HeadersOf(m)
    ensures r.parts.Some? <==> m.raw.Some? && m.raw.value.body.Multipart?
  {
    MessageMeta(id, Some(m.labelIds), m.internalDate, m.sizeEstimate, HeadersOf(m),
                if m.raw.Some? && m.raw.value.body.Multipart?
                then Some(PartFileNames(m.raw.value.body.parts)) else None)
  }

  /** The label list once `labelId` is added: a label already present is not repeated. */
  function AddLabelId(labels: seq<string>, labelId: string): (r: seq<string>)
    ensures labelId in r
    ensures forall l :: l in r <==> l in labels || l == labelId
  {
    if labelId in labels then labels else labels + [labelId]
  }

  class Mailbox {
    var messages: map<MessageId, StoredMessage>
    var nextId: MessageId
    var calls: seq<Request>
    /** The positions in `calls` of the requests that fail. */
    const outages: set<nat>
    /** The search index: the page a query and page token lead to, or none (a null response). */
    const pages: (string, Option<string>) -> Option<Page>
    /** The internal date the store derives from an inserted message's Date header. */
    const dateOf: seq<Header> -> int
    /** The size the store estimates for an inserted message. */
    const sizeOf: Raw -> int

    /** Ids are handed out in increasing order, so a new id is never in use. */
    ghost predicate Valid()
      reads this
    {
      forall id :: id in messages ==> id < nextId
    }

    /** Whether the next request fails. */
    predicate Down()
      reads this
    {
      |calls| in outages
    }

    constructor (messages: map<MessageId, StoredMessage>, nextId: MessageId, outages: set<nat>,
                 pages: (string, Option<string>) -> Option<Page>,
                 dateOf: seq<Header> -> int, sizeOf: Raw -> int)
      requires forall id :: id in messages ==> id < nextId
      ensures Valid()
      ensures this.messages == messages && this.nextId == nextId && calls == []
      ensures this.outages == outages && this.pages == pages
      ensures this.dateOf == dateOf && this.sizeOf == sizeOf
    {
      this.messages := messages;
      this.nextId := nextId;
      this.calls := [];
      this.outages := outages;
      this.pages := pages;
      this.dateOf := dateOf;
      this.sizeOf := sizeOf;
    }

    /** `messages.list` with a query and a page token. */
    method ListMessages(query: string, pageToken: Option<string>) returns (r: Result<Option<Page>>)
      requires Valid()
      modifies this
      ensures Valid() && calls == old(calls) + [Request.List(query, pageToken)]
      ensures messages == old(messages) && nextId == old(nextId)
      ensures r.Success? <==> !old(Down())
      ensures r.Success? ==> r.value == pages(query, pageToken)
    {
      var failing := Down();
      calls := calls + [Request.List(query, pageToken)];
      if failing {
        return Failure("messages.list failed");
      }
      return Success(pages(query, pageToken));
    }

    /**
     * `messages.get` with `format=raw`: the whole message resource, its
     * labels and thread included; fails for an unknown id.
     */
    method GetRaw(id: MessageId) returns (r: Result<StoredMessage>)
      requires Valid()
      modifies this
      ensures Valid() && calls == old(calls) + [Request.GetRaw(id)]
      ensures messages == old(messages) && nextId == old(nextId)
      ensures r.Success? <==> !old(Down()) && id in messages
      ensures r.Success? ==> r.value == messages[id]
    {
      var failing := Down();
      calls := calls + [Request.GetRaw(id)];
      if failing || id !in messages {
        return Failure("messages.get failed");
      }
      return Success(messages[id]);
    }

    /** `messages.get` for the fields the search or the reinsertion reads. */
    method GetMetadata(id: MessageId) returns (r: Result<MessageMeta>)
      requires Valid()
      modifies this
      ensures Valid() && calls == old(calls) + [Request.GetMetadata(id)]
      ensures messages == old(messages) && nextId == old(nextId)
      ensures r.Success? <==> !old(Down()) && id in messages
      ensures r.Success? ==> r.value == MetadataOf(id, messages[id])
    {
      var failing := Down();
      calls := calls + [Request.GetMetadata(id)];
      if failing || id !in messages {
        return Failure("messages.get failed");
      }
      return Success(MetadataOf(id, messages[id]));
    }

    /**
     * `messages.insert` of a message resource: the store keeps its content,
     * labels and thread under a fresh id, and dates it by its Date header.
     */
    method Insert(raw: Raw, labelIds: seq<string>, threadId: string) returns (r: Result<MessageId>)
      requires Valid()
      modifies this
      ensures Valid() && calls == old(calls) + [Request.Insert]
      ensures r.Success? <==> !old(Down())
      ensures r.Success? ==>
                && r.value == old(nextId) && r.value !in old(messages)
                && messages == old(messages)[r.value := Inserted(raw, labelIds, threadId)]
                && nextId == old(nextId) + 1
      ensures r.Failure? ==> messages == old(messages) && nextId == old(nextId)
    {
      var failing := Down();
      calls := calls + [Request.Insert];
      if failing {
        return Failure("messages.insert failed");
      }
      var id := nextId;
      messages := messages[id := Inserted(raw, labelIds, threadId)];
      nextId := nextId + 1;
      return Success(id);
    }

    /** The message the store keeps for an insert: not trashed, dated and sized by the store. */
    function Inserted(raw: Raw, labelIds: seq<string>, threadId: string): StoredMessage
    {
      StoredMessage(Some(raw), labelIds, false, dateOf(raw.headers), sizeOf(raw), threadId)
    }

    /** `messages.modify` adding one label. */
    method Modify(id: MessageId, labelId: string) returns (r: Result<()>)
      requires Valid()
      modifies this
      ensures Valid() && calls == old(calls) + [Request.Modify(id, labelId)]
      ensures nextId == old(nextId)
      ensures r.Success? <==> !old(Down()) && id in old(messages)
      ensures r.Success? ==>
                messages == old(messages)[id := old(messages)[id].(labelIds := AddLabelId(old(messages)[id].labelIds, labelId))]
      ensures r.Failure? ==> messages == old(messages)
    {
      var failing := Down();
      calls := calls + [Request.Modify(id, labelId)];
      if failing || id !in messages {
        return Failure("messages.modify failed");
      }
      messages := messages[id := messages[id].(labelIds := AddLabelId(messages[id].labelIds, labelId))];
      return Success(());
    }

    /** `messages.trash`: the message stays, marked as trashed. */
    method TrashMessage(id: MessageId) returns (r: Result<()>)
      requires Valid()
      modifies this
      ensures Valid() && calls == old(calls) + [Request.Trash(id)]
      ensures nextId == old(nextId)
      ensures r.Success? <==> !old(Down()) && id in old(messages)
      ensures r.Success? ==> messages == old(messages)[id := old(messages)[id].(trashed := true)]
      ensures r.Failure? ==> messages == old(messages)
    {
      var failing := Down();
      calls := calls + [Request.Trash(id)];
      if failing || id !in messages {
        return Failure("messages.trash failed");
      }
      messages := messages[id := messages[id].(trashed := true)];
      return Success(());
    }

    /** `messages.delete`: the message is gone for good. */
    method DeleteMessage(id: MessageId) returns (r: Result<()>)
      requires Valid()
      modifies this
      ensures Valid() && calls == old(calls) + [Request.Delete(id)]
      ensures nextId == old(nextId)
      ensures r.Success? <==> !old(Down()) && id in old(messages)
      ensures r.Success? ==> messages == old(messages) - {id}
      ensures r.Failure? ==> messages == old(messages)
    {
      var failing := Down();
      calls := calls + [Request.Delete(id)];
      if failing || id !in messages {
        return Failure("messages.delete failed");
      }
      messages := messages - {id};
      return Success(());
    }
  }
}
