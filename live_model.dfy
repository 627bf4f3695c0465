/**
 * `LiveModel`: the client side of the mailbox. A search lists the matching
 * message ids page by page and reads each message's metadata in batches;
 * processing one email fetches it, optionally backs it up, strips its
 * attachments and, when removal is asked for and something was extracted,
 * uploads the slim copy, labels it and disposes of the original, last.
 */
module Live {

  import opened Wrappers
  import opened Text
  import opened Model
  import opened Mime
  import opened Gmail
  import opened EmailProcessing

  const Starred := "STARRED"
  const MessageIdHeader := "message-id"

  // ------------------------------------------------------------------ headers

  /** `Map.get`: the value a key maps to, or none (null). */
  function Get(m: map<string, string>, k: string): (r: Option<string>)
    ensures r.Some? <==> k in m
    ensures r.Some? ==> r.value == m[k]
  {
    if k in m then Some(m[k]) else None
  }

  /** The header map: each header's value under its lower-cased name, later headers replacing earlier ones. */
  function HeaderMap(headers: seq<Header>): map<string, string>
    decreases |headers|
  {
    if headers == [] then map[]
    else
      var last := headers[|headers| - 1];
      HeaderMap(headers[..|headers| - 1])[ToLower(last.name) := last.value]
  }

  /** `getHeaderMap`. */
  method GetHeaderMap(headers: seq<Header>) returns (headerMap: map<string, string>)
    ensures headerMap == HeaderMap(headers)
  {
    headerMap := map[];
    var i := 0;
    while i < |headers|
      invariant 0 <= i <= |headers|
      invariant headerMap == HeaderMap(headers[..i])
    {
      var header := headers[i];
      assert headers[..i + 1][..i] == headers[..i];
      headerMap := headerMap[ToLower(header.name) := header.value];
      i := i + 1;
    }
    assert headers[..i] == headers;
  }

  /** The keys of the header map are exactly the lower-cased header names. */
  lemma {:induction false} HeaderMapKeys(headers: seq<Header>, k: string)
    ensures k in HeaderMap(headers) <==> exists i :: 0 <= i < |headers| && ToLower(headers[i].name) == k
    decreases |headers|
  {
    if headers != [] {
      var n := |headers| - 1;
      HeaderMapKeys(headers[..n], k);
      if k in HeaderMap(headers[..n]) {
        var i :| 0 <= i < n && ToLower(headers[..n][i].name) == k;
        assert ToLower(headers[i].name) == k;
      }
      if exists i :: 0 <= i < |headers| && ToLower(headers[i].name) == k {
        var i :| 0 <= i < |headers| && ToLower(headers[i].name) == k;
        if i < n {
          assert ToLower(headers[..n][i].name) == k;
        }
      }
    }
  }

  /**
   * A header whose lower-cased name no later header shares gives the value
   * stored under that name: of several headers differing only in case, the
   * last one wins.
   */
  lemma {:induction false} HeaderMapLast(headers: seq<Header>, i: nat)
    requires i < |headers|
    requires forall j :: i < j < |headers| ==> ToLower(headers[j].name) != ToLower(headers[i].name)
    ensures ToLower(headers[i].name) in HeaderMap(headers)
    ensures HeaderMap(headers)[ToLower(headers[i].name)] == headers[i].value
    decreases |headers|
  {
    var n := |headers| - 1;
    if i < n {
      forall j | i < j < n ensures ToLower(headers[..n][j].name) != ToLower(headers[..n][i].name) {
        assert headers[..n][j] == headers[j];
      }
      HeaderMapLast(headers[..n], i);
      assert headers[..n][i] == headers[i];
    }
  }

  // ------------------------------------------------------------------- search

  /** The filenames of the top-level parts that are not blank, in part order. */
  function NonBlankFileNames(names: seq<Option<string>>): (r: seq<string>)
    ensures |r| <= |names|
    ensures forall i :: 0 <= i < |r| ==> IsNotBlank(Some(r[i]))
  {
    if names == [] then []
    else (if IsNotBlank(names[0]) then [names[0].value] else []) + NonBlankFileNames(names[1..])
  }

  /** A filename is listed exactly when some part carries it and it is not blank. */
  lemma {:induction false} NonBlankExactly(names: seq<Option<string>>, x: string)
    ensures x in NonBlankFileNames(names) <==> Some(x) in names && IsNotBlank(Some(x))
  {
    if names != [] {
      NonBlankExactly(names[1..], x);
      assert names == [names[0]] + names[1..];
    }
  }

  /** Filtering keeps the order: the filenames of two runs of parts are those of each, in turn. */
  lemma {:induction false} NonBlankAppend(a: seq<Option<string>>, b: seq<Option<string>>)
    ensures NonBlankFileNames(a + b) == NonBlankFileNames(a) + NonBlankFileNames(b)
  {
    if a == [] {
      assert a + b == b;
    } else {
      assert (a + b)[1..] == a[1..] + b;
      NonBlankAppend(a[1..], b);
    }
  }

  /** The `Email` the search builds from a message's metadata. */
  function EmailOf(message: MessageMeta): Email
    requires message.parts.Some?
  {
    var headerMap := HeaderMap(message.headers);
    Email(message.id, Get(headerMap, MessageIdHeader), message.labelIds,
          Get(headerMap, "from"), Get(headerMap, "to"), Get(headerMap, "subject"),
          message.internalDate, message.sizeEstimate, NonBlankFileNames(message.parts.value))
  }

  /** The emails a batch over `ids` adds, reading the messages from `m`: only the multipart ones. */
  function BatchEmails(m: map<MessageId, StoredMessage>, ids: seq<MessageId>): seq<Email>
    decreases |ids|
  {
    if ids == [] then []
    else
      var id := ids[|ids| - 1];
      BatchEmails(m, ids[..|ids| - 1])
      + (if id in m && MetadataOf(id, m[id]).parts.Some? then [EmailOf(MetadataOf(id, m[id]))] else [])
  }

  /** Every email a batch adds is a multipart message of the store, listed among the batch's ids. */
  lemma {:induction false} BatchEmailsFrom(m: map<MessageId, StoredMessage>, ids: seq<MessageId>, e: Email)
    requires e in BatchEmails(m, ids)
    ensures e.gmailId in ids && e.gmailId in m
    ensures m[e.gmailId].raw.Some? && m[e.gmailId].raw.value.body.Multipart?
    ensures e.attachments == NonBlankFileNames(PartFileNames(m[e.gmailId].raw.value.body.parts))
    decreases |ids|
  {
    var n := |ids| - 1;
    var id := ids[n];
    if e in BatchEmails(m, ids[..n]) {
      BatchEmailsFrom(m, ids[..n], e);
      assert ids[..n] <= ids;
    }
  }

  /** The requests of a batch over `ids`. */
  function MetadataRequests(ids: seq<MessageId>): (r: seq<Request>)
    ensures |r| == |ids|
    decreases |ids|
  {
    if ids == [] then [] else MetadataRequests(ids[..|ids| - 1]) + [Request.GetMetadata(ids[|ids| - 1])]
  }

  /** A batch asks for the metadata of each listed id, one request per id, in the order of the list. */
  lemma {:induction false} MetadataRequestsInOrder(ids: seq<MessageId>)
    ensures forall i :: 0 <= i < |ids| ==> MetadataRequests(ids)[i] == Request.GetMetadata(ids[i])
    decreases |ids|
  {
    if ids != [] {
      var n := |ids| - 1;
      MetadataRequestsInOrder(ids[..n]);
      assert forall i :: 0 <= i < n ==> ids[..n][i] == ids[i];
    }
  }

  class LiveModel {
    var emails: seq<Email>

    constructor ()
      ensures emails == []
    {
      emails := [];
    }

    /** The search's per-message callback: a message without parts is skipped. */
    method OnSuccess(message: MessageMeta)
      modifies this
      ensures message.parts.None? ==> emails == old(emails)
      ensures message.parts.Some? ==> emails == old(emails) + [EmailOf(message)]
    {
      var headerMap := GetHeaderMap(message.headers);
      var emailId := message.id;
      var uniqueId := Get(headerMap, MessageIdHeader);
      var labelIds := message.labelIds;
      var from := Get(headerMap, "from");
      var to := Get(headerMap, "to");
      var subject := Get(headerMap, "subject");
      var timestamp := message.internalDate;
      var messageParts := message.parts;
      if messageParts.Some? {
        var attachments := NonBlankFileNames(messageParts.value);
        var email := Email(emailId, uniqueId, labelIds, from, to, subject, timestamp, message.sizeEstimate,
                           attachments);
        emails := emails + [email];
      }
    }

    /**
     * One batch of the search: reads the metadata of `ids[start..end]` in
     * index order and hands each response to `OnSuccess`; a failed request
     * ends the batch with an error.
     */
    method FetchBatch(box: Mailbox, ids: seq<MessageId>, start: nat, end: nat) returns (r: Result<()>)
      requires start <= end <= |ids|
      requires box.Valid()
      modifies this, box
      ensures box.Valid() && box.messages == old(box.messages) && box.nextId == old(box.nextId)
      ensures old(box.calls) <= box.calls
      ensures box.calls <= old(box.calls) + MetadataRequests(ids[start..end])
      ensures r.Success? ==> box.calls == old(box.calls) + MetadataRequests(ids[start..end])
      ensures r.Success? ==> emails == old(emails) + BatchEmails(box.messages, ids[start..end])
    {
      var emailIndex := start;
      while emailIndex < end
        invariant start <= emailIndex <= end
        invariant box.Valid() && box.messages == old(box.messages) && box.nextId == old(box.nextId)
        invariant box.calls == old(box.calls) + MetadataRequests(ids[start..emailIndex])
        invariant emails == old(emails) + BatchEmails(box.messages, ids[start..emailIndex])
      {
        BatchStep(box.messages, ids, start, emailIndex);
        ghost var sofar := emails;
        r := FetchOne(box, ids[emailIndex]);
        AppendAssociative(old(box.calls), MetadataRequests(ids[start..emailIndex]), [Request.GetMetadata(ids[emailIndex])]);
        if r.Failure? {
          BatchCut(old(box.calls), ids, start, emailIndex + 1, end);
          return;
        }
        AppendAssociative(old(emails), BatchEmails(box.messages, ids[start..emailIndex]), emails[|sofar|..]);
        assert emails == sofar + emails[|sofar|..];
        emailIndex := emailIndex + 1;
      }
      BatchCut(old(box.calls), ids, start, end, end);
      r := Success(());
    }

    /** One request of the batch and, when it succeeds, the `onSuccess` callback on its response. */
    method FetchOne(box: Mailbox, id: MessageId) returns (r: Result<()>)
      requires box.Valid()
      modifies this, box
      ensures box.Valid() && box.messages == old(box.messages) && box.nextId == old(box.nextId)
      ensures box.calls == old(box.calls) + [Request.GetMetadata(id)]
      ensures r.Success? <==> !old(box.Down()) && id in box.messages
      ensures r.Success? ==>
                emails == old(emails)
                          + (if MetadataOf(id, box.messages[id]).parts.Some?
                             then [EmailOf(MetadataOf(id, box.messages[id]))] else [])
    {
      var response := box.GetMetadata(id);
      if response.Failure? {
        return Failure(response.error);
      }
      OnSuccess(response.value);
      return Success(());
    }
  }

  /** One more id in a batch: one more request, and the email for it when its message is multipart. */
  lemma BatchStep(m: map<MessageId, StoredMessage>, ids: seq<MessageId>, start: nat, k: nat)
    requires start <= k < |ids|
    ensures MetadataRequests(ids[start..k + 1]) == MetadataRequests(ids[start..k]) + [Request.GetMetadata(ids[k])]
    ensures var id := ids[k];
            BatchEmails(m, ids[start..k + 1])
            == BatchEmails(m, ids[start..k])
               + (if id in m && MetadataOf(id, m[id]).parts.Some? then [EmailOf(MetadataOf(id, m[id]))] else [])
  {
    var sofar := ids[start..k + 1];
    assert sofar[..|sofar| - 1] == ids[start..k];
  }

  /** A batch cut short after its first ids has sent an initial segment of the batch's requests. */
  lemma BatchCut(before: seq<Request>, ids: seq<MessageId>, start: nat, k: nat, end: nat)
    requires start <= k <= end <= |ids|
    ensures before <= before + MetadataRequests(ids[start..k])
    ensures before + MetadataRequests(ids[start..k]) <= before + MetadataRequests(ids[start..end])
  {
    BatchPrefix(ids, start, k, end);
    AppendAssociative(before, MetadataRequests(ids[start..k]), MetadataRequests(ids[k..end]));
    PrefixOfSum(before + MetadataRequests(ids[start..k]), MetadataRequests(ids[k..end]),
                before + MetadataRequests(ids[start..end]));
    PrefixOfSum(before, MetadataRequests(ids[start..k]), before + MetadataRequests(ids[start..k]));
  }

  /** The requests for the first ids of a batch are an initial segment of the batch's requests. */
  lemma {:induction false} BatchPrefix(ids: seq<MessageId>, start: nat, k: nat, end: nat)
    requires start <= k <= end <= |ids|
    ensures MetadataRequests(ids[start..end]) == MetadataRequests(ids[start..k]) + MetadataRequests(ids[k..end])
    decreases end - k
  {
    if k < end {
      BatchPrefix(ids, start, k, end - 1);
      var all := ids[start..end];
      assert all[..|all| - 1] == ids[start..end - 1];
      var tail := ids[k..end];
      assert tail[..|tail| - 1] == ids[k..end - 1];
    } else {
      assert ids[k..end] == [];
    }
  }

  // ----------------------------------------------------------------- listing

  /**
   * Listing from `pageToken` stops within `n` further pages: a missing
   * response, a page without a message list, or a page without a next token
   * ends it.
   */
  ghost predicate Ends(pages: (string, Option<string>) -> Option<Page>, query: string, pageToken: Option<string>, n: nat)
    decreases n
  {
    var response := pages(query, pageToken);
    response.None? || response.value.messages.None? || response.value.nextPageToken.None?
    || (n > 0 && Ends(pages, query, response.value.nextPageToken, n - 1))
  }

  /** The ids listed from `pageToken` on: each page's ids, in the order the pages come. */
  ghost function Collect(pages: (string, Option<string>) -> Option<Page>, query: string, pageToken: Option<string>, n: nat)
    : seq<MessageId>
    requires Ends(pages, query, pageToken, n)
    decreases n
  {
    var response := pages(query, pageToken);
    if response.None? || response.value.messages.None? then []
    else if response.value.nextPageToken.None? then response.value.messages.value
    else response.value.messages.value + Collect(pages, query, response.value.nextPageToken, n - 1)
  }

  /** The list requests sent from `pageToken` on: each with the token the previous page returned. */
  ghost function ListRequests(pages: (string, Option<string>) -> Option<Page>, query: string, pageToken: Option<string>, n: nat)
    : seq<Request>
    requires Ends(pages, query, pageToken, n)
    decreases n
  {
    var response := pages(query, pageToken);
    [Request.List(query, pageToken)]
    + if response.None? || response.value.messages.None? || response.value.nextPageToken.None? then []
      else ListRequests(pages, query, response.value.nextPageToken, n - 1)
  }

  /** The listing does not depend on how many pages the bound allows, only on the pages. */
  lemma {:induction false} CollectBound(pages: (string, Option<string>) -> Option<Page>, query: string,
                                        pageToken: Option<string>, n: nat, m: nat)
    requires Ends(pages, query, pageToken, n) && Ends(pages, query, pageToken, m)
    ensures Collect(pages, query, pageToken, n) == Collect(pages, query, pageToken, m)
    ensures ListRequests(pages, query, pageToken, n) == ListRequests(pages, query, pageToken, m)
    decreases n
  {
    var response := pages(query, pageToken);
    if !(response.None? || response.value.messages.None? || response.value.nextPageToken.None?) {
      CollectBound(pages, query, response.value.nextPageToken, n - 1, m - 1);
    }
  }

  /**
   * `getEmailIds`: requests page after page, the first without a token and
   * each later one with the token the previous page returned, and gathers
   * the ids of all pages in order.
   */
  method GetEmailIds(box: Mailbox, query: string) returns (r: Result<seq<MessageId>>)
    requires box.Valid()
    requires exists n: nat :: Ends(box.pages, query, None, n)
    modifies box
    ensures box.Valid() && box.messages == old(box.messages) && box.nextId == old(box.nextId)
    ensures var n := Bound(box.pages, query);
            && old(box.calls) <= box.calls
            && box.calls <= old(box.calls) + ListRequests(box.pages, query, None, n)
            && (r.Success? ==> box.calls == old(box.calls) + ListRequests(box.pages, query, None, n)
                               && r.value == Collect(box.pages, query, None, n))
  {
    ghost var n0 := Bound(box.pages, query);
    ghost var all := ListRequests(box.pages, query, None, n0);
    ghost var fuel: nat := n0;
    ghost var sent: seq<Request> := [];
    var messages: seq<MessageId> := [];
    var pageToken: Option<string> := None;
    while true
      invariant box.Valid() && box.messages == old(box.messages) && box.nextId == old(box.nextId)
      invariant Ends(box.pages, query, pageToken, fuel)
      invariant box.calls == old(box.calls) + sent
      invariant messages + Collect(box.pages, query, pageToken, fuel) == Collect(box.pages, query, None, n0)
      invariant sent + ListRequests(box.pages, query, pageToken, fuel) == all
      decreases fuel
    {
      ListStep(box.pages, query, pageToken, fuel);
      var later := if Continues(box.pages, query, pageToken)
                   then ListRequests(box.pages, query, box.pages(query, pageToken).value.nextPageToken, fuel - 1)
                   else [];
      AppendAssociative(sent, [Request.List(query, pageToken)], later);
      var response := box.ListMessages(query, pageToken);
      sent := sent + [Request.List(query, pageToken)];
      if response.Failure? {
        PrefixOfSum(sent, later, all);
        PrefixOfSum(old(box.calls), sent, box.calls);
        return Failure(response.error);
      }
      if response.value.None? {
        assert later == [] && sent == all;
        break;
      }
      var responseMessages := response.value.value.messages;
      if responseMessages.None? {
        assert later == [] && sent == all;
        break;
      }
      AppendAssociative(messages, responseMessages.value,
                        if Continues(box.pages, query, pageToken)
                        then Collect(box.pages, query, box.pages(query, pageToken).value.nextPageToken, fuel - 1)
                        else []);
      messages := messages + responseMessages.value;
      pageToken := response.value.value.nextPageToken;
      if pageToken.None? {
        assert later == [] && sent == all;
        break;
      }
      fuel := fuel - 1;
    }
    PrefixOfSum(sent, [], all);
    PrefixOfSum(old(box.calls), sent, box.calls);
    r := Success(messages);
  }

  /** The page for `pageToken` is followed by another one. */
  ghost predicate Continues(pages: (string, Option<string>) -> Option<Page>, query: string, pageToken: Option<string>) {
    var response := pages(query, pageToken);
    response.Some? && response.value.messages.Some? && response.value.nextPageToken.Some?
  }

  /** One page of the listing: its request and ids, then those of the pages after it. */
  lemma ListStep(pages: (string, Option<string>) -> Option<Page>, query: string, pageToken: Option<string>, n: nat)
    requires Ends(pages, query, pageToken, n)
    ensures Continues(pages, query, pageToken) ==> n > 0 && Ends(pages, query, pages(query, pageToken).value.nextPageToken, n - 1)
    ensures ListRequests(pages, query, pageToken, n)
            == [Request.List(query, pageToken)]
               + if Continues(pages, query, pageToken)
                 then ListRequests(pages, query, pages(query, pageToken).value.nextPageToken, n - 1)
                 else []
    ensures var response := pages(query, pageToken);
            Collect(pages, query, pageToken, n)
            == if response.None? || response.value.messages.None? then []
               else response.value.messages.value
                    + if Continues(pages, query, pageToken)
                      then Collect(pages, query, response.value.nextPageToken, n - 1)
                      else []
  {
  }


  lemma PrefixOfSum<T>(a: seq<T>, b: seq<T>, c: seq<T>)
    requires a + b == c
    ensures a <= c
  {
    assert c[..|a|] == a;
  }

  lemma PrefixTransitive<T>(a: seq<T>, b: seq<T>, c: seq<T>)
    requires a <= b && b <= c
    ensures a <= c
  {
    assert c[..|a|] == b[..|a|];
  }

  /** A number of pages within which listing `query` ends. */
  ghost function Bound(pages: (string, Option<string>) -> Option<Page>, query: string): (n: nat)
    requires exists n: nat :: Ends(pages, query, None, n)
    ensures Ends(pages, query, None, n)
  {
    var n: nat :| Ends(pages, query, None, n); n
  }


  // ------------------------------------------------------------ processing one email

  datatype ProcessEmailResult = ProcessEmailResult(newUniqueId: Option<string>, fileNames: set<string>)

  /** `addLabel`: one modify request, or none when the label is not set. */
  function LabelRequest(id: MessageId, labelId: Option<string>): seq<Request> {
    if labelId.None? then [] else [Request.Modify(id, labelId.value)]
  }

  /** `removeOriginalMessage`: delete when asked to, trash otherwise. */
  function DisposalRequest(deleteOriginal: bool, id: MessageId): Request {
    if deleteOriginal then Request.Delete(id) else Request.Trash(id)
  }

  predicate IsDisposal(r: Request) {
    r.Trash? || r.Delete?
  }

  /** The requests for uploading the slim copy `copy` and disposing of `original`. */
  function Reinsertion(opt: ProcessOption, original: MessageId, copy: MessageId): seq<Request> {
    [Request.Insert, Request.GetMetadata(copy)] + CopyLabels(opt, copy)
    + [DisposalRequest(opt.shouldDeleteOriginal, original)]
  }

  /**
   * The requests `processEmail` sends once the message is fetched and
   * stripped, given whether any attachment was extracted and the id the
   * store will give the copy.
   */
  function AfterProcessing(opt: ProcessOption, extracted: bool, original: MessageId, copy: MessageId): seq<Request> {
    (if opt.shouldDownload && !opt.shouldRemove then LabelRequest(original, opt.downloadedLabelId) else [])
    + (if opt.shouldRemove && extracted then Reinsertion(opt, original, copy) else [])
  }

  /**
   * A copy is uploaded and the original disposed of exactly when removal is
   * asked for and some attachment was extracted; the disposal is then the
   * last request, of the kind the settings ask for, and comes after the
   * upload.
   */
  lemma AfterProcessingDisposal(opt: ProcessOption, extracted: bool, original: MessageId, copy: MessageId)
    ensures var plan := AfterProcessing(opt, extracted, original, copy);
            && (Request.Insert in plan <==> opt.shouldRemove && extracted)
            && ((exists i :: 0 <= i < |plan| && IsDisposal(plan[i])) <==> opt.shouldRemove && extracted)
            && (opt.shouldRemove && extracted ==>
                  && plan[0] == Request.Insert && plan[1] == Request.GetMetadata(copy)
                  && plan[|plan| - 1] == DisposalRequest(opt.shouldDeleteOriginal, original)
                  && forall i :: 0 <= i < |plan| - 1 ==> !IsDisposal(plan[i]))
  {
    if opt.shouldRemove && extracted {
      var plan := AfterProcessing(opt, extracted, original, copy);
      ReinsertionOrder(opt, original, copy);
      assert plan == Reinsertion(opt, original, copy);
      assert IsDisposal(plan[|plan| - 1]);
    } else {
      var plan := AfterProcessing(opt, extracted, original, copy);
      var labelOriginal := if opt.shouldDownload && !opt.shouldRemove then LabelRequest(original, opt.downloadedLabelId) else [];
      assert plan == labelOriginal;
      assert forall i :: 0 <= i < |plan| ==> plan[i].Modify?;
    }
  }

  /** The reinsertion starts with the upload and ends with the disposal, its only one. */
  lemma ReinsertionOrder(opt: ProcessOption, original: MessageId, copy: MessageId)
    ensures var plan := Reinsertion(opt, original, copy);
            && plan[0] == Request.Insert && plan[1] == Request.GetMetadata(copy)
            && plan[|plan| - 1] == DisposalRequest(opt.shouldDeleteOriginal, original)
            && IsDisposal(plan[|plan| - 1])
            && forall i :: 0 <= i < |plan| - 1 ==> !IsDisposal(plan[i])
  {
    var plan := Reinsertion(opt, original, copy);
    var labels := CopyLabels(opt, copy);
    CopyLabelsModify(opt, copy);
    forall i | 0 <= i < |plan| - 1 ensures !IsDisposal(plan[i]) {
      if i >= 2 {
        assert plan[i] == labels[i - 2];
      }
    }
  }


  /** Every request labelling the copy is a modify request on the copy, one per label that is set. */
  lemma CopyLabelsModify(opt: ProcessOption, copy: MessageId)
    ensures forall i :: 0 <= i < |CopyLabels(opt, copy)| ==>
              CopyLabels(opt, copy)[i].Modify? && CopyLabels(opt, copy)[i].id == copy
    ensures forall l :: Request.Modify(copy, l) in CopyLabels(opt, copy) <==>
              l == Starred || opt.removedLabelId == Some(l) || (opt.shouldDownload && opt.downloadedLabelId == Some(l))
  {
    var d := if opt.shouldDownload then LabelRequest(copy, opt.downloadedLabelId) else [];
    var rm := LabelRequest(copy, opt.removedLabelId);
    var st := LabelRequest(copy, Some(Starred));
    assert CopyLabels(opt, copy) == d + rm + st;
  }

  /**
   * The downloaded label goes on the original exactly when downloading
   * without removal, whatever was extracted; every other modify request
   * concerns the copy.
   */
  lemma AfterProcessingLabels(opt: ProcessOption, extracted: bool, original: MessageId, copy: MessageId, l: string)
    requires original != copy
    ensures var plan := AfterProcessing(opt, extracted, original, copy);
            && (Request.Modify(original, l) in plan <==>
                  opt.shouldDownload && !opt.shouldRemove && opt.downloadedLabelId == Some(l))
            && (Request.Modify(copy, l) in plan <==>
                  opt.shouldRemove && extracted
                  && (l == Starred || opt.removedLabelId == Some(l)
                      || (opt.shouldDownload && opt.downloadedLabelId == Some(l))))
  {
    var plan := AfterProcessing(opt, extracted, original, copy);
    if opt.shouldRemove && extracted {
      var labels := CopyLabels(opt, copy);
      CopyLabelsModify(opt, copy);
      var upload: seq<Request> := [Request.Insert, Request.GetMetadata(copy)];
      var disposal := [DisposalRequest(opt.shouldDeleteOriginal, original)];
      assert plan == upload + labels + disposal;
      assert Request.Modify(original, l) !in labels;
    }
  }

  /** The backup log: the untouched message goes to `<target>/<gmail id>.eml` when a backup is asked for. */
  function WithBackup(ctx: Context, w: seq<FileWrite>): seq<FileWrite> {
    if ctx.settings.processOption.shouldBackup
    then w + [BackupFile(ctx.settings.targetDirectory, ctx.email.gmailId)] else w
  }

  /** Whether stripping the tree extracts any attachment. */
  function Extracts(ctx: Context, body: Content): bool {
    Originals(ctx, Attachments(PreOrder(body))) != {}
  }

  /**
   * Every request `processEmail` sends, in order, when none fails: the fetch,
   * then, if the message has raw content, the requests after processing.
   */
  function ProcessPlan(ctx: Context, messages: map<MessageId, StoredMessage>, nextId: MessageId): seq<Request> {
    [Request.GetRaw(ctx.email.gmailId)] + AfterFetch(ctx, messages, nextId)
  }

  /** The requests after the fetch: none when the message is missing or has no raw content. */
  function AfterFetch(ctx: Context, messages: map<MessageId, StoredMessage>, nextId: MessageId): seq<Request> {
    var id := ctx.email.gmailId;
    if id in messages && messages[id].raw.Some?
    then AfterProcessing(ctx.settings.processOption, Extracts(ctx, messages[id].raw.value.body), id, nextId)
    else []
  }


  /** `labels` with `labelId` added when it is set. */
  function AddOptLabel(labels: seq<string>, labelId: Option<string>): (r: seq<string>)
    ensures forall l :: l in r <==> l in labels || labelId == Some(l)
    ensures labels <= r
  {
    if labelId.Some? then AddLabelId(labels, labelId.value) else labels
  }

  /** The store after `addLabel`: the label, when set, added to the message, when present. */
  function Labelled(m: map<MessageId, StoredMessage>, id: MessageId, labelId: Option<string>): map<MessageId, StoredMessage> {
    if id in m && labelId.Some?
    then m[id := m[id].(labelIds := AddLabelId(m[id].labelIds, labelId.value))]
    else m
  }

  /**
   * The labels of the copy once labelled: those of the original, the
   * downloaded label (when downloading), the removed label and STARRED.
   */
  function CopyLabelIds(opt: ProcessOption, labels: seq<string>): (r: seq<string>)
    ensures labels <= r
    ensures forall l :: l in r <==>
              || l in labels || l == Starred || opt.removedLabelId == Some(l)
              || (opt.shouldDownload && opt.downloadedLabelId == Some(l))
  {
    var downloaded := if opt.shouldDownload then AddOptLabel(labels, opt.downloadedLabelId) else labels;
    AddLabelId(AddOptLabel(downloaded, opt.removedLabelId), Starred)
  }

  /** The store after `removeOriginalMessage`: the message deleted, or kept and marked as trashed. */
  function Disposed(deleteOriginal: bool, m: map<MessageId, StoredMessage>, id: MessageId): map<MessageId, StoredMessage> {
    if deleteOriginal then m - {id}
    else if id in m then m[id := m[id].(trashed := true)]
    else m
  }

  /** `getMimeMessage`: a message without raw content is an error. */
  method GetMimeMessage(raw: Option<Raw>) returns (r: Result<MimeMessage>)
    ensures r.Success? <==> raw.Some?
    ensures r.Success? ==> fresh(r.value) && r.value.headers == raw.value.headers && r.value.content == raw.value.body
  {
    if raw.None? {
      return Failure("Unable to extract the contents of the email.");
    }
    var mimeMessage := new MimeMessage(raw.value.headers, raw.value.body);
    return Success(mimeMessage);
  }

  /** `backupEmail`: the message as fetched, saved as `<gmail id>.eml` in the target directory. */
  method BackupEmail(ctx: Context, fs: FileSystem)
    modifies fs
    ensures fs.written == old(fs.written) + [BackupFile(ctx.settings.targetDirectory, ctx.email.gmailId)]
  {
    fs.Write(BackupFile(ctx.settings.targetDirectory, ctx.email.gmailId));
  }

  /** `addLabel`: a label that is not set is skipped without a request. */
  method AddLabel(box: Mailbox, emailId: MessageId, labelId: Option<string>) returns (r: Result<()>)
    requires box.Valid()
    modifies box
    ensures box.Valid() && box.nextId == old(box.nextId)
    ensures box.calls == old(box.calls) + LabelRequest(emailId, labelId)
    ensures labelId.None? ==> r.Success?
    ensures labelId.Some? ==> (r.Success? <==> !old(box.Down()) && emailId in old(box.messages))
    ensures r.Success? ==> box.messages == Labelled(old(box.messages), emailId, labelId)
    ensures r.Failure? ==> box.messages == old(box.messages)
  {
    if labelId.None? {
      return Success(());
    }
    r := box.Modify(emailId, labelId.value);
  }

  /** `removeOriginalMessage`: delete when asked to, trash otherwise. */
  method RemoveOriginalMessage(box: Mailbox, deleteOriginal: bool, emailId: MessageId) returns (r: Result<()>)
    requires box.Valid()
    modifies box
    ensures box.Valid() && box.nextId == old(box.nextId)
    ensures box.calls == old(box.calls) + [DisposalRequest(deleteOriginal, emailId)]
    ensures r.Success? <==> !old(box.Down()) && emailId in old(box.messages)
    ensures r.Success? && deleteOriginal ==> box.messages == old(box.messages) - {emailId}
    ensures r.Success? && !deleteOriginal ==>
              box.messages == old(box.messages)[emailId := old(box.messages)[emailId].(trashed := true)]
    ensures r.Failure? ==> box.messages == old(box.messages)
  {
    if deleteOriginal {
      r := box.DeleteMessage(emailId);
    } else {
      r := box.TrashMessage(emailId);
    }
  }

  /** A request log that has grown by `done` is an initial segment of one that grows by `done + rest`. */
  lemma Issued(before: seq<Request>, done: seq<Request>, rest: seq<Request>)
    ensures before <= before + done
    ensures before + done <= before + (done + rest)
  {
    AppendAssociative(before, done, rest);
    PrefixOfSum(before + done, rest, before + (done + rest));
    PrefixOfSum(before, done, before + done);
  }

  /**
   * The original message is still there, neither trashed nor deleted by
   * this run, with its content unchanged.
   */
  ghost predicate OriginalKept(before: map<MessageId, StoredMessage>, after: map<MessageId, StoredMessage>, id: MessageId) {
    id in before ==> id in after && after[id].raw == before[id].raw && after[id].trashed == before[id].trashed
  }

  /**
   * What a failed run may leave behind: every message that was in the store
   * is still there unchanged, except the one under `next`, the id the store
   * was about to issue, which is at most the copy that was being uploaded.
   */
  ghost predicate OnlyCopyAdded(before: map<MessageId, StoredMessage>, after: map<MessageId, StoredMessage>, next: MessageId) {
    && after.Keys <= before.Keys + {next}
    && forall x :: x in before && x != next ==> x in after && after[x] == before[x]
  }

  /**
   * `updateRawMessage`, `insertSlimMessage`, `getMetadataForNewMessage` and
   * the Message-ID lookup: the fetched resource, its raw content replaced by
   * the slim message, is inserted, so the copy is stored under a fresh id
   * with the original's labels and thread, and its Message-ID is the one in
   * the headers it was uploaded with.
   */
  method UploadCopy(box: Mailbox, message: StoredMessage, slim: Raw) returns (r: Result<(MessageId, Option<string>)>)
    requires box.Valid()
    modifies box
    ensures box.Valid()
    ensures old(box.calls) <= box.calls <= old(box.calls) + [Request.Insert, Request.GetMetadata(old(box.nextId))]
    ensures r.Success? ==> box.calls == old(box.calls) + [Request.Insert, Request.GetMetadata(old(box.nextId))]
    ensures old(box.nextId) !in old(box.messages)
    ensures || box.messages == old(box.messages)
            || box.messages == old(box.messages)[old(box.nextId) := box.Inserted(slim, message.labelIds, message.threadId)]
    ensures r.Success? ==>
              && r.value.0 == old(box.nextId)
              && box.messages == old(box.messages)[r.value.0 := box.Inserted(slim, message.labelIds, message.threadId)]
              && r.value.1 == Get(HeaderMap(slim.headers), MessageIdHeader)
  {
    ghost var before := box.calls;
    var inserted := box.Insert(slim, message.labelIds, message.threadId);
    if inserted.Failure? {
      PrefixOfSum(before, [Request.Insert], before + [Request.Insert]);
      PrefixOfSum(before + [Request.Insert], [Request.GetMetadata(old(box.nextId))],
                  before + [Request.Insert, Request.GetMetadata(old(box.nextId))]);
      return Failure(inserted.error);
    }
    var copy := inserted.value;
    var newMessage := box.GetMetadata(copy);
    assert box.calls == before + [Request.Insert, Request.GetMetadata(copy)];
    if newMessage.Failure? {
      return Failure(newMessage.error);
    }
    var headerMap := GetHeaderMap(newMessage.value.headers);
    return Success((copy, Get(headerMap, MessageIdHeader)));
  }

  /** The labels the copy gets: downloaded (when downloading), removed, and starred. */
  function CopyLabels(opt: ProcessOption, copy: MessageId): seq<Request> {
    (if opt.shouldDownload then LabelRequest(copy, opt.downloadedLabelId) else [])
      + LabelRequest(copy, opt.removedLabelId) + LabelRequest(copy, Some(Starred))
  }

  /**
   * The labelling of the copy, stopping at the first request that fails;
   * when all succeed the copy carries exactly `CopyLabelIds` of its labels.
   */
  method LabelCopy(box: Mailbox, opt: ProcessOption, copy: MessageId) returns (r: Result<()>)
    requires box.Valid()
    modifies box
    ensures box.Valid() && box.nextId == old(box.nextId)
    ensures old(box.calls) <= box.calls <= old(box.calls) + CopyLabels(opt, copy)
    ensures r.Success? ==> box.calls == old(box.calls) + CopyLabels(opt, copy)
    ensures box.messages.Keys == old(box.messages).Keys
    ensures forall x :: x in old(box.messages) && x != copy ==> box.messages[x] == old(box.messages)[x]
    ensures copy in old(box.messages) ==>
              box.messages[copy] == old(box.messages)[copy].(labelIds := box.messages[copy].labelIds)
    ensures r.Success? ==>
              && copy in old(box.messages)
              && box.messages == old(box.messages)[copy := old(box.messages)[copy].(labelIds := CopyLabelIds(opt, old(box.messages)[copy].labelIds))]
  {
    ghost var before := box.calls;
    ghost var plan := CopyLabels(opt, copy);
    ghost var done: seq<Request> := [];
    ghost var m0 := box.messages;
    if opt.shouldDownload {
      r := AddLabel(box, copy, opt.downloadedLabelId);
      done := LabelRequest(copy, opt.downloadedLabelId);
      if r.Failure? {
        Issued(before, done, plan[|done|..]);
        assert plan == done + plan[|done|..];
        return;
      }
    }
    ghost var m1 := box.messages;
    assert m1 == if opt.shouldDownload then Labelled(m0, copy, opt.downloadedLabelId) else m0;
    r := AddLabel(box, copy, opt.removedLabelId);
    AppendAssociative(before, done, LabelRequest(copy, opt.removedLabelId));
    done := done + LabelRequest(copy, opt.removedLabelId);
    if r.Failure? {
      Issued(before, done, plan[|done|..]);
      assert plan == done + plan[|done|..];
      return;
    }
    ghost var m2 := box.messages;
    r := AddLabel(box, copy, Some(Starred));
    AppendAssociative(before, done, LabelRequest(copy, Some(Starred)));
    done := done + LabelRequest(copy, Some(Starred));
    Issued(before, plan, []);
    if r.Success? {
      LabelledThrice(opt, m0, m1, m2, box.messages, copy);
    }
  }

  /** Three successful `addLabel` calls on a message give it `CopyLabelIds` of its labels. */
  lemma LabelledThrice(opt: ProcessOption, m0: map<MessageId, StoredMessage>, m1: map<MessageId, StoredMessage>,
                       m2: map<MessageId, StoredMessage>, m3: map<MessageId, StoredMessage>, copy: MessageId)
    requires m1 == if opt.shouldDownload then Labelled(m0, copy, opt.downloadedLabelId) else m0
    requires m2 == Labelled(m1, copy, opt.removedLabelId)
    requires m3 == Labelled(m2, copy, Some(Starred))
    requires copy in m2
    ensures copy in m0
    ensures m3 == m0[copy := m0[copy].(labelIds := CopyLabelIds(opt, m0[copy].labelIds))]
  {
    assert m1.Keys == m0.Keys && m2.Keys == m1.Keys;
    var s := m0[copy];
    var downloaded := if opt.shouldDownload then AddOptLabel(s.labelIds, opt.downloadedLabelId) else s.labelIds;
    var removed := AddOptLabel(downloaded, opt.removedLabelId);
    if opt.shouldDownload {
      LabelledOnce(m0, copy, opt.downloadedLabelId);
    } else {
      assert m0[copy := s.(labelIds := downloaded)] == m0;
    }
    assert m1 == m0[copy := s.(labelIds := downloaded)];
    LabelledOnce(m1, copy, opt.removedLabelId);
    Overwrite(m0, copy, s.(labelIds := downloaded), s.(labelIds := removed));
    LabelledOnce(m2, copy, Some(Starred));
    Overwrite(m0, copy, s.(labelIds := removed), s.(labelIds := CopyLabelIds(opt, s.labelIds)));
  }

  /** A second update of the same key replaces the first. */
  lemma Overwrite<K, V>(m: map<K, V>, k: K, a: V, b: V)
    ensures m[k := a][k := b] == m[k := b]
  {
  }

  /** One `addLabel` on a present message sets its labels to `AddOptLabel` of them. */
  lemma LabelledOnce(m: map<MessageId, StoredMessage>, id: MessageId, labelId: Option<string>)
    requires id in m
    ensures Labelled(m, id, labelId) == m[id := m[id].(labelIds := AddOptLabel(m[id].labelIds, labelId))]
  {
    if labelId.None? {
      assert m[id := m[id]] == m;
    }
  }

  /**
   * The removal branch of `processEmail`: upload the slim copy of the
   * fetched `message`, read its Message-ID back, label it and then trash or
   * delete the original. The original is disposed of last, so a failure on
   * the way leaves it as it was.
   */
  method Reinsert(box: Mailbox, opt: ProcessOption, id: MessageId, message: StoredMessage, slim: Raw)
    returns (r: Result<Option<string>>)
    requires box.Valid() && id in box.messages
    modifies box
    ensures box.Valid()
    ensures old(box.calls) <= box.calls <= old(box.calls) + Reinsertion(opt, id, old(box.nextId))
    ensures r.Success? ==> box.calls == old(box.calls) + Reinsertion(opt, id, old(box.nextId))
    ensures r.Failure? ==> id in box.messages && box.messages[id] == old(box.messages)[id]
    ensures r.Failure? ==> OnlyCopyAdded(old(box.messages), box.messages, old(box.nextId))
    ensures r.Success? ==>
              var stored := box.Inserted(slim, message.labelIds, message.threadId)
                              .(labelIds := CopyLabelIds(opt, message.labelIds));
              && r.value == Get(HeaderMap(slim.headers), MessageIdHeader)
              && box.messages == Disposed(opt.shouldDeleteOriginal, old(box.messages)[old(box.nextId) := stored], id)
  {
    ghost var before := box.calls;
    ghost var m0 := box.messages;
    ghost var upload := [Request.Insert, Request.GetMetadata(box.nextId)];
    ghost var labelling := CopyLabels(opt, box.nextId);
    ghost var disposal := [DisposalRequest(opt.shouldDeleteOriginal, id)];
    assert Reinsertion(opt, id, box.nextId) == upload + (labelling + disposal);
    var uploaded := UploadCopy(box, message, slim);
    if uploaded.Failure? {
      PrefixOfSum(before + upload, labelling + disposal, before + (upload + (labelling + disposal)));
      return Failure(uploaded.error);
    }
    var (copy, newUniqueId) := uploaded.value;
    ghost var middle := box.calls;
    var labelled := LabelCopy(box, opt, copy);
    AppendAssociative(before, upload, labelling + disposal);
    if labelled.Failure? {
      AppendAssociative(middle, labelling, disposal);
      PrefixOfSum(middle + labelling, disposal, middle + (labelling + disposal));
      return Failure(labelled.error);
    }
    ghost var m2 := box.messages;
    var removed := RemoveOriginalMessage(box, opt.shouldDeleteOriginal, id);
    AppendAssociative(middle, labelling, disposal);
    if removed.Failure? {
      return Failure(removed.error);
    }
    assert m2 == m0[copy := box.Inserted(slim, message.labelIds, message.threadId)
                              .(labelIds := CopyLabelIds(opt, message.labelIds))];
    return Success(newUniqueId);
  }

  /**
   * The store once every request after the stripping has succeeded, for the
   * `message` fetched from `before` under `id` and its slim version `slim`.
   * When removal is asked for and something was extracted, the store holds
   * under `copy` the slim message with the original's labels and thread,
   * plus the downloaded, removed and starred labels, and the original is
   * trashed or deleted. Otherwise the store changes at most by the
   * downloaded label on the original, when downloading without removal.
   */
  ghost function Updated(box: Mailbox, opt: ProcessOption, before: map<MessageId, StoredMessage>, id: MessageId,
                         copy: MessageId, message: StoredMessage, slim: Raw, extracted: bool): map<MessageId, StoredMessage>
  {
    if opt.shouldRemove && extracted then
      var stored := box.Inserted(slim, message.labelIds, message.threadId)
                      .(labelIds := CopyLabelIds(opt, message.labelIds));
      Disposed(opt.shouldDeleteOriginal, before[copy := stored], id)
    else if opt.shouldDownload && !opt.shouldRemove then Labelled(before, id, opt.downloadedLabelId)
    else before
  }

  /**
   * The requests `processEmail` sends after stripping the fetched `message`
   * down to `slim`: the downloaded label on the original when downloading
   * without removal, or the reinsertion when removal is asked for and
   * something was extracted. The result is the copy's Message-ID, if any.
   */
  method UpdateMailbox(box: Mailbox, opt: ProcessOption, id: MessageId, message: StoredMessage, slim: Raw, extracted: bool)
    returns (r: Result<Option<string>>)
    requires box.Valid() && id in box.messages
    modifies box
    ensures box.Valid()
    ensures var plan := AfterProcessing(opt, extracted, id, old(box.nextId));
            && old(box.calls) <= box.calls <= old(box.calls) + plan
            && (r.Success? ==> box.calls == old(box.calls) + plan)
    ensures r.Failure? ==> OriginalKept(old(box.messages), box.messages, id)
    ensures r.Failure? ==> OnlyCopyAdded(old(box.messages), box.messages, old(box.nextId))
    ensures r.Success? ==>
              && r.value == (if opt.shouldRemove && extracted then Get(HeaderMap(slim.headers), MessageIdHeader) else None)
              && box.messages == Updated(box, opt, old(box.messages), id, old(box.nextId), message, slim, extracted)
  {
    ghost var before := box.calls;
    ghost var labelOriginal := if opt.shouldDownload && !opt.shouldRemove then LabelRequest(id, opt.downloadedLabelId) else [];
    ghost var reinsertion := if opt.shouldRemove && extracted then Reinsertion(opt, id, box.nextId) else [];
    ghost var plan := labelOriginal + reinsertion;
    assert plan == AfterProcessing(opt, extracted, id, old(box.nextId));
    PrefixOfSum(before, [], before);
    if opt.shouldDownload && !opt.shouldRemove {
      var labelled := AddLabel(box, id, opt.downloadedLabelId);
      assert plan == labelOriginal;
      PrefixOfSum(before, labelOriginal, box.calls);
      PrefixOfSum(box.calls, [], box.calls);
      if labelled.Failure? {
        return Failure(labelled.error);
      }
    }
    if opt.shouldRemove && extracted {
      assert plan == reinsertion;
      r := Reinsert(box, opt, id, message, slim);
      PrefixTransitive(before, before, box.calls);
      return;
    }
    return Success(None);
  }

  /**
   * What a successful `processEmail` leaves behind for the `message` it
   * fetched, stored under the email's id: the names and files of the
   * stripping pass (after the backup, when one is asked for), the store
   * `Updated` with the stripped tree under the headers rewritten on saving,
   * and, when a copy was uploaded, the Message-ID of those rewritten headers.
   */
  ghost predicate Processed(ctx: Context, box: Mailbox, before: map<MessageId, StoredMessage>,
                            after: map<MessageId, StoredMessage>, copy: MessageId, message: StoredMessage,
                            w: seq<FileWrite>, w': seq<FileWrite>, res: ProcessEmailResult)
    requires message.raw.Some?
  {
    var opt := ctx.settings.processOption;
    var raw := message.raw.value;
    var o := ProcessSpec(ctx, raw.body, WithBackup(ctx, w));
    var slim := Raw(ctx.updateHeaders(raw.headers, o.content), o.content);
    && res.fileNames == o.names
    && w' == o.written
    && res.newUniqueId == (if opt.shouldRemove && o.names != {} then Get(HeaderMap(slim.headers), MessageIdHeader) else None)
    && after == Updated(box, opt, before, ctx.email.gmailId, copy, message, slim, o.names != {})
  }

  /**
   * `processEmail` once the message is fetched and parsed: back up, strip,
   * then label the original or reinsert the slim copy.
   */
  method ProcessFetched(box: Mailbox, fs: FileSystem, ctx: Context, message: StoredMessage, mimeMessage: MimeMessage)
    returns (r: Result<ProcessEmailResult>)
    requires box.Valid() && ctx.email.gmailId in box.messages && box.messages[ctx.email.gmailId] == message
    requires message.raw.Some?
    requires mimeMessage.headers == message.raw.value.headers && mimeMessage.content == message.raw.value.body
    modifies box, fs, mimeMessage
    ensures box.Valid()
    ensures var plan := AfterProcessing(ctx.settings.processOption, Extracts(ctx, message.raw.value.body),
                                        ctx.email.gmailId, old(box.nextId));
            && old(box.calls) <= box.calls <= old(box.calls) + plan
            && (r.Success? ==> box.calls == old(box.calls) + plan)
    ensures r.Failure? ==> OriginalKept(old(box.messages), box.messages, ctx.email.gmailId)
    ensures r.Failure? ==> OnlyCopyAdded(old(box.messages), box.messages, old(box.nextId))
    ensures r.Success? ==> Processed(ctx, box, old(box.messages), box.messages, old(box.nextId),
                                     message, old(fs.written), fs.written, r.value)
  {
    ProcessNames(ctx, mimeMessage.content, WithBackup(ctx, fs.written));
    if ctx.settings.processOption.shouldBackup {
      BackupEmail(ctx, fs);
    }
    var fileNames := EmailProcessor.Process(ctx, mimeMessage, fs);
    assert fileNames != {} <==> Extracts(ctx, message.raw.value.body);
    var newUniqueId := UpdateMailbox(box, ctx.settings.processOption, ctx.email.gmailId, message,
                                     Raw(mimeMessage.headers, mimeMessage.content), fileNames != {});
    if newUniqueId.Failure? {
      return Failure(newUniqueId.error);
    }
    return Success(ProcessEmailResult(newUniqueId.value, fileNames));
  }

  /**
   * `processEmail`: fetch the message in raw form, parse it and process it.
   * A failed request ends the run with an error, leaving the requests sent
   * so far and the original in place; a message that is missing or has no
   * raw content ends it before anything is written or changed.
   */
  method ProcessEmail(box: Mailbox, fs: FileSystem, ctx: Context) returns (r: Result<ProcessEmailResult>)
    requires box.Valid()
    modifies box, fs
    ensures box.Valid()
    ensures old(box.calls) <= box.calls
    ensures box.calls <= old(box.calls) + ProcessPlan(ctx, old(box.messages), old(box.nextId))
    ensures r.Success? ==> box.calls == old(box.calls) + ProcessPlan(ctx, old(box.messages), old(box.nextId))
    ensures r.Failure? ==> OriginalKept(old(box.messages), box.messages, ctx.email.gmailId)
    ensures r.Failure? ==> OnlyCopyAdded(old(box.messages), box.messages, old(box.nextId))
    ensures ctx.email.gmailId !in old(box.messages) || old(box.messages)[ctx.email.gmailId].raw.None? ==>
              r.Failure? && fs.written == old(fs.written) && box.messages == old(box.messages)
    ensures r.Success? ==>
              && ctx.email.gmailId in old(box.messages) && old(box.messages)[ctx.email.gmailId].raw.Some?
              && Processed(ctx, box, old(box.messages), box.messages, old(box.nextId),
                           old(box.messages)[ctx.email.gmailId], old(fs.written), fs.written, r.value)
  {
    var id := ctx.email.gmailId;
    ghost var before := box.calls;
    ghost var rest := AfterFetch(ctx, box.messages, box.nextId);
    var message := box.GetRaw(id);
    AppendAssociative(before, [Request.GetRaw(id)], rest);
    PrefixOfSum(before, [Request.GetRaw(id)], box.calls);
    if message.Failure? {
      PrefixOfSum(box.calls, rest, before + ProcessPlan(ctx, old(box.messages), old(box.nextId)));
      return Failure(message.error);
    }
    var got := GetMimeMessage(message.value.raw);
    if got.Failure? {
      return Failure(got.error);
    }
    ghost var fetched := box.calls;
    r := ProcessFetched(box, fs, ctx, message.value, got.value);
    PrefixTransitive(before, fetched, box.calls);
  }
}
