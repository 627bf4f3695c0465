# Unattach core, modelled in Dafny

Unattach is a desktop tool that removes attachments from Gmail messages. It
searches the mailbox for messages, downloads each selected message in raw
form, and saves its attachments to a local directory. It then uploads a
"slim" copy of the message without those attachments and trashes or deletes
the original. It can also add labels and append to the message's text and
HTML bodies a trailer that lists the removed files.

This project models two parts of that tool:

- the attachment-stripping pass over a message's MIME tree (`EmailProcessor`);
- the Gmail-facing steps of `LiveModel`:
  - the search listing, page by page;
  - the per-message metadata callback and the batch that drives it;
  - the header map;
  - the full `processEmail` pipeline.

Files:

| file | module | contents |
|---|---|---|
| `wrappers.dfy` | `Wrappers` | `Option` and `Result` |
| `text.dfy` | `Text` | The `java.lang.String` operations the core relies on: `contains`/`replace`, `trim`, ASCII `toLowerCase`, and `compareTo` as a strict order. |
| `sorted_map.dfy` | `SortedMap` | A `TreeMap<String, String>` as a strictly sorted list of entries, tied to a Dafny `map`. |
| `model.dfy` | `Model` | `Email`, `ProcessOption`, `ProcessSettings`, and the local filesystem as a log of files written. |
| `mime.dfy` | `Mime` | The MIME tree: part identity, pre-order walk, removal of parts, the Content-Type charset fix, and replacing a part's content. |
| `gmail.dfy` | `Gmail` | The remote mailbox: stored messages, the request log, and one method per API call the core makes. |
| `email_processor.dfy` | `EmailProcessing` | The pure specification of the pass, the class `EmailProcessor` proved against it, and lemmas about what the pass does. |
| `live_model.dfy` | `Live` | The header map, the search listing, the metadata callback and batch, and `processEmail` with its request plan. |

How the model is built:

- **The MIME tree** is a datatype. Each part carries a `PartId` that stands for JavaMail's object identity. "Remove this body part from its parent" is therefore pruning by id.
- **`EmailProcessor`** is a class with the Java fields:
  - the file counter;
  - the list of copied parts;
  - the sorted original-to-normalized filename map;
  - the two main-part slots.

  Each of its methods is proved to compute a pure function of the old state: `Handle`, `HandleAll`, `Prune`, `AddReferences`. The static `Process` is proved equal to `ProcessSpec`. Lemmas then state what `ProcessSpec` yields:
  - the exact set of names;
  - the files written;
  - the absence of attachments in the result;
  - the parts that survive, with their content;
  - the first-claimed main parts;
  - the last copy winning in the name map;
  - the trailers.
- **The mailbox** is a class holding:
  - the stored messages;
  - the next id it assigns;
  - the log of requests sent;
  - a fixed set of positions in that log at which a request fails.

  Every mailbox method appends its request to the log, so every `LiveModel` operation is proved against a request plan:
  - the requests it sends are always a prefix of the plan;
  - on success they are the whole plan.

  Separate lemmas about the plans state the ordering the pipeline promises:
  - nothing is inserted or disposed of unless attachments were removed;
  - the original is disposed of last and only once;
  - each label lands on the right message.

## Model

| member | source | states |
|---|---|---|
| `Text.ReplaceAll` | src/main/java/app/unattach/model/EmailProcessor.java:78 | Replacing every occurrence of a non-empty pattern by a text that is no longer than it never makes the string longer. |
| `Text.ReplaceAllAbsent` | src/main/java/app/unattach/model/EmailProcessor.java:77-78 | When the pattern does not occur, `replace` returns the string unchanged. |
| `Text.ReplaceAllShrinks` | src/main/java/app/unattach/model/EmailProcessor.java:77-78 | When the pattern occurs and the replacement is shorter, the result is strictly shorter. This is why the charset fix changes the header only when `contains` holds. |
| `Text.ContainsNeedsLength` | src/main/java/app/unattach/model/EmailProcessor.java:77 | A string can only contain a pattern that is no longer than itself. |
| `Text.TrimStartSpec` | src/main/java/app/unattach/model/EmailProcessor.java:127 | The left trim is a suffix of the input. Everything it drops is a control character or space. Its first character is not one. |
| `Text.TrimEndSpec` | src/main/java/app/unattach/model/EmailProcessor.java:127 | The right trim is a prefix of the input. Everything it drops is trimmable. Its last character is not trimmable. |
| `Text.TrimSpec` | src/main/java/app/unattach/model/EmailProcessor.java:127 | `trim` returns a slice `s[i..j]` with only trimmable characters outside it, and it neither starts nor ends with a trimmable character. |
| `Text.TrimIdempotent` | src/main/java/app/unattach/model/EmailProcessor.java:127 | Trimming twice equals trimming once. |
| `Text.ToLower` | src/main/java/app/unattach/model/LiveModel.java:355 | Lower-casing keeps the length, maps every character by `LowerChar`, and leaves no ASCII upper-case letter. This is `toLowerCase()` under a default locale that lower-cases ASCII to ASCII. |
| `Text.ToLowerIdempotent` | src/main/java/app/unattach/model/LiveModel.java:355 | Lower-casing twice equals lower-casing once, so header keys are stable. |
| `Text.LtIrreflexive` | src/main/java/app/unattach/model/EmailProcessor.java:42 | The `compareTo` order on keys is irreflexive. |
| `Text.LtTransitive` | src/main/java/app/unattach/model/EmailProcessor.java:42 | The key order is transitive. |
| `Text.LtTotal` | src/main/java/app/unattach/model/EmailProcessor.java:42 | Any two distinct keys are ordered one way or the other. |
| `Text.LtAsymmetric` | src/main/java/app/unattach/model/EmailProcessor.java:42 | The key order is asymmetric. |
| `SortedMap.PutKeys` | src/main/java/app/unattach/model/EmailProcessor.java:117 | After `put(k, v)` the key set is the old key set plus `k`. |
| `SortedMap.PutToMap` | src/main/java/app/unattach/model/EmailProcessor.java:117 | After `put(k, v)` the map is the old map with `k` bound to `v`, so a later put overwrites an earlier one. |
| `SortedMap.PutSorted` | src/main/java/app/unattach/model/EmailProcessor.java:117 | `put` keeps the entries strictly sorted. It grows the entry list by one exactly when the key is new. |
| `SortedMap.ToMapKeys` | src/main/java/app/unattach/model/EmailProcessor.java:54 | `keySet()` is the domain of the map the entries denote. |
| `SortedMap.SortedSize` | src/main/java/app/unattach/model/EmailProcessor.java:137 | For sorted entries, `size()` equals the number of distinct keys. |
| `SortedMap.KeysEmpty` | src/main/java/app/unattach/model/EmailProcessor.java:137 | `size() == 0` exactly when no key is present. |
| `SortedMap.SortedUnique` | src/main/java/app/unattach/model/EmailProcessor.java:168 | Two sorted entry lists that denote the same map are equal, so `entrySet()` order is determined by the map's contents alone. |
| `SortedMap.SortedEntries` | src/main/java/app/unattach/model/EmailProcessor.java:168 | Every map has a sorted entry list that denotes it. This is the iteration order of `entrySet()`. |
| `SortedMap.SortedDropHead` | src/main/java/app/unattach/model/EmailProcessor.java:168 | The first entry of a sorted map is its binding for the least key, and the rest is the sorted map without that key. |
| `Mime.FixContentType` | src/main/java/app/unattach/model/EmailProcessor.java:69-82 | The Content-Type values change if and only if there is exactly one value and it contains `iso-8859-8-i`. It then becomes that value with every occurrence replaced by `iso-8859-8`. |
| `Mime.FixContentSameShapes` | src/main/java/app/unattach/model/EmailProcessor.java:63 | Fixing content types adds or removes no part. The tree keeps the same parts, ids, dispositions and filenames. |
| `Mime.FixContentKeepsShapes` | src/main/java/app/unattach/model/EmailProcessor.java:57-67 | The fix keeps the pre-order walk position by position. |
| `Mime.PruneRemoves` | src/main/java/app/unattach/model/EmailProcessor.java:130-134 | After removal, no part left in the tree has a removed id. Every remaining part was in the tree before. |
| `Mime.PruneKeeps` | src/main/java/app/unattach/model/EmailProcessor.java:130-134 | Removal keeps exactly the `Kept` parts: those such that neither they nor any part above them has a removed id. Every other part is gone. This is stated by id, disposition and filename; `Mime.PruneTraversal` states what each survivor keeps. |
| `Mime.PruneTraversal` | src/main/java/app/unattach/model/EmailProcessor.java:130-134 | Removal keeps the survivors (`Survivors`: the parts with no removed id on or above them) in traversal order, each as it was except for the removed parts below it. A surviving single-body part keeps its header and its content unchanged. A surviving multipart keeps its header and its other children, in order. |
| `Mime.SurvivorsShapes` | src/main/java/app/unattach/model/EmailProcessor.java:130-134 | The survivors are exactly the parts `Kept` describes. |
| `Mime.SurvivorsIn` | src/main/java/app/unattach/model/EmailProcessor.java:130-134 | Every survivor is a part of the original tree, and its id was not removed. |
| `Mime.FixTraversal` | src/main/java/app/unattach/model/EmailProcessor.java:57-82 | The Content-Type fix rewrites each part where it stands. The walk of the fixed tree is the original walk with each part's header fixed, so no part moves and every single-body part keeps its content. |
| `Mime.SurvivorsFix` | src/main/java/app/unattach/model/EmailProcessor.java:57-82 | The fix moves no part, so the survivors of the fixed tree are the original survivors with their headers fixed. |
| `Mime.FixPruneTraversal` | src/main/java/app/unattach/model/EmailProcessor.java:48-49 | After the walk's fix and the removal, the tree holds the original survivors in traversal order, each with its header fixed. A surviving single-body part keeps its content, and a surviving multipart keeps its children other than the removed ones. |
| `Mime.KeptFix` | src/main/java/app/unattach/model/EmailProcessor.java:57-67 | The Content-Type fix does not change which parts survive a removal. |
| `Mime.FixContentLeaf` | src/main/java/app/unattach/model/EmailProcessor.java:57-67 | The Content-Type fix turns no single-body part into a multipart. |
| `Mime.PruneLeaf` | src/main/java/app/unattach/model/EmailProcessor.java:130-134 | Removing parts turns no single-body part into a multipart. |
| `Mime.PruneNothing` | src/main/java/app/unattach/model/EmailProcessor.java:130-134 | Removing ids that are not in the tree changes nothing. |
| `Mime.PruneTwice` | src/main/java/app/unattach/model/EmailProcessor.java:131-133 | Removing one set of parts and then another equals removing their union, so the removal order does not matter. |
| `Mime.FindIn` | src/main/java/app/unattach/model/EmailProcessor.java:142-150 | A part found by id is in the walk and has that id. When none is found, no part of the walk has that id. |
| `Mime.SetContentFound` | src/main/java/app/unattach/model/EmailProcessor.java:145 | After `setContent` on a part that is in the tree, that part is still found and holds the new content. |
| `Mime.SetContentNotFound` | src/main/java/app/unattach/model/EmailProcessor.java:142-151 | Setting the content of a part that is no longer in the tree leaves the tree unchanged. |
| `Mime.SetContentShapes` | src/main/java/app/unattach/model/EmailProcessor.java:145 | Setting a part's content to a single body brings no new part into the tree. |
| `Mime.SetContentLeaf` | src/main/java/app/unattach/model/EmailProcessor.java:142-150 | Setting a part's content to a single body turns no other single-body part into a multipart. |
| `Mime.SetContentTraversal` | src/main/java/app/unattach/model/EmailProcessor.java:142-151 | When the parts with the given id are single-body parts, `setContent` moves no part. Each part is rewritten where it stands: only a part with that id gets the new header and body, and every other single-body part is left exactly as it was. |
| `Mime.SetContentKeeps` | src/main/java/app/unattach/model/EmailProcessor.java:142-150 | When every part with the given id is a single-body part, setting its content to a single body keeps the tree's parts, ids, dispositions and filenames exactly. |
| `Mime.PreOrderPartsAppend` | src/main/java/app/unattach/model/EmailProcessor.java:60-65 | The walk of a list of sibling parts is the walk of its first half followed by the walk of its second half. |
| `Mime.FindInAppend` | src/main/java/app/unattach/model/EmailProcessor.java:142-150 | Searching a concatenated walk finds the first occurrence. |
| `Model.FileSystem.Write` | src/main/java/app/unattach/model/EmailProcessor.java:108-114 | A written file is appended to the log, and nothing else changes. |
| `Gmail.PartFileNames` | src/main/java/app/unattach/model/LiveModel.java:260-263 | One filename per top-level part, in order. |
| `Gmail.MetadataOf` | src/main/java/app/unattach/model/LiveModel.java:344-349 | The metadata response carries the message id and its headers. It has a `parts` list exactly when the stored message has content and that content is multipart. |
| `Gmail.AddLabelId` | src/main/java/app/unattach/model/LiveModel.java:213-216 | After `addLabelIds` the label is on the message, and the labels are exactly the old ones plus it. |
| `Gmail.Mailbox.ListMessages` | src/main/java/app/unattach/model/LiveModel.java:297-299 | `messages.list` logs one request and changes no message. It succeeds unless the mailbox is down, and it then returns that page. |
| `Gmail.Mailbox.GetRaw` | src/main/java/app/unattach/model/LiveModel.java:173-177 | `messages.get` in raw format logs one request and changes nothing. It succeeds exactly when the mailbox is up and holds the id. It returns the whole stored message: raw content (possibly absent), labels and thread. |
| `Gmail.Mailbox.GetMetadata` | src/main/java/app/unattach/model/LiveModel.java:225-228 | `messages.get` for metadata logs one request and changes nothing. It succeeds exactly when the mailbox is up and holds the id, and it returns that message's metadata. |
| `Gmail.Mailbox.Insert` | src/main/java/app/unattach/model/LiveModel.java:219-223 | `messages.insert` logs one request. On success it stores, under a fresh id, the given raw content with the given labels and thread, not trashed, dated from its headers. On failure it changes nothing. |
| `Gmail.Mailbox.Modify` | src/main/java/app/unattach/model/LiveModel.java:213-216 | `messages.modify` logs one request. On success it adds the label to that message and to no other. It fails when the mailbox is down or the id is absent, and then changes nothing. |
| `Gmail.Mailbox.TrashMessage` | src/main/java/app/unattach/model/LiveModel.java:235-236 | `messages.trash` logs one request. On success it marks just that message as trashed. On failure it changes nothing. |
| `Gmail.Mailbox.DeleteMessage` | src/main/java/app/unattach/model/LiveModel.java:232-233 | `messages.delete` logs one request. On success it removes just that message. On failure it changes nothing. |
| `EmailProcessing.GetFilename` | src/main/java/app/unattach/model/EmailProcessor.java:122-128 | A filename is reported exactly when the part names a file. A decoded name that trims to empty is still reported. |
| `EmailProcessing.GetFilenameTrimmed` | src/main/java/app/unattach/model/EmailProcessor.java:127 | The reported filename is already trimmed. |
| `EmailProcessing.HandleAllAppend` | src/main/java/app/unattach/model/EmailProcessor.java:57-67 | Handling the parts of two consecutive stretches of the walk equals handling the first and then the second. |
| `EmailProcessing.HandleAllStep` | src/main/java/app/unattach/model/EmailProcessor.java:60-64 | Handling a part in the middle of the walk equals handling everything before it, then it, then everything after it. |
| `EmailProcessing.HandleConsistent` | src/main/java/app/unattach/model/EmailProcessor.java:100-120 | Handling one part keeps the counter equal to the number of copied parts. |
| `EmailProcessing.HandleAllConsistent` | src/main/java/app/unattach/model/EmailProcessor.java:57-67 | The whole walk keeps the counter equal to the number of copied parts. |
| `EmailProcessing.Attachments` | src/main/java/app/unattach/model/EmailProcessor.java:96-105 | The attachments of a walk are parts with a disposition and a filename. |
| `EmailProcessing.AttachmentsExactly` | src/main/java/app/unattach/model/EmailProcessor.java:85-86 | A part is among the attachments exactly when it is in the walk, has a disposition and names a file. |
| `EmailProcessing.HandleAllCopies` | src/main/java/app/unattach/model/EmailProcessor.java:106 | The walk copies exactly the attachments, in walk order. The counter advances by their number. |
| `EmailProcessing.HandleAllKeys` | src/main/java/app/unattach/model/EmailProcessor.java:117 | After the walk, the map's keys are exactly the old keys plus the attachments' original filenames. |
| `EmailProcessing.HandleAllWrites` | src/main/java/app/unattach/model/EmailProcessor.java:107-115 | When downloading, exactly one file is written per attachment, in walk order. Each is named from the counter value it was given and timestamped as the email. |
| `EmailProcessing.HandleAllWritesNothing` | src/main/java/app/unattach/model/EmailProcessor.java:107 | When not downloading, no file is written. |
| `EmailProcessing.HandleSkips` | src/main/java/app/unattach/model/EmailProcessor.java:103-105 | A part without a disposition or filename changes neither the counter, the copies, the map nor the files. |
| `EmailProcessing.NamesFromLastCopy` | src/main/java/app/unattach/model/EmailProcessor.java:106-117 | Each original filename maps to the normalized name of its last attachment. That name uses the counter value that attachment got, because a later `put` overwrites an earlier one. |
| `EmailProcessing.NamesFromLaterCopy` | src/main/java/app/unattach/model/EmailProcessor.java:106-117 | The same property for an attachment after the first, in the proof's inductive step. |
| `EmailProcessing.NamesFromFirstCopy` | src/main/java/app/unattach/model/EmailProcessor.java:106-117 | The same property when the first part is the last copy of its name. |
| `EmailProcessing.NamesUntouched` | src/main/java/app/unattach/model/EmailProcessor.java:117 | A filename that no attachment carries keeps its old binding, or stays absent. |
| `EmailProcessing.HandleClaims` | src/main/java/app/unattach/model/EmailProcessor.java:88-92 | A part claims the main text or HTML slot only when it is not downloadable, has that MIME type, and the slot is empty. |
| `EmailProcessing.MainPartIsFirst` | src/main/java/app/unattach/model/EmailProcessor.java:84-94 | After the walk, a main slot that was empty holds the first claimable part of that type in walk order. It stays empty exactly when there is none. |
| `EmailProcessing.LinesAppend` | src/main/java/app/unattach/model/EmailProcessor.java:168-174 | The lines for two consecutive runs of entries are the lines of the first run followed by those of the second. |
| `EmailProcessing.LinesAt` | src/main/java/app/unattach/model/EmailProcessor.java:168-174 | Entry `i` contributes exactly its own line, between the lines of the entries before and after it. |
| `EmailProcessing.TextTrailerLists` | src/main/java/app/unattach/model/EmailProcessor.java:162-184 | The text trailer keeps the old text as a prefix. Each map entry appears as its own " - original - link" line after the heading, and the information block follows. |
| `EmailProcessing.TextTrailerExtends` | src/main/java/app/unattach/model/EmailProcessor.java:164-165 | The new text starts with the old text. |
| `EmailProcessing.HtmlSuffixLists` | src/main/java/app/unattach/model/EmailProcessor.java:188-210 | The HTML suffix lists each map entry as its own `<li>` link item, between the heading and the information block. |
| `EmailProcessing.AddReferencesShapes` | src/main/java/app/unattach/model/EmailProcessor.java:136-152 | Adding the references brings no part into the tree. |
| `EmailProcessing.AddReferencesKeeps` | src/main/java/app/unattach/model/EmailProcessor.java:136-152 | When the main parts are single-body parts, adding the references keeps the tree's parts exactly: it removes none either. |
| `EmailProcessing.TextTrailerAt` | src/main/java/app/unattach/model/EmailProcessor.java:142-146 | When the main text part is a single-body part wherever its id appears, the text step keeps every part in its place, with its id, disposition and filename. A multipart keeps its header. Only the main text part changes: it gets the UTF-8 `text/plain` header and its text followed by the trailer. |
| `EmailProcessing.HtmlTrailerAt` | src/main/java/app/unattach/model/EmailProcessor.java:147-151 | The same for the HTML step: only the main HTML part changes, to the UTF-8 `text/html` header and its document with the HTML trailer appended inside the body. |
| `EmailProcessing.TextTrailerAdded` | src/main/java/app/unattach/model/EmailProcessor.java:142-146 | The main text part, when still in the tree, ends up holding its old text followed by the trailer, as a `text/plain` body. |
| `EmailProcessing.ProcessNames` | src/main/java/app/unattach/model/EmailProcessor.java:54 | The names returned are exactly the original filenames of the attachments. |
| `EmailProcessing.ProcessWrites` | src/main/java/app/unattach/model/EmailProcessor.java:100-120 | The files written are exactly one per attachment, in order, when downloading, and none otherwise. |
| `EmailProcessing.ProcessStripsAttachments` | src/main/java/app/unattach/model/EmailProcessor.java:45-55 | The processed tree holds no part with a disposition and a filename, and no part that was not in the input. |
| `EmailProcessing.ProcessKeepsTheRest` | src/main/java/app/unattach/model/EmailProcessor.java:45-55 | With distinct part ids, the parts removed are exactly the recordable ones. The processed tree keeps exactly the `Kept` parts: every part that is not recordable and lies under no recordable part survives, with its id, disposition and filename. `EmailProcessing.ProcessKeepsContent` states what each survivor keeps. |
| `EmailProcessing.ProcessKeepsContent` | src/main/java/app/unattach/model/EmailProcessor.java:45-55 | With distinct part ids, the processed tree holds exactly the survivors of the original, in traversal order, with their ids, dispositions and filenames. A surviving multipart stays a multipart under its fixed Content-Type. Every surviving single-body part is `Finished`: it keeps its content, with only its Content-Type fixed. The exceptions are the main text and HTML parts when references are added and some name was recorded: they get a UTF-8 header and their old body with the trailer. |
| `EmailProcessing.ProcessKeepsLeafData` | src/main/java/app/unattach/model/EmailProcessor.java:45-55 | With distinct part ids, every surviving single-body part of the input is in the processed tree with the same id, disposition and filename. Its data is unchanged unless it is the main text or HTML part taking a trailer. The main text part's new text starts with its old text. |
| `EmailProcessing.FinishedLeaf` | src/main/java/app/unattach/model/EmailProcessor.java:136-152 | A finished single-body part keeps its id, disposition and filename. Its content is unchanged, except for the main parts when the trailers are added: those get the text body with the trailer, which starts with the old text, or the HTML body with the trailer. |
| `EmailProcessing.MainPartLeaf` | src/main/java/app/unattach/model/EmailProcessor.java:84-94 | With distinct part ids, a claimed main text or HTML part is the only part with its id, and it is a single-body part. |
| `EmailProcessing.ProcessWithoutAttachments` | src/main/java/app/unattach/model/EmailProcessor.java:45-55 | A message without attachments comes back with only its charset headers fixed. It yields no names and writes no file. |
| `EmailProcessing.EmailProcessor.constructor` | src/main/java/app/unattach/model/EmailProcessor.java:37-43 | A new processor starts with counter 0, no copies, an empty map and empty main slots. |
| `EmailProcessing.EmailProcessor.CopyBodyPartToDisk` | src/main/java/app/unattach/model/EmailProcessor.java:100-120 | The new state is `Copy` of the old state. A part without a filename is skipped. Otherwise the counter advances, the file is written when downloading, the part is recorded, and its names are put in the map. |
| `EmailProcessing.EmailProcessor.HandleBodyPart` | src/main/java/app/unattach/model/EmailProcessor.java:84-94 | The new state is `Handle` of the old state. A downloadable part is copied; otherwise it may claim a main slot. |
| `EmailProcessing.EmailProcessor.ExploreContent` | src/main/java/app/unattach/model/EmailProcessor.java:57-67 | The recursive walk leaves the state `HandleAll` over the pre-order walk of the tree. It returns the tree with its Content-Type headers fixed. |
| `EmailProcessing.EmailProcessor.RemoveCopiedBodyParts` | src/main/java/app/unattach/model/EmailProcessor.java:130-134 | The loop leaves the message's tree pruned of every copied part. |
| `EmailProcessing.EmailProcessor.GenerateTextSuffix` | src/main/java/app/unattach/model/EmailProcessor.java:162-184 | The loop builds exactly `TextTrailer`, whose layout `TextTrailerLists` states. |
| `EmailProcessing.EmailProcessor.GenerateHtmlSuffix` | src/main/java/app/unattach/model/EmailProcessor.java:186-214 | The loop builds exactly `HtmlSuffix`, whose layout `HtmlSuffixLists` states. That suffix is appended to the document body. |
| `EmailProcessing.EmailProcessor.AddReferencesToContent` | src/main/java/app/unattach/model/EmailProcessor.java:136-152 | The message's tree becomes `AddReferences` of the old tree: unchanged when the map is empty, otherwise the text trailer and then the HTML trailer. |
| `EmailProcessing.EmailProcessor.Process` | src/main/java/app/unattach/model/EmailProcessor.java:45-55 | The tree, the returned names and the files written are exactly what `ProcessSpec` describes. The lemmas above state what that is. `EmailProcessing.ProcessKeepsContent` and `EmailProcessing.ProcessKeepsLeafData` add that every surviving part keeps its content, apart from the Content-Type fix and the trailers on the main parts. The headers become those `saveChanges` writes for the new tree. |
| `Live.Get` | src/main/java/app/unattach/model/LiveModel.java:162 | `Map.get` gives a value exactly when the key is present, and that value is the bound one. |
| `Live.GetHeaderMap` | src/main/java/app/unattach/model/LiveModel.java:351-358 | The loop builds exactly the lower-cased header map. |
| `Live.HeaderMapKeys` | src/main/java/app/unattach/model/LiveModel.java:354-356 | A key is in the header map exactly when some header's lower-cased name equals it. |
| `Live.HeaderMapLast` | src/main/java/app/unattach/model/LiveModel.java:354-356 | For repeated header names, the last header's value wins. |
| `Live.NonBlankFileNames` | src/main/java/app/unattach/model/LiveModel.java:262-263 | The attachment list keeps only non-blank filenames and is no longer than the parts list. |
| `Live.NonBlankExactly` | src/main/java/app/unattach/model/LiveModel.java:262-263 | A name is in the attachment list exactly when some part has it as its filename and it is not blank. |
| `Live.NonBlankAppend` | src/main/java/app/unattach/model/LiveModel.java:262-263 | The filter works part by part and keeps order. |
| `Live.LiveModel.constructor` | src/main/java/app/unattach/model/LiveModel.java:78 | The search result list starts empty. |
| `Live.LiveModel.OnSuccess` | src/main/java/app/unattach/model/LiveModel.java:251-277 | A message without parts is skipped. Otherwise exactly one `Email` built from the header map and the non-blank filenames is appended. |
| `Live.LiveModel.FetchOne` | src/main/java/app/unattach/model/LiveModel.java:344-349 | One metadata request is sent. On success the callback's effect on the email list follows. |
| `Live.LiveModel.FetchBatch` | src/main/java/app/unattach/model/LiveModel.java:282-288 | The batch sends the metadata requests for `ids[start..end]` in order and stops at the first failure. On success the list has grown by `BatchEmails` of those ids, and the mailbox's messages are untouched. |
| `Live.BatchEmailsFrom` | src/main/java/app/unattach/model/LiveModel.java:260-266 | Every email the batch adds comes from a listed id that has multipart content, and its attachments are those part filenames that are not blank. |
| `Live.MetadataRequests` | src/main/java/app/unattach/model/LiveModel.java:284-286 | The batch queues one request per id. |
| `Live.MetadataRequestsInOrder` | src/main/java/app/unattach/model/LiveModel.java:284-286 | Request `i` of the batch asks for the metadata of id `i`. |
| `Live.BatchStep` | src/main/java/app/unattach/model/LiveModel.java:284-286 | One more index adds one more request and at most one more email. |
| `Live.BatchPrefix` | src/main/java/app/unattach/model/LiveModel.java:284-286 | The requests for a range are those for its first part followed by those for the rest. |
| `Live.GetEmailIds` | src/main/java/app/unattach/model/LiveModel.java:292-312 | The search sends one list request per page, following page tokens until a page is missing, has no messages or has no next token. On success it returns the ids of all those pages, concatenated. On failure it has sent a prefix of those requests. |
| `Live.CollectBound` | src/main/java/app/unattach/model/LiveModel.java:295-310 | The collected ids and the requests do not depend on which page bound is used to show that the listing ends. |
| `Live.ListStep` | src/main/java/app/unattach/model/LiveModel.java:299-310 | Each list request either ends the loop (null response, null messages or null token) or contributes its ids and continues from the next token. |
| `Live.Bound` | src/main/java/app/unattach/model/LiveModel.java:295-310 | When the listing ends, a page count at which it ends exists. |
| `Live.AfterProcessingDisposal` | src/main/java/app/unattach/model/LiveModel.java:154-169 | A copy is inserted, and the original trashed or deleted, exactly when removal is on and some attachment was extracted. The insert comes first, then the copy's metadata fetch, and the disposal of the original comes last and only once. |
| `Live.ReinsertionOrder` | src/main/java/app/unattach/model/LiveModel.java:157-169 | The re-upload sends the insert, then the metadata fetch for the copy, then its labels, and only then disposes of the original. |
| `Live.CopyLabelsModify` | src/main/java/app/unattach/model/LiveModel.java:163-167 | The copy gets `STARRED`, the removed label when set, and the downloaded label when downloading and set, and no other label. |
| `Live.AfterProcessingLabels` | src/main/java/app/unattach/model/LiveModel.java:154-167 | The original gets the downloaded label exactly when downloading without removing. The copy gets exactly the labels above, and only when it exists. |
| `Live.GetMimeMessage` | src/main/java/app/unattach/model/LiveModel.java:179-188 | Parsing fails exactly when the response has no raw content. Otherwise it yields a fresh message holding those headers and that tree. |
| `Live.BackupEmail` | src/main/java/app/unattach/model/LiveModel.java:190-198 | The backup writes `<gmailId>.eml` into the target directory. |
| `Live.AddLabel` | src/main/java/app/unattach/model/LiveModel.java:208-217 | An unset label sends nothing, succeeds and changes nothing. Otherwise one modify request is sent. It succeeds exactly when the mailbox is up and holds the message. On success the label is added to that message and to no other; on failure nothing changes. |
| `Live.AddOptLabel` | src/main/java/app/unattach/model/LiveModel.java:208-217 | The labels afterwards are exactly the old ones plus the label, when it is set. |
| `Live.CopyLabelIds` | src/main/java/app/unattach/model/LiveModel.java:159-167 | The copy's final labels are exactly the original's labels plus `STARRED`, the removed label when set, and the downloaded label when downloading and set. |
| `Live.LabelledOnce` | src/main/java/app/unattach/model/LiveModel.java:208-217 | One `addLabel` on a message present in the store sets its labels to `AddOptLabel` of them. |
| `Live.LabelledThrice` | src/main/java/app/unattach/model/LiveModel.java:163-167 | The three successful `addLabel` calls on the copy leave its labels at `CopyLabelIds` of the labels it was inserted with. |
| `Live.RemoveOriginalMessage` | src/main/java/app/unattach/model/LiveModel.java:230-238 | The original is deleted when asked, else trashed. On failure nothing changes. |
| `Live.UploadCopy` | src/main/java/app/unattach/model/LiveModel.java:158-162 | The fetched message, with its raw content replaced by the slim message, is inserted, and its metadata fetched. On success the copy is stored under a fresh id with the slim content and the original's labels and thread, and the new unique id is its `message-id` header. Nothing else changes. |
| `Live.LabelCopy` | src/main/java/app/unattach/model/LiveModel.java:163-167 | The copy's label requests are sent in order, stopping at the first failure. Only the copy's labels change. On success its labels are exactly `CopyLabelIds` of the ones it had. |
| `Live.Reinsert` | src/main/java/app/unattach/model/LiveModel.java:158-168 | On success the store holds the slim copy with the original's thread and `CopyLabelIds` of its labels, and the original is deleted or trashed. Nothing else changes. The result is the copy's `message-id`. On failure every message that was in the store is exactly as it was, and at most the copy under the id being issued is added (`OnlyCopyAdded`). |
| `Live.ProcessFetched` | src/main/java/app/unattach/model/LiveModel.java:149-170 | After the fetch, the steps send a prefix of the plan (all of it on success). On failure the original keeps its content and trash flag, every message that was in the store is unchanged, and at most the copy under the id being issued is added (`OnlyCopyAdded`). On success the result's names and files are those of the stripping pass, and the store ends in the `Updated` state, as `Processed` states. |
| `Live.UpdateMailbox` | src/main/java/app/unattach/model/LiveModel.java:154-168 | The requests after stripping are a prefix of the plan (all of it on success). On failure the original keeps its content and trash flag. More generally, every message that was in the store is unchanged, and at most the copy under the id being issued is added (`OnlyCopyAdded`). On success the store is exactly `Updated`: the downloaded label on the original when downloading without removal; when removal is on and something was extracted, the labelled slim copy plus the original trashed or deleted; otherwise unchanged. The result is the copy's Message-ID, or none when no copy was made. |
| `Live.ProcessEmail` | src/main/java/app/unattach/model/LiveModel.java:145-171 | `processEmail` sends a prefix of its plan, and all of it on success. A missing message or one without raw content fails before any file is written or the store changes. On other failures the original keeps its content and trash flag, every message that was in the store is unchanged, and at most the copy under the id being issued is added (`OnlyCopyAdded`). On success the result's names are the attachments' original filenames and the files written are those of the pass. If removal is on and something was extracted, the slim copy is stored with the headers `saveChanges` wrote, the original's labels and thread and the copy labels; the new unique id is the Message-ID of those headers, and the original is deleted or trashed. Otherwise no copy is made, and the original gains at most the downloaded label. |

## Left out

- Exceptions from JavaMail parsing, `getContent`, and decoding are not modelled. The MIME parse of a present raw message is taken to succeed, and a missing raw message is the one failure (`GetMimeMessage`).
- The attachment bytes, base64 and base64url coding, and `writeTo` serialization are not modelled. The header rewrite of `saveChanges` (EmailProcessor.java:53) is a function carried in the processing context, left unconstrained. It gives the slim message a new Message-ID, and the model does not say which headers it changes. The slim message is those headers with the processed tree (`updateRawMessage`).
- `FilenameFactory`, `MimeUtility.decodeText`, Jsoup's parse/append/print and the `Constants` values are not modelled. They are functions carried in the processing context. The clock reading and the local host name are values in that context.
- `EmailProcessing.EmailProcessor.CopyBodyPartToDisk`: the file counter is an unbounded `nat`. The Java `int` would wrap after 2^31 attachments in one message.
- `Text.Lt`: this is lexicographic order on characters. Java's `compareTo` compares UTF-16 code units, which differs for characters outside the Basic Multilingual Plane.
- `Text.ToLower`: this maps only ASCII letters. It is `toLowerCase()` under a default locale in which ASCII lower-cases to ASCII. Other scripts and the Turkish and Azeri mapping of `I` to dotless `ı` are not modelled. See the notes below.
- `Text.Trim` drops characters up to U+0020, as Java's `trim` does.
- The tree is a value rather than a graph of mutable parts. `setContent` and `removeBodyPart` rebuild it. A main part has no disposition, so it is never itself removed. When it lies inside a removed ancestor, though, the model skips its trailer, whereas Java would write into the detached part; the message is the same either way.
- `Mime.IsMimeType`: a leaf's `mimeType` stands for the parsed base type `isMimeType` compares against: the Content-Type's `type/subtype`, lower-cased and without parameters, or `text/plain` when the header is absent. The model does not derive it from the part's `contentType` values.
- `Gmail.PartFileNames`: lists each top-level part's `fileName` as the MIME header carries it, which may still be RFC 2047 or RFC 2231 encoded. Gmail's `MessagePart.filename` is the decoded name. The decoding is not modelled.
- The `Paths.get` call inside the HTML loop (EmailProcessor.java:196-198) has no effect and is not modelled.
- `Live.LiveModel.FetchBatch`: the batch sends its requests one after another and stops at the first failed request. The real batch is sent in one HTTP call, and a failure raised from the callback may leave other callbacks run.
- `Live.GetEmailIds`: requires that the listing ends after finitely many pages, since the Java loop has no bound of its own. `Thread.sleep` between pages is not modelled.
- `Live.GetEmailIds`: the `setFields("messages/id")` field mask of the list request (LiveModel.java:297) is not modelled. Each page is taken to carry its next page token as the mailbox holds it. See the notes below.
- Part ids stand for JavaMail's object identity, which is unique. The datatype does not enforce this. `EmailProcessing.ProcessKeepsTheRest`, `EmailProcessing.ProcessKeepsContent`, `EmailProcessing.ProcessKeepsLeafData` and `EmailProcessing.MainPartLeaf` require distinct ids (`Mime.UniqueIds`). The other lemmas hold for any ids, with removal and `setContent` acting on every part that carries the id.
- `getIdToLabel`, `createLabel`, sign-in, the HTTP client, `getConfig` and the task wrappers (`getProcessTask`, `getSearchTask`'s task object) are outside the modelled core.
- Concurrency between tasks and quota accounting are not modelled. Only failure is modelled, as a fixed set of request positions that fail.
- `processEmail`'s `setFields` projections are folded into `MetadataOf`. The metadata of the freshly inserted copy is read from the stored message.

## Notes on the source

The model follows the code in these behaviours, which a reader might not expect:

- A part whose decoded filename trims to the empty string is still saved and listed; only a missing filename skips it.
- The HTML trailer has no download-directory line, only the host name. The text trailer has both.
- With downloading on and removal off, the original gets the downloaded label even when no attachment was found.
- Under a Turkish or Azeri default locale, `toLowerCase()` (LiveModel.java:355) turns `Message-ID` into `message-ıd`. The lookups of `message-id` at LiveModel.java:162 and :254 would then return null. This follows from Java's documented `toLowerCase` behaviour and was not executed.
- The list request at LiveModel.java:297 asks only for the `messages/id` field. A response restricted to that field would carry no `nextPageToken`, so the loop at LiveModel.java:295-310 would stop after the first page. This follows from the field-mask semantics and was not executed.
