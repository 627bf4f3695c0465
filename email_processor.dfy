/**
 * `EmailProcessor`: one pass over a message's MIME tree that saves every
 * attachment, detaches the saved parts, and (optionally) appends to the main
 * text and HTML parts a trailer listing what was removed.
 *
 * The pass is specified by pure functions over the tree (`Handle`,
 * `HandleAll`, `AddReferences`, `ProcessSpec`); the class `EmailProcessor`
 * below walks the tree the way the Java class does and is proved to compute
 * exactly what they describe.
 */
module EmailProcessing {

  import opened Wrappers
  import opened Text
  import opened SortedMap
  import opened Model
  import opened Mime

  const TextPlain := "text/plain"
  const TextHtml := "text/html"
  const TextPlainUtf8 := "text/plain; charset=utf-8"
  const TextHtmlUtf8 := "text/html; charset=utf-8"
  const FileLinkPrefix := "https://unattach.appspot.com/get_file/"
  const UnknownHost := "(unknown)"

  /** `Constants.PRODUCT_NAME`, `Constants.VERSION`, `Constants.HOMEPAGE`. */
  datatype Branding = Branding(productName: string, version: string, homepage: string)

  /**
   * Everything one processing run depends on besides the tree. The helpers the
   * core calls but does not define are parameters: the filename schema
   * (`FilenameFactory.getFilename(email, counter, original)`), RFC 2047 word
   * decoding (`MimeUtility.decodeText`), appending HTML to a document's body
   * and printing it back (Jsoup), the header fields `saveChanges` rewrites
   * for the new content (among them a fresh Message-ID), the clock's reading
   * and the local host name (`None` when the host cannot be resolved).
   */
  datatype Context = Context(
    email: Email,
    settings: ProcessSettings,
    newFilename: (Email, nat, string) -> string,
    decodeText: string -> string,
    appendToBody: (string, string) -> string,
    updateHeaders: (seq<Header>, Content) -> seq<Header>,
    brand: Branding,
    now: string,
    localHost: Option<string>)

  function Hostname(localHost: Option<string>): string {
    if localHost.Some? then localHost.value else UnknownHost
  }

  /**
   * The original filename of a part: none when the part names no file,
   * otherwise the decoded name with surrounding control characters and
   * spaces trimmed (possibly empty).
   */
  function GetFilename(ctx: Context, p: Part): (r: Option<string>)
    ensures r.Some? <==> p.fileName.Some?
  {
    if p.fileName.None? then None else Some(Original(ctx, p))
  }

  function Original(ctx: Context, p: Part): string
    requires p.fileName.Some?
  {
    Trim(ctx.decodeText(p.fileName.value))
  }

  /** An original filename is already trimmed: trimming it again changes nothing. */
  lemma GetFilenameTrimmed(ctx: Context, p: Part)
    requires p.fileName.Some?
    ensures Trim(Original(ctx, p)) == Original(ctx, p)
  {
    TrimIdempotent(ctx.decodeText(p.fileName.value));
  }

  /** A part with a Content-Disposition is treated as an attachment. */
  predicate IsDownloadable(p: Part) {
    p.disposition.Some?
  }

  /** An attachment that also names a file: the parts that get saved and detached. */
  predicate Recordable(p: Part) {
    p.disposition.Some? && p.fileName.Some?
  }

  /** A part that may become the main body part of type `t`. */
  predicate Claimable(p: Part, t: string) {
    p.disposition.None? && IsMimeType(p, t)
  }

  // ------------------------------------------------------------ the walk's state

  /**
   * What the walk has gathered: the file counter, the ids of the saved parts
   * in the order they were saved, the original-to-normalized filename map,
   * the main text and HTML parts, and the files written so far.
   */
  datatype Extraction = Extraction(
    fileCounter: nat,
    copied: seq<PartId>,
    names: map<string, string>,
    mainText: Option<PartId>,
    mainHtml: Option<PartId>,
    written: seq<FileWrite>)

  function Start(written: seq<FileWrite>): Extraction {
    Extraction(0, [], map[], None, None, written)
  }

  /**
   * The invariant of the walk's state: the counter counts the saved parts,
   * and the filename map has no more entries than parts were saved.
   */
  predicate Consistent(s: Extraction) {
    s.fileCounter == |s.copied| && |s.names| <= |s.copied|
  }

  /** The file an attachment is saved to, given its ordinal among the saved parts. */
  function SavedFile(ctx: Context, ordinal: nat, original: string): FileWrite {
    AttachmentFile(PathOf(ctx.settings.targetDirectory, ctx.newFilename(ctx.email, ordinal, original)),
                   ctx.email.timestamp)
  }

  /** `copyBodyPartToDisk` as a state transformer. */
  function Copy(ctx: Context, s: Extraction, p: Part): Extraction {
    if p.fileName.None? then s
    else
      var original := Original(ctx, p);
      var normalized := ctx.newFilename(ctx.email, s.fileCounter, original);
      s.(fileCounter := s.fileCounter + 1,
         copied := s.copied + [p.id],
         names := s.names[original := normalized],
         written := if ctx.settings.processOption.shouldDownload
                    then s.written + [SavedFile(ctx, s.fileCounter, original)]
                    else s.written)
  }

  /** `handleBodyPart` as a state transformer. */
  function Handle(ctx: Context, s: Extraction, p: Part): Extraction {
    if IsDownloadable(p) then Copy(ctx, s, p)
    else if IsMimeType(p, TextPlain) && s.mainText.None? then s.(mainText := Some(p.id))
    else if IsMimeType(p, TextHtml) && s.mainHtml.None? then s.(mainHtml := Some(p.id))
    else s
  }

  /** `handleBodyPart` on each part of a traversal, in order. */
  function HandleAll(ctx: Context, s: Extraction, ps: seq<Part>): Extraction
    decreases |ps|
  {
    if ps == [] then s else HandleAll(ctx, Handle(ctx, s, ps[0]), ps[1..])
  }

  lemma {:induction false} HandleAllAppend(ctx: Context, s: Extraction, a: seq<Part>, b: seq<Part>)
    ensures HandleAll(ctx, s, a + b) == HandleAll(ctx, HandleAll(ctx, s, a), b)
    decreases |a|
  {
    if a == [] {
      assert a + b == b;
    } else {
      assert (a + b)[1..] == a[1..] + b;
      HandleAllAppend(ctx, Handle(ctx, s, a[0]), a[1..], b);
    }
  }

  /** Handling a part, then the parts below it, after the parts before it. */
  lemma HandleAllStep(ctx: Context, s: Extraction, before: seq<Part>, p: Part, below: seq<Part>)
    ensures HandleAll(ctx, s, before + [p] + below)
            == HandleAll(ctx, Handle(ctx, HandleAll(ctx, s, before), p), below)
  {
    HandleAllAppend(ctx, s, before + [p], below);
    HandleAllAppend(ctx, s, before, [p]);
    assert HandleAll(ctx, HandleAll(ctx, s, before), [p]) == Handle(ctx, HandleAll(ctx, s, before), p);
  }

  /** Handling a part keeps the state consistent. */
  lemma HandleConsistent(ctx: Context, s: Extraction, p: Part)
    requires Consistent(s)
    ensures Consistent(Handle(ctx, s, p))
  {
  }

  /**
   * Whatever the parts, a consistent state stays consistent: the filename
   * map never has more keys than parts were saved, since two attachments
   * with the same original name share one entry.
   */
  lemma {:induction false} HandleAllConsistent(ctx: Context, s: Extraction, ps: seq<Part>)
    requires Consistent(s)
    ensures Consistent(HandleAll(ctx, s, ps))
    decreases |ps|
  {
    if ps != [] {
      HandleConsistent(ctx, s, ps[0]);
      HandleAllConsistent(ctx, Handle(ctx, s, ps[0]), ps[1..]);
    }
  }

  // -------------------------------------------------------- what gets recorded

  /** The parts of a traversal that are saved, in traversal order. */
  function Attachments(ps: seq<Part>): (a: seq<Part>)
    ensures forall i :: 0 <= i < |a| ==> Recordable(a[i])
  {
    if ps == [] then []
    else (if Recordable(ps[0]) then [ps[0]] else []) + Attachments(ps[1..])
  }

  /** Every attachment that names a file is among the saved parts, and only those are. */
  lemma {:induction false} AttachmentsExactly(ps: seq<Part>, p: Part)
    ensures p in Attachments(ps) <==> p in ps && Recordable(p)
  {
    if ps != [] {
      AttachmentsExactly(ps[1..], p);
      assert ps == [ps[0]] + ps[1..];
    }
  }

  function PartIds(a: seq<Part>): (r: seq<PartId>)
    ensures |r| == |a|
  {
    if a == [] then [] else [a[0].id] + PartIds(a[1..])
  }

  /** The original filenames of some saved parts. */
  function Originals(ctx: Context, a: seq<Part>): set<string> {
    set p | p in a && p.fileName.Some? :: Original(ctx, p)
  }

  /** The files the saved parts are written to, numbered from `ordinal`. */
  function SavedFiles(ctx: Context, ordinal: nat, a: seq<Part>): (r: seq<FileWrite>)
    requires forall i :: 0 <= i < |a| ==> a[i].fileName.Some?
    ensures |r| == |a|
    decreases |a|
  {
    if a == [] then [] else [SavedFile(ctx, ordinal, Original(ctx, a[0]))] + SavedFiles(ctx, ordinal + 1, a[1..])
  }

  /**
   * The walk saves exactly the attachments that name a file, in traversal
   * order: their ids are appended to the saved list and the counter advances
   * by their number.
   */
  lemma {:induction false} HandleAllCopies(ctx: Context, s: Extraction, ps: seq<Part>)
    ensures HandleAll(ctx, s, ps).copied == s.copied + PartIds(Attachments(ps))
    ensures HandleAll(ctx, s, ps).fileCounter == s.fileCounter + |Attachments(ps)|
    decreases |ps|
  {
    if ps == [] {
      assert PartIds([]) == [];
    } else {
      var p := ps[0];
      var s' := Handle(ctx, s, p);
      HandleAllCopies(ctx, s', ps[1..]);
      assert HandleAll(ctx, s, ps) == HandleAll(ctx, s', ps[1..]);
      var a' := Attachments(ps[1..]);
      if Recordable(p) {
        assert s'.copied == s.copied + [p.id] && s'.fileCounter == s.fileCounter + 1;
        assert Attachments(ps) == [p] + a';
        assert PartIds(Attachments(ps)) == [p.id] + PartIds(a');
        assert s.copied + [p.id] + PartIds(a') == s.copied + ([p.id] + PartIds(a'));
      } else {
        HandleSkips(ctx, s, p);
        assert Attachments(ps) == a';
      }
    }
  }

  /** The map's keys are the original names of the saved parts, added to those it had. */
  lemma {:induction false} HandleAllKeys(ctx: Context, s: Extraction, ps: seq<Part>)
    ensures HandleAll(ctx, s, ps).names.Keys == s.names.Keys + Originals(ctx, Attachments(ps))
    decreases |ps|
  {
    if ps != [] {
      var p := ps[0];
      HandleAllKeys(ctx, Handle(ctx, s, p), ps[1..]);
      var a' := Attachments(ps[1..]);
      if Recordable(p) {
        assert Attachments(ps) == [p] + a';
        var original := Original(ctx, p);
        assert Originals(ctx, Attachments(ps)) == {original} + Originals(ctx, a');
      } else {
        HandleSkips(ctx, s, p);
        assert Attachments(ps) == a';
      }
    }
  }

  /**
   * When downloading, one file per saved part is written, in traversal order
   * and with consecutive ordinals.
   */
  lemma {:induction false} HandleAllWrites(ctx: Context, s: Extraction, ps: seq<Part>)
    requires ctx.settings.processOption.shouldDownload
    ensures HandleAll(ctx, s, ps).written == s.written + SavedFiles(ctx, s.fileCounter, Attachments(ps))
    decreases |ps|
  {
    if ps == [] {
      assert SavedFiles(ctx, s.fileCounter, []) == [];
    } else {
      var p := ps[0];
      HandleAllWrites(ctx, Handle(ctx, s, p), ps[1..]);
      if Recordable(p) {
        HandleAllWritesStep(ctx, s, ps);
      } else {
        HandleSkips(ctx, s, p);
        assert Attachments(ps) == Attachments(ps[1..]);
      }
    }
  }

  lemma HandleAllWritesStep(ctx: Context, s: Extraction, ps: seq<Part>)
    requires ctx.settings.processOption.shouldDownload && ps != [] && Recordable(ps[0])
    requires var s' := Handle(ctx, s, ps[0]);
             HandleAll(ctx, s', ps[1..]).written == s'.written + SavedFiles(ctx, s'.fileCounter, Attachments(ps[1..]))
    ensures HandleAll(ctx, s, ps).written == s.written + SavedFiles(ctx, s.fileCounter, Attachments(ps))
  {
    var p := ps[0];
    var file := SavedFile(ctx, s.fileCounter, Original(ctx, p));
    var later := SavedFiles(ctx, s.fileCounter + 1, Attachments(ps[1..]));
    var s' := Handle(ctx, s, p);
    assert s'.written == s.written + [file] && s'.fileCounter == s.fileCounter + 1;
    assert HandleAll(ctx, s, ps).written == s'.written + later;
    assert Attachments(ps) == [p] + Attachments(ps[1..]);
    assert SavedFiles(ctx, s.fileCounter, Attachments(ps)) == [file] + later;
    AppendAssociative(s.written, [file], later);
  }

  lemma AppendAssociative<T>(a: seq<T>, b: seq<T>, c: seq<T>)
    ensures a + b + c == a + (b + c)
  {
  }

  /** Without downloading, the walk writes nothing. */
  lemma {:induction false} HandleAllWritesNothing(ctx: Context, s: Extraction, ps: seq<Part>)
    requires !ctx.settings.processOption.shouldDownload
    ensures HandleAll(ctx, s, ps).written == s.written
    decreases |ps|
  {
    if ps != [] {
      HandleAllWritesNothing(ctx, Handle(ctx, s, ps[0]), ps[1..]);
    }
  }

  /** A part that is not saved leaves the counter, the saved list, the map and the files alone. */
  lemma HandleSkips(ctx: Context, s: Extraction, p: Part)
    requires !Recordable(p)
    ensures var r := Handle(ctx, s, p);
            r.fileCounter == s.fileCounter && r.copied == s.copied && r.names == s.names && r.written == s.written
  {
  }

  /** The last of the saved parts named `k` gives the map's entry for `k` its value. */
  lemma {:induction false} NamesFromLastCopy(ctx: Context, s: Extraction, ps: seq<Part>, j: nat)
    requires j < |Attachments(ps)|
    requires forall i :: j < i < |Attachments(ps)| ==>
               Original(ctx, Attachments(ps)[i]) != Original(ctx, Attachments(ps)[j])
    ensures var k := Original(ctx, Attachments(ps)[j]);
            k in HandleAll(ctx, s, ps).names
            && HandleAll(ctx, s, ps).names[k] == ctx.newFilename(ctx.email, s.fileCounter + j, k)
    decreases |ps|, 1
  {
    var p := ps[0];
    if !Recordable(p) {
      var s' := Handle(ctx, s, p);
      assert HandleAll(ctx, s, ps) == HandleAll(ctx, s', ps[1..]);
      HandleSkips(ctx, s, p);
      assert Attachments(ps) == Attachments(ps[1..]);
      NamesFromLastCopy(ctx, s', ps[1..], j);
    } else {
      if j == 0 {
        NamesFromFirstCopy(ctx, s, ps);
      } else {
        NamesFromLaterCopy(ctx, s, ps, j);
      }
    }
  }

  /** `NamesFromLastCopy` when the first part is saved and the one named is a later one. */
  lemma {:induction false} NamesFromLaterCopy(ctx: Context, s: Extraction, ps: seq<Part>, j: nat)
    requires ps != [] && Recordable(ps[0])
    requires 0 < j < |Attachments(ps)|
    requires forall i :: j < i < |Attachments(ps)| ==>
               Original(ctx, Attachments(ps)[i]) != Original(ctx, Attachments(ps)[j])
    ensures var k := Original(ctx, Attachments(ps)[j]);
            k in HandleAll(ctx, s, ps).names
            && HandleAll(ctx, s, ps).names[k] == ctx.newFilename(ctx.email, s.fileCounter + j, k)
    decreases |ps|, 0
  {
    var s' := Handle(ctx, s, ps[0]);
    var a := Attachments(ps);
    var a' := Attachments(ps[1..]);
    assert a == [ps[0]] + a';
    assert HandleAll(ctx, s, ps) == HandleAll(ctx, s', ps[1..]);
    assert s'.fileCounter == s.fileCounter + 1;
    assert a[j] == a'[j - 1];
    forall i | j - 1 < i < |a'| ensures Original(ctx, a'[i]) != Original(ctx, a'[j - 1]) {
      assert a[i + 1] == a'[i];
    }
    NamesFromLastCopy(ctx, s', ps[1..], j - 1);
  }

  /** The first saved part, when no later one has its name, gives the map's entry for that name. */
  lemma NamesFromFirstCopy(ctx: Context, s: Extraction, ps: seq<Part>)
    requires ps != [] && Recordable(ps[0])
    requires forall i :: 0 < i < |Attachments(ps)| ==>
               Original(ctx, Attachments(ps)[i]) != Original(ctx, ps[0])
    ensures var k := Original(ctx, ps[0]);
            k in HandleAll(ctx, s, ps).names
            && HandleAll(ctx, s, ps).names[k] == ctx.newFilename(ctx.email, s.fileCounter, k)
  {
    var p := ps[0];
    var s' := Handle(ctx, s, p);
    var a := Attachments(ps);
    var a' := Attachments(ps[1..]);
    var k := Original(ctx, p);
    assert a == [p] + a';
    forall q | q in a' && q.fileName.Some? ensures Original(ctx, q) != k {
      var i :| 0 <= i < |a'| && a'[i] == q;
      assert a[i + 1] == q;
    }
    assert k !in Originals(ctx, a');
    NamesUntouched(ctx, s', ps[1..], k);
    assert s'.names == s.names[k := ctx.newFilename(ctx.email, s.fileCounter, k)];
  }

  /** A key that no saved part is named keeps the value it had. */
  lemma {:induction false} NamesUntouched(ctx: Context, s: Extraction, ps: seq<Part>, k: string)
    requires k !in Originals(ctx, Attachments(ps))
    ensures k in HandleAll(ctx, s, ps).names <==> k in s.names
    ensures k in s.names ==> HandleAll(ctx, s, ps).names[k] == s.names[k]
    decreases |ps|
  {
    if ps != [] {
      var p := ps[0];
      var a' := Attachments(ps[1..]);
      if Recordable(p) {
        assert Attachments(ps) == [p] + a';
        assert Originals(ctx, a') <= Originals(ctx, Attachments(ps));
        var original := Original(ctx, p);
        assert original in Originals(ctx, Attachments(ps));
      } else {
        HandleSkips(ctx, s, p);
        assert Attachments(ps) == a';
      }
      NamesUntouched(ctx, Handle(ctx, s, p), ps[1..], k);
    }
  }

  // ------------------------------------------------------- the main body parts

  /** The main part of type `t` a state has claimed. */
  function MainPart(s: Extraction, t: string): Option<PartId> {
    if t == TextPlain then s.mainText else s.mainHtml
  }

  lemma HandleClaims(ctx: Context, s: Extraction, p: Part, t: string)
    requires t == TextPlain || t == TextHtml
    ensures MainPart(Handle(ctx, s, p), t)
            == if Claimable(p, t) && MainPart(s, t).None? then Some(p.id) else MainPart(s, t)
  {
  }

  /**
   * The main text (HTML) part is claimed once and never replaced: it is the
   * first part of the traversal that is of that type and is not an
   * attachment, and it stays unclaimed exactly when there is no such part.
   */
  lemma {:induction false} MainPartIsFirst(ctx: Context, s: Extraction, ps: seq<Part>, t: string)
    requires t == TextPlain || t == TextHtml
    ensures var r := MainPart(HandleAll(ctx, s, ps), t);
            && (MainPart(s, t).Some? ==> r == MainPart(s, t))
            && (MainPart(s, t).None? ==> (r.None? <==> forall i :: 0 <= i < |ps| ==> !Claimable(ps[i], t)))
            && (MainPart(s, t).None? && r.Some? ==>
                  exists i :: 0 <= i < |ps| && ps[i].id == r.value && Claimable(ps[i], t)
                              && forall h :: 0 <= h < i ==> !Claimable(ps[h], t))
    decreases |ps|
  {
    if ps != [] {
      var p := ps[0];
      var s' := Handle(ctx, s, p);
      HandleClaims(ctx, s, p, t);
      MainPartIsFirst(ctx, s', ps[1..], t);
      var r := MainPart(HandleAll(ctx, s, ps), t);
      if MainPart(s, t).None? {
        if Claimable(p, t) {
          assert r == Some(p.id);
        } else {
          assert forall i :: 0 < i < |ps| ==> ps[i] == ps[1..][i - 1];
          if r.Some? {
            var i :| 0 <= i < |ps[1..]| && ps[1..][i].id == r.value && Claimable(ps[1..][i], t)
                     && forall h :: 0 <= h < i ==> !Claimable(ps[1..][h], t);
            assert ps[i + 1].id == r.value && Claimable(ps[i + 1], t);
            assert forall h :: 0 <= h < i + 1 ==> !Claimable(ps[h], t);
          }
        }
      }
    }
  }

  // ----------------------------------------------------------------- trailers

  /** One line per entry, in the order of the entries. */
  function Lines(es: seq<Entry>, line: Entry -> string): string
    decreases |es|
  {
    if es == [] then "" else Lines(es[..|es| - 1], line) + line(es[|es| - 1])
  }

  lemma {:induction false} LinesAppend(a: seq<Entry>, b: seq<Entry>, line: Entry -> string)
    ensures Lines(a + b, line) == Lines(a, line) + Lines(b, line)
    decreases |b|
  {
    if b == [] {
      assert a + b == a;
    } else {
      var n := |b| - 1;
      assert (a + b)[..|a + b| - 1] == a + b[..n];
      LinesAppend(a, b[..n], line);
      AppendAssociative(Lines(a, line), Lines(b[..n], line), line(b[n]));
    }
  }

  /**
   * The lines for a sequence of entries are the lines for the entries before
   * the `i`-th, then the `i`-th entry's line, then the lines after it: every
   * entry is listed once, in its place.
   */
  lemma {:induction false} LinesAt(es: seq<Entry>, line: Entry -> string, i: nat)
    requires i < |es|
    ensures Lines(es, line) == Lines(es[..i], line) + line(es[i]) + Lines(es[i + 1..], line)
  {
    var upTo := es[..i + 1];
    var rest := es[i + 1..];
    assert es == upTo + rest;
    LinesAppend(upTo, rest, line);
    LinesSnoc(es, line, i);
  }

  /** Replacing the middle of a concatenation by its three pieces. */
  lemma Splice<T>(pre: seq<T>, mid: seq<T>, a: seq<T>, b: seq<T>, c: seq<T>, post: seq<T>)
    requires mid == a + b + c
    ensures pre + mid + post == pre + a + b + c + post
  {
  }

  /** The lines for the first `i + 1` entries extend those for the first `i` by the `i`-th line. */
  lemma LinesSnoc(es: seq<Entry>, line: Entry -> string, i: nat)
    requires i < |es|
    ensures Lines(es[..i + 1], line) == Lines(es[..i], line) + line(es[i])
  {
    assert es[..i + 1][..i] == es[..i];
  }

  const Rule := "=========================================\n"
  const TextHeading := "\n\n\n" + Rule + "Previous attachments:\n"

  function TextLine(e: Entry): string {
    " - " + e.key + " - " + FileLinkPrefix + e.value + "\n"
  }

  /** The closing block of the text trailer; the download target only when downloading. */
  function TextInfo(ctx: Context, dateTime: string, host: string): string {
    "\nInformation about the change:\n"
    + " - Made with:                 " + ctx.brand.productName + " " + ctx.brand.version + "\n"
    + " - Date and time:             " + dateTime + "\n"
    + (if ctx.settings.processOption.shouldDownload then
         " - Download target hostname:  " + host + "\n"
         + " - Download target directory: " + ctx.settings.targetDirectory + "\n"
       else "")
  }

  /** The text trailer: the body, a rule, one line per entry, then the block about the change. */
  function TextTrailer(ctx: Context, text: string, es: seq<Entry>, dateTime: string, host: string): string {
    text + TextHeading + Lines(es, TextLine) + TextInfo(ctx, dateTime, host)
  }

  /**
   * The text trailer keeps the body it extends as its prefix, and lists the
   * `i`-th entry after all earlier entries and before all later ones.
   */
  lemma TextTrailerLists(ctx: Context, text: string, es: seq<Entry>, dateTime: string, host: string, i: nat)
    requires i < |es|
    ensures HasPrefix(TextTrailer(ctx, text, es, dateTime, host), text)
    ensures TextTrailer(ctx, text, es, dateTime, host)
            == text + TextHeading + Lines(es[..i], TextLine) + TextLine(es[i])
               + Lines(es[i + 1..], TextLine) + TextInfo(ctx, dateTime, host)
  {
    LinesAt(es, TextLine, i);
    Splice(text + TextHeading, Lines(es, TextLine), Lines(es[..i], TextLine), TextLine(es[i]),
           Lines(es[i + 1..], TextLine), TextInfo(ctx, dateTime, host));
    TextTrailerExtends(ctx, text, es, dateTime, host);
  }

  /** The text trailer keeps the body it extends as its prefix. */
  lemma TextTrailerExtends(ctx: Context, text: string, es: seq<Entry>, dateTime: string, host: string)
    ensures HasPrefix(TextTrailer(ctx, text, es, dateTime, host), text)
  {
    var rest := TextHeading + Lines(es, TextLine) + TextInfo(ctx, dateTime, host);
    AppendAssociative(text + TextHeading, Lines(es, TextLine), TextInfo(ctx, dateTime, host));
    AppendAssociative(text, TextHeading, Lines(es, TextLine) + TextInfo(ctx, dateTime, host));
    PrefixOfAppend(text, rest);
  }

  lemma PrefixOfAppend(a: string, b: string)
    ensures HasPrefix(a + b, a)
  {
    assert (a + b)[..|a|] == a;
  }

  const HtmlHeading := "<hr /><p>Previous attachments:<ul>\n"

  function HtmlItem(e: Entry): string {
    "<li>" + "<a href='" + FileLinkPrefix + e.value + "'>" + e.key + "</a>" + "</li>\n"
  }

  /** The closing block of the HTML suffix; the download host only when downloading. */
  function HtmlInfo(ctx: Context, dateTime: string, host: string): string {
    "</ul></p>\n"
    + "<p>Information about the change:<ul>\n"
    + "<li>Made with: " + "<a href='" + ctx.brand.homepage + "'>" + ctx.brand.productName + "</a> "
    + ctx.brand.version + "</li>\n"
    + "<li>Date and time: " + dateTime + "</li>\n"
    + (if ctx.settings.processOption.shouldDownload then
         "<li>Download target host name: " + host + "</li>\n"
       else "")
    + "</ul></p>\n"
  }

  /** The HTML block appended to the body: a list of the entries, then the block about the change. */
  function HtmlSuffix(ctx: Context, es: seq<Entry>, dateTime: string, host: string): string {
    HtmlHeading + Lines(es, HtmlItem) + HtmlInfo(ctx, dateTime, host)
  }

  /** The HTML block lists the `i`-th entry after all earlier entries and before all later ones. */
  lemma HtmlSuffixLists(ctx: Context, es: seq<Entry>, dateTime: string, host: string, i: nat)
    requires i < |es|
    ensures HtmlSuffix(ctx, es, dateTime, host)
            == HtmlHeading + Lines(es[..i], HtmlItem) + HtmlItem(es[i])
               + Lines(es[i + 1..], HtmlItem) + HtmlInfo(ctx, dateTime, host)
  {
    LinesAt(es, HtmlItem, i);
    Splice(HtmlHeading, Lines(es, HtmlItem), Lines(es[..i], HtmlItem), HtmlItem(es[i]),
           Lines(es[i + 1..], HtmlItem), HtmlInfo(ctx, dateTime, host));
  }

  // ----------------------------------------------------------- the references

  /** A leaf's text; a multipart has none. */
  function Body(p: Part): string {
    if p.content.Single? then p.content.data else ""
  }

  /**
   * The tree once the main text part, when there is one and it is still in
   * the tree, has the text trailer appended to its body.
   */
  function WithTextTrailer(ctx: Context, es: seq<Entry>, host: string, c: Content, main: Option<PartId>): Content {
    if main.None? then c
    else
      match FindIn(PreOrder(c), main.value)
      case None => c
      case Some(p) =>
        SetContent(c, p.id, TextPlainUtf8, Single(TextPlain, TextTrailer(ctx, Body(p), es, ctx.now, host)))
  }

  /** The same for the main HTML part and the HTML suffix, appended inside the document's body. */
  function WithHtmlTrailer(ctx: Context, es: seq<Entry>, host: string, c: Content, main: Option<PartId>): Content {
    if main.None? then c
    else
      match FindIn(PreOrder(c), main.value)
      case None => c
      case Some(p) =>
        SetContent(c, p.id, TextHtmlUtf8,
                   Single(TextHtml, ctx.appendToBody(Body(p), HtmlSuffix(ctx, es, ctx.now, host))))
  }

  /**
   * `addReferencesToContent`: nothing when no attachment was recorded,
   * otherwise the text trailer, then the HTML trailer, both listing `es`.
   */
  function AddReferences(ctx: Context, es: seq<Entry>, mainText: Option<PartId>, mainHtml: Option<PartId>,
                         c: Content): Content
  {
    if |es| == 0 then c
    else
      var host := Hostname(ctx.localHost);
      WithHtmlTrailer(ctx, es, host, WithTextTrailer(ctx, es, host, c, mainText), mainHtml)
  }

  /** Adding the references brings no part into the tree and takes no attachment back. */
  lemma AddReferencesShapes(ctx: Context, es: seq<Entry>, mainText: Option<PartId>, mainHtml: Option<PartId>,
                            c: Content)
    ensures Shapes(AddReferences(ctx, es, mainText, mainHtml, c)) <= Shapes(c)
  {
    if |es| != 0 {
      var host := Hostname(ctx.localHost);
      var t := WithTextTrailer(ctx, es, host, c, mainText);
      if mainText.Some? && FindIn(PreOrder(c), mainText.value).Some? {
        var p := FindIn(PreOrder(c), mainText.value).value;
        SetContentShapes(c, p.id, TextPlainUtf8, Single(TextPlain, TextTrailer(ctx, Body(p), es, ctx.now, host)));
      }
      if mainHtml.Some? && FindIn(PreOrder(t), mainHtml.value).Some? {
        var p := FindIn(PreOrder(t), mainHtml.value).value;
        SetContentShapes(t, p.id, TextHtmlUtf8,
                         Single(TextHtml, ctx.appendToBody(Body(p), HtmlSuffix(ctx, es, ctx.now, host))));
      }
    }
  }

  /**
   * When every part carrying a main part's id is a leaf, adding the
   * references drops no part either: only those leaves' bodies change.
   */
  lemma AddReferencesKeeps(ctx: Context, es: seq<Entry>, mainText: Option<PartId>, mainHtml: Option<PartId>,
                           c: Content)
    requires mainText.Some? ==> LeafIds(PreOrder(c), mainText.value)
    requires mainHtml.Some? ==> LeafIds(PreOrder(c), mainHtml.value)
    ensures Shapes(AddReferences(ctx, es, mainText, mainHtml, c)) == Shapes(c)
  {
    if |es| != 0 {
      var host := Hostname(ctx.localHost);
      var t := WithTextTrailer(ctx, es, host, c, mainText);
      if mainText.Some? && FindIn(PreOrder(c), mainText.value).Some? {
        var p := FindIn(PreOrder(c), mainText.value).value;
        var body := Single(TextPlain, TextTrailer(ctx, Body(p), es, ctx.now, host));
        SetContentKeeps(c, p.id, TextPlainUtf8, body);
        if mainHtml.Some? {
          SetContentLeaf(c, p.id, TextPlainUtf8, body, mainHtml.value);
        }
      }
      if mainHtml.Some? && FindIn(PreOrder(t), mainHtml.value).Some? {
        var p := FindIn(PreOrder(t), mainHtml.value).value;
        SetContentKeeps(t, p.id, TextHtmlUtf8,
                        Single(TextHtml, ctx.appendToBody(Body(p), HtmlSuffix(ctx, es, ctx.now, host))));
      }
    }
  }

  /** The main text part, found in the tree, ends up holding its old text followed by the trailer. */
  lemma TextTrailerAdded(ctx: Context, es: seq<Entry>, host: string, c: Content, main: PartId)
    requires FindIn(PreOrder(c), main).Some?
    ensures var p := FindIn(PreOrder(c), main).value;
            var q := FindIn(PreOrder(WithTextTrailer(ctx, es, host, c, Some(main))), main);
            && q.Some?
            && q.value.content == Single(TextPlain, TextTrailer(ctx, Body(p), es, ctx.now, host))
            && HasPrefix(Body(q.value), Body(p))
  {
    var p := FindIn(PreOrder(c), main).value;
    var body := TextTrailer(ctx, Body(p), es, ctx.now, host);
    SetContentFound(c, main, TextPlainUtf8, Single(TextPlain, body));
    TextTrailerExtends(ctx, Body(p), es, ctx.now, host);
  }

  /**
   * `b` is `a` after a step that gives the part carrying `main` the header
   * `header` and the content `body`: the part keeps its id, disposition and
   * filename, a multipart stays a multipart under the same header, and only
   * the leaf carrying `main` changes.
   */
  predicate RewrittenAt(a: Part, b: Part, main: Option<PartId>, header: string, body: Content) {
    && ShapeOf(b) == ShapeOf(a)
    && (a.content.Multipart? ==> b.content.Multipart? && b.contentType == a.contentType)
    && (a.content.Single? ==> b == if main == Some(a.id) then a.(contentType := [header], content := body) else a)
  }

  /**
   * The text trailer step part by part: when the main text part is the leaf
   * `x` wherever its id appears, the step keeps every part in its place and
   * gives only that leaf the UTF-8 text header and its text followed by the
   * trailer.
   */
  lemma TextTrailerAt(ctx: Context, es: seq<Entry>, host: string, c: Content, main: Option<PartId>, x: Part)
    requires x.content.Single?
    requires forall q :: q in PreOrder(c) && main == Some(q.id) ==> q == x
    ensures var before, after := PreOrder(c), PreOrder(WithTextTrailer(ctx, es, host, c, main));
            && |after| == |before|
            && forall i :: 0 <= i < |before| ==>
                 RewrittenAt(before[i], after[i], main, TextPlainUtf8,
                             Single(TextPlain, TextTrailer(ctx, Body(x), es, ctx.now, host)))
  {
    var body := Single(TextPlain, TextTrailer(ctx, Body(x), es, ctx.now, host));
    if main.Some? && FindIn(PreOrder(c), main.value).Some? {
      var p := FindIn(PreOrder(c), main.value).value;
      assert p == x;
      SetContentTraversal(c, main.value, TextPlainUtf8, body);
      SetContentPartsEach(PreOrder(c), main.value, TextPlainUtf8, body);
      var before, after := PreOrder(c), PreOrder(WithTextTrailer(ctx, es, host, c, main));
      forall i | 0 <= i < |before| ensures RewrittenAt(before[i], after[i], main, TextPlainUtf8, body) {
        var a := before[i];
        assert a in before;
        assert after[i] == SetContentPart(a, main.value, TextPlainUtf8, body);
        if a.content.Single? && a.id != main.value {
          assert SetContent(a.content, main.value, TextPlainUtf8, body) == a.content;
        } else if a.content.Multipart? {
          assert a.id != main.value;
          assert SetContent(a.content, main.value, TextPlainUtf8, body).Multipart?;
        }
      }
    }
  }

  /** The same for the HTML trailer step and the main HTML part. */
  lemma HtmlTrailerAt(ctx: Context, es: seq<Entry>, host: string, c: Content, main: Option<PartId>, x: Part)
    requires x.content.Single?
    requires forall q :: q in PreOrder(c) && main == Some(q.id) ==> q == x
    ensures var before, after := PreOrder(c), PreOrder(WithHtmlTrailer(ctx, es, host, c, main));
            && |after| == |before|
            && forall i :: 0 <= i < |before| ==>
                 RewrittenAt(before[i], after[i], main, TextHtmlUtf8,
                             Single(TextHtml, ctx.appendToBody(Body(x), HtmlSuffix(ctx, es, ctx.now, host))))
  {
    var body := Single(TextHtml, ctx.appendToBody(Body(x), HtmlSuffix(ctx, es, ctx.now, host)));
    if main.Some? && FindIn(PreOrder(c), main.value).Some? {
      var p := FindIn(PreOrder(c), main.value).value;
      assert p == x;
      SetContentTraversal(c, main.value, TextHtmlUtf8, body);
      SetContentPartsEach(PreOrder(c), main.value, TextHtmlUtf8, body);
      var before, after := PreOrder(c), PreOrder(WithHtmlTrailer(ctx, es, host, c, main));
      forall i | 0 <= i < |before| ensures RewrittenAt(before[i], after[i], main, TextHtmlUtf8, body) {
        var a := before[i];
        assert a in before;
        assert after[i] == SetContentPart(a, main.value, TextHtmlUtf8, body);
        if a.content.Single? && a.id != main.value {
          assert SetContent(a.content, main.value, TextHtmlUtf8, body) == a.content;
        } else if a.content.Multipart? {
          assert a.id != main.value;
          assert SetContent(a.content, main.value, TextHtmlUtf8, body).Multipart?;
        }
      }
    }
  }

  // ------------------------------------------------------- the whole pass, specified

  /** What processing a message yields: the new tree, the original filenames, the files written. */
  datatype Outcome = Outcome(content: Content, names: set<string>, written: seq<FileWrite>)

  /**
   * `EmailProcessor.process` on a tree `c` with `w` the files already
   * written: walk the tree, remove every saved part, then (when asked) add
   * the references to the remaining main parts.
   */
  ghost function ProcessSpec(ctx: Context, c: Content, w: seq<FileWrite>): Outcome {
    var s := HandleAll(ctx, Start(w), PreOrder(c));
    var stripped := Prune(FixContent(c), IdSet(s.copied));
    var out := if ctx.settings.addMetadata
               then AddReferences(ctx, SortedEntries(s.names), s.mainText, s.mainHtml, stripped)
               else stripped;
    Outcome(out, s.names.Keys, s.written)
  }

  /** The ids listed in `ids`. */
  function IdSet(ids: seq<PartId>): set<PartId> {
    set x | x in ids
  }

  lemma IdSetSnoc(ids: seq<PartId>, i: nat)
    requires i < |ids|
    ensures IdSet(ids[..i + 1]) == IdSet(ids[..i]) + {ids[i]}
  {
    assert ids[..i + 1] == ids[..i] + [ids[i]];
  }

  lemma {:induction false} PartIdsAt(a: seq<Part>, k: nat)
    requires k < |a|
    ensures PartIds(a)[k] == a[k].id
  {
    if k > 0 {
      PartIdsAt(a[1..], k - 1);
    }
  }

  lemma {:induction false} PartIdsHas(a: seq<Part>, p: Part)
    requires p in a
    ensures p.id in PartIds(a)
  {
    if a[0] != p {
      PartIdsHas(a[1..], p);
    }
  }

  /** The filenames `process` returns are the original names of the saved attachments. */
  lemma ProcessNames(ctx: Context, c: Content, w: seq<FileWrite>)
    ensures ProcessSpec(ctx, c, w).names == Originals(ctx, Attachments(PreOrder(c)))
  {
    HandleAllKeys(ctx, Start(w), PreOrder(c));
  }

  /**
   * With downloading on, one file per saved attachment is written, numbered
   * from zero in traversal order; with it off, nothing is written.
   */
  lemma ProcessWrites(ctx: Context, c: Content, w: seq<FileWrite>)
    ensures ctx.settings.processOption.shouldDownload ==>
              ProcessSpec(ctx, c, w).written == w + SavedFiles(ctx, 0, Attachments(PreOrder(c)))
    ensures !ctx.settings.processOption.shouldDownload ==> ProcessSpec(ctx, c, w).written == w
  {
    if ctx.settings.processOption.shouldDownload {
      HandleAllWrites(ctx, Start(w), PreOrder(c));
    } else {
      HandleAllWritesNothing(ctx, Start(w), PreOrder(c));
    }
  }

  /**
   * No attachment that names a file survives: every part left in the
   * processed tree was in the original tree, and none has both a disposition
   * and a filename.
   */
  lemma ProcessStripsAttachments(ctx: Context, c: Content, w: seq<FileWrite>)
    ensures Shapes(ProcessSpec(ctx, c, w).content) <= Shapes(c)
    ensures forall q :: q in PreOrder(ProcessSpec(ctx, c, w).content) ==> !Recordable(q)
  {
    var s := HandleAll(ctx, Start(w), PreOrder(c));
    var gone := IdSet(s.copied);
    var stripped := Prune(FixContent(c), gone);
    var out := ProcessSpec(ctx, c, w).content;
    if ctx.settings.addMetadata {
      AddReferencesShapes(ctx, SortedEntries(s.names), s.mainText, s.mainHtml, stripped);
    }
    assert Shapes(out) <= Shapes(stripped);
    PruneRemoves(FixContent(c), gone);
    FixContentSameShapes(c);
    HandleAllCopies(ctx, Start(w), PreOrder(c));
    assert s.copied == PartIds(Attachments(PreOrder(c)));
    forall q | q in PreOrder(out) ensures !Recordable(q) {
      assert ShapeOf(q) in Shapes(out);
      var q' :| q' in PreOrder(stripped) && ShapeOf(q') == ShapeOf(q);
      var p :| p in PreOrder(c) && ShapeOf(p) == ShapeOf(q');
      AttachmentsExactly(PreOrder(c), p);
      if Recordable(p) {
        PartIdsHas(Attachments(PreOrder(c)), p);
      }
    }
    forall sh | sh in Shapes(out) ensures sh in Shapes(c) {
      var q' :| q' in PreOrder(stripped) && ShapeOf(q') == sh;
    }
  }

  /**
   * Every part that is not saved and lies under no saved part stays in the
   * processed tree, and nothing else does: the removed ids are exactly those
   * of the saved parts, and the tree keeps exactly the parts outside their
   * subtrees. Part ids stand for JavaMail's object identity, so they are
   * distinct.
   */
  lemma ProcessKeepsTheRest(ctx: Context, c: Content, w: seq<FileWrite>)
    requires UniqueIds(PreOrder(c))
    ensures var gone := IdSet(PartIds(Attachments(PreOrder(c))));
            && (forall p :: p in PreOrder(c) ==> (p.id in gone <==> Recordable(p)))
            && Shapes(ProcessSpec(ctx, c, w).content) == Kept(c, gone)
  {
    var ps := PreOrder(c);
    var s := HandleAll(ctx, Start(w), ps);
    HandleAllCopies(ctx, Start(w), ps);
    var a := Attachments(ps);
    assert s.copied == PartIds(a);
    var gone := IdSet(s.copied);
    forall p | p in ps ensures p.id in gone <==> Recordable(p) {
      if Recordable(p) {
        AttachmentsExactly(ps, p);
        PartIdsHas(a, p);
      }
      if p.id in gone {
        var k :| 0 <= k < |a| && PartIds(a)[k] == p.id;
        PartIdsAt(a, k);
        AttachmentsExactly(ps, a[k]);
        var i :| 0 <= i < |ps| && ps[i] == a[k];
        var j :| 0 <= j < |ps| && ps[j] == p;
        assert ps[i].id == ps[j].id;
        assert i == j;
      }
    }
    var fixed := FixContent(c);
    PruneKeeps(fixed, gone);
    KeptFix(c, gone);
    if ctx.settings.addMetadata {
      MainPartLeaf(ctx, w, c, TextPlain);
      MainPartLeaf(ctx, w, c, TextHtml);
      if s.mainText.Some? {
        FixContentLeaf(c, s.mainText.value);
        PruneLeaf(fixed, gone, s.mainText.value);
      }
      if s.mainHtml.Some? {
        FixContentLeaf(c, s.mainHtml.value);
        PruneLeaf(fixed, gone, s.mainHtml.value);
      }
      AddReferencesKeeps(ctx, SortedEntries(s.names), s.mainText, s.mainHtml, Prune(fixed, gone));
    }
  }

  /** The main text part's new content: its text followed by the text trailer. */
  ghost function TextBody(ctx: Context, s: Extraction, p: Part): Content {
    Single(TextPlain, TextTrailer(ctx, Body(p), SortedEntries(s.names), ctx.now, Hostname(ctx.localHost)))
  }

  /** The main HTML part's new content: its document with the HTML trailer inside its body. */
  ghost function HtmlBody(ctx: Context, s: Extraction, p: Part): Content {
    Single(TextHtml, ctx.appendToBody(Body(p), HtmlSuffix(ctx, SortedEntries(s.names), ctx.now, Hostname(ctx.localHost))))
  }

  /**
   * What processing makes of a surviving leaf `p`, given the walk's final
   * state `s`. When references are added and some attachment was saved, the
   * main text part gets a UTF-8 text header and the `TextBody`, and the main
   * HTML part a UTF-8 HTML header and the `HtmlBody`. Any other leaf keeps
   * its content, with only its Content-Type header fixed.
   */
  ghost function Finished(ctx: Context, s: Extraction, p: Part): Part {
    var trailers := ctx.settings.addMetadata && s.names != map[];
    if trailers && s.mainText == Some(p.id) then p.(contentType := [TextPlainUtf8], content := TextBody(ctx, s, p))
    else if trailers && s.mainHtml == Some(p.id) then p.(contentType := [TextHtmlUtf8], content := HtmlBody(ctx, s, p))
    else FixPart(p)
  }

  /**
   * Processing keeps what it does not remove, content included. The
   * processed tree holds exactly the surviving parts of the original, in
   * traversal order, each with its id, disposition and filename. A surviving
   * multipart stays a multipart with its Content-Type fixed (its children are
   * the survivors below it). A surviving leaf ends up `Finished`: its data is
   * unchanged unless it is the main text or HTML part that takes a trailer.
   */
  lemma ProcessKeepsContent(ctx: Context, c: Content, w: seq<FileWrite>)
    requires UniqueIds(PreOrder(c))
    ensures var s := HandleAll(ctx, Start(w), PreOrder(c));
            var kept := Survivors(c, IdSet(s.copied));
            var out := PreOrder(ProcessSpec(ctx, c, w).content);
            && ShapeSet(kept) == Kept(c, IdSet(s.copied))
            && |out| == |kept|
            && (forall i :: 0 <= i < |kept| ==> ShapeOf(out[i]) == ShapeOf(kept[i]))
            && (forall i :: 0 <= i < |kept| && kept[i].content.Multipart? ==>
                  out[i].content.Multipart? && out[i].contentType == FixContentType(kept[i].contentType))
            && (forall i :: 0 <= i < |kept| && kept[i].content.Single? ==> out[i] == Finished(ctx, s, kept[i]))
  {
    var ps := PreOrder(c);
    var s := HandleAll(ctx, Start(w), ps);
    var gone := IdSet(s.copied);
    var kept := Survivors(c, gone);
    var stripped := Prune(FixContent(c), gone);
    var st := PreOrder(stripped);
    var out := PreOrder(ProcessSpec(ctx, c, w).content);
    SurvivorsShapes(c, gone);
    FixPruneTraversal(c, gone);
    if ctx.settings.addMetadata && s.names != map[] {
      ProcessWithTrailers(ctx, c, w);
    } else {
      var es := SortedEntries(s.names);
      ToMapKeys(es);
      KeysEmpty(es);
      assert out == st;
      forall i | 0 <= i < |kept|
        ensures ShapeOf(out[i]) == ShapeOf(kept[i])
        ensures kept[i].content.Multipart? ==>
                  out[i].content.Multipart? && out[i].contentType == FixContentType(kept[i].contentType)
        ensures kept[i].content.Single? ==> out[i] == Finished(ctx, s, kept[i])
      {
        FixPrunePart(kept[i], gone);
      }
    }
  }

  /**
   * Every surviving leaf's content is still in the processed tree, under the
   * same id, disposition and filename: unchanged, unless the leaf is the main
   * text or HTML part taking a trailer; the main text part's new text starts
   * with its old text.
   */
  lemma ProcessKeepsLeafData(ctx: Context, c: Content, w: seq<FileWrite>, p: Part)
    requires UniqueIds(PreOrder(c))
    requires var s := HandleAll(ctx, Start(w), PreOrder(c));
             p in Survivors(c, IdSet(s.copied)) && p.content.Single?
    ensures var s := HandleAll(ctx, Start(w), PreOrder(c));
            var trailers := ctx.settings.addMetadata && s.names != map[];
            exists q :: && q in PreOrder(ProcessSpec(ctx, c, w).content) && ShapeOf(q) == ShapeOf(p)
                        && if trailers && s.mainText == Some(p.id) then
                             q.content == TextBody(ctx, s, p) && HasPrefix(Body(q), Body(p))
                           else if trailers && s.mainHtml == Some(p.id) then q.content == HtmlBody(ctx, s, p)
                           else q.content == p.content
  {
    var s := HandleAll(ctx, Start(w), PreOrder(c));
    var kept := Survivors(c, IdSet(s.copied));
    var out := PreOrder(ProcessSpec(ctx, c, w).content);
    ProcessKeepsContent(ctx, c, w);
    var i :| 0 <= i < |kept| && kept[i] == p;
    var q := out[i];
    assert q in out;
    FinishedLeaf(ctx, s, p);
  }

  lemma FinishedLeaf(ctx: Context, s: Extraction, p: Part)
    requires p.content.Single?
    ensures var q, trailers := Finished(ctx, s, p), ctx.settings.addMetadata && s.names != map[];
            && ShapeOf(q) == ShapeOf(p)
            && if trailers && s.mainText == Some(p.id) then
                 q.content == TextBody(ctx, s, p) && HasPrefix(Body(q), Body(p))
               else if trailers && s.mainHtml == Some(p.id) then q.content == HtmlBody(ctx, s, p)
               else q.content == p.content
  {
    assert FixPart(p).content == p.content;
    TextTrailerExtends(ctx, Body(p), SortedEntries(s.names), ctx.now, Hostname(ctx.localHost));
  }

  /** `ProcessKeepsContent` when the trailers are added. */
  lemma ProcessWithTrailers(ctx: Context, c: Content, w: seq<FileWrite>)
    requires UniqueIds(PreOrder(c))
    requires var s := HandleAll(ctx, Start(w), PreOrder(c));
             ctx.settings.addMetadata && s.names != map[]
    ensures var s := HandleAll(ctx, Start(w), PreOrder(c));
            var kept := Survivors(c, IdSet(s.copied));
            var out := PreOrder(ProcessSpec(ctx, c, w).content);
            && |out| == |kept|
            && (forall i :: 0 <= i < |kept| ==> ShapeOf(out[i]) == ShapeOf(kept[i]))
            && (forall i :: 0 <= i < |kept| && kept[i].content.Multipart? ==>
                  out[i].content.Multipart? && out[i].contentType == FixContentType(kept[i].contentType))
            && (forall i :: 0 <= i < |kept| && kept[i].content.Single? ==> out[i] == Finished(ctx, s, kept[i]))
  {
    var ps := PreOrder(c);
    var s := HandleAll(ctx, Start(w), ps);
    var gone := IdSet(s.copied);
    var stripped := Prune(FixContent(c), gone);
    var es := SortedEntries(s.names);
    ToMapKeys(es);
    KeysEmpty(es);
    var host := Hostname(ctx.localHost);
    var xt := MainLeaf(ctx, w, c, TextPlain);
    var xh := MainLeaf(ctx, w, c, TextHtml);
    assert FixPart(xt).content == xt.content;
    assert FixPart(xh).content == xh.content;
    if s.mainText.Some? && s.mainHtml.Some? {
      UniqueIdsSame(ps, xt, xh);
    }
    MainSurvives(c, gone, s.mainText, xt);
    MainSurvives(c, gone, s.mainHtml, xh);
    var t := WithTextTrailer(ctx, es, host, stripped, s.mainText);
    TextTrailerAt(ctx, es, host, stripped, s.mainText, FixPart(xt));
    TextStepKeepsHtml(PreOrder(stripped), PreOrder(t), s.mainText, s.mainHtml, TextBody(ctx, s, FixPart(xt)), FixPart(xh));
    HtmlTrailerAt(ctx, es, host, t, s.mainHtml, FixPart(xh));
    FinishedEach(ctx, s, c, gone, PreOrder(t), PreOrder(ProcessSpec(ctx, c, w).content), xt, xh);
  }

  /**
   * With distinct ids, the one part of the fixed and stripped tree that
   * carries a main part's id is that main part, fixed.
   */
  lemma MainSurvives(c: Content, gone: set<PartId>, m: Option<PartId>, x: Part)
    requires UniqueIds(PreOrder(c))
    requires m.Some? ==> x in PreOrder(c) && x.id == m.value && x.content.Single?
    ensures forall q :: q in PreOrder(Prune(FixContent(c), gone)) && m == Some(q.id) ==> q == FixPart(x)
  {
    var ps := PreOrder(c);
    var kept := Survivors(c, gone);
    var st := PreOrder(Prune(FixContent(c), gone));
    SurvivorsIn(c, gone);
    FixPruneTraversal(c, gone);
    forall q | q in st && m == Some(q.id) ensures q == FixPart(x) {
      var i :| 0 <= i < |st| && st[i] == q;
      assert kept[i] in ps;
      UniqueIdsSame(ps, kept[i], x);
      FixPrunePart(kept[i], gone);
    }
  }

  /** The text step leaves the main HTML part as it was, as the two main parts differ. */
  lemma TextStepKeepsHtml(before: seq<Part>, after: seq<Part>, mainText: Option<PartId>, mainHtml: Option<PartId>,
                          body: Content, xh: Part)
    requires mainText.Some? && mainHtml.Some? ==> mainText != mainHtml
    requires xh.content.Single? && (mainHtml.Some? ==> xh.id == mainHtml.value)
    requires forall q :: q in before && mainHtml == Some(q.id) ==> q == xh
    requires |after| == |before|
    requires forall i :: 0 <= i < |before| ==> RewrittenAt(before[i], after[i], mainText, TextPlainUtf8, body)
    ensures forall q :: q in after && mainHtml == Some(q.id) ==> q == xh
  {
    forall q | q in after && mainHtml == Some(q.id) ensures q == xh {
      var i :| 0 <= i < |after| && after[i] == q;
      assert before[i] in before;
    }
  }

  /** The last step of `ProcessWithTrailers`: each survivor, through the two trailer steps, is `Finished`. */
  lemma FinishedEach(ctx: Context, s: Extraction, c: Content, gone: set<PartId>, tt: seq<Part>, out: seq<Part>,
                     xt: Part, xh: Part)
    requires UniqueIds(PreOrder(c))
    requires ctx.settings.addMetadata && s.names != map[]
    requires s.mainText.Some? ==> xt in PreOrder(c) && xt.id == s.mainText.value && xt.content.Single?
    requires s.mainHtml.Some? ==> xh in PreOrder(c) && xh.id == s.mainHtml.value && xh.content.Single?
    requires s.mainText.Some? && s.mainHtml.Some? ==> s.mainText != s.mainHtml
    requires var st := PreOrder(Prune(FixContent(c), gone));
             && |tt| == |st|
             && forall i :: 0 <= i < |st| ==> RewrittenAt(st[i], tt[i], s.mainText, TextPlainUtf8, TextBody(ctx, s, FixPart(xt)))
    requires |out| == |tt|
    requires forall i :: 0 <= i < |tt| ==> RewrittenAt(tt[i], out[i], s.mainHtml, TextHtmlUtf8, HtmlBody(ctx, s, FixPart(xh)))
    ensures var kept := Survivors(c, gone);
            && |out| == |kept|
            && (forall i :: 0 <= i < |kept| ==> ShapeOf(out[i]) == ShapeOf(kept[i]))
            && (forall i :: 0 <= i < |kept| && kept[i].content.Multipart? ==>
                  out[i].content.Multipart? && out[i].contentType == FixContentType(kept[i].contentType))
            && (forall i :: 0 <= i < |kept| && kept[i].content.Single? ==> out[i] == Finished(ctx, s, kept[i]))
  {
    var ps := PreOrder(c);
    var kept := Survivors(c, gone);
    var st := PreOrder(Prune(FixContent(c), gone));
    SurvivorsIn(c, gone);
    FixPruneTraversal(c, gone);
    forall i | 0 <= i < |kept|
      ensures ShapeOf(out[i]) == ShapeOf(kept[i])
      ensures kept[i].content.Multipart? ==>
                out[i].content.Multipart? && out[i].contentType == FixContentType(kept[i].contentType)
      ensures kept[i].content.Single? ==> out[i] == Finished(ctx, s, kept[i])
    {
      var k := kept[i];
      assert k in ps;
      if s.mainText == Some(k.id) {
        UniqueIdsSame(ps, k, xt);
      }
      if s.mainHtml == Some(k.id) {
        UniqueIdsSame(ps, k, xh);
      }
      FixPrunePart(k, gone);
      FinishedAt(ctx, s, k, st[i], tt[i], out[i], xt, xh);
    }
  }

  /**
   * One surviving part `k` through the two trailer steps, from `a`, the part
   * after the fix and the removal, to `d`.
   */
  lemma FinishedAt(ctx: Context, s: Extraction, k: Part, a: Part, b: Part, d: Part, xt: Part, xh: Part)
    requires ctx.settings.addMetadata && s.names != map[]
    requires s.mainText == Some(k.id) ==> k == xt && xt.content.Single?
    requires s.mainHtml == Some(k.id) ==> k == xh && xh.content.Single?
    requires s.mainText.Some? && s.mainHtml.Some? ==> s.mainText != s.mainHtml
    requires ShapeOf(a) == ShapeOf(k)
    requires k.content.Multipart? ==> a.content.Multipart? && a.contentType == FixContentType(k.contentType)
    requires k.content.Single? ==> a == FixPart(k) && a.content == k.content
    requires RewrittenAt(a, b, s.mainText, TextPlainUtf8, TextBody(ctx, s, FixPart(xt)))
    requires RewrittenAt(b, d, s.mainHtml, TextHtmlUtf8, HtmlBody(ctx, s, FixPart(xh)))
    ensures ShapeOf(d) == ShapeOf(k)
    ensures k.content.Multipart? ==> d.content.Multipart? && d.contentType == FixContentType(k.contentType)
    ensures k.content.Single? ==> d == Finished(ctx, s, k)
  {
  }

  /**
   * The leaf a main part claim points at, or any leaf when nothing of type
   * `t` is claimed: the claimed part is a leaf of the tree, not an
   * attachment, of type `t`.
   */
  lemma MainLeaf(ctx: Context, w: seq<FileWrite>, c: Content, t: string) returns (x: Part)
    requires t == TextPlain || t == TextHtml
    ensures x.content.Single?
    ensures var m := MainPart(HandleAll(ctx, Start(w), PreOrder(c)), t);
            m.Some? ==> x in PreOrder(c) && x.id == m.value && Claimable(x, t)
  {
    var ps := PreOrder(c);
    MainPartIsFirst(ctx, Start(w), ps, t);
    var m := MainPart(HandleAll(ctx, Start(w), ps), t);
    if m.Some? {
      var i :| 0 <= i < |ps| && ps[i].id == m.value && Claimable(ps[i], t);
      x := ps[i];
    } else {
      x := Part(0, [], None, None, Single(t, ""));
    }
  }

  /** A claimed main part is a leaf, and with distinct ids no other part carries its id. */
  lemma MainPartLeaf(ctx: Context, w: seq<FileWrite>, c: Content, t: string)
    requires t == TextPlain || t == TextHtml
    requires UniqueIds(PreOrder(c))
    ensures var m := MainPart(HandleAll(ctx, Start(w), PreOrder(c)), t);
            m.Some? ==> LeafIds(PreOrder(c), m.value)
  {
    var ps := PreOrder(c);
    MainPartIsFirst(ctx, Start(w), ps, t);
    var m := MainPart(HandleAll(ctx, Start(w), ps), t);
    if m.Some? {
      var i :| 0 <= i < |ps| && ps[i].id == m.value && Claimable(ps[i], t);
      forall q | q in ps && q.id == m.value ensures q.content.Single? {
        var j :| 0 <= j < |ps| && ps[j] == q;
        assert ps[i].id == ps[j].id;
        assert i == j;
      }
    }
  }

  /**
   * A message with no attachment naming a file comes back with only its
   * Content-Type headers fixed; no name is returned and nothing is written.
   */
  lemma ProcessWithoutAttachments(ctx: Context, c: Content, w: seq<FileWrite>)
    requires forall q :: q in PreOrder(c) ==> !Recordable(q)
    ensures ProcessSpec(ctx, c, w) == Outcome(FixContent(c), {}, w)
  {
    var ps := PreOrder(c);
    var s := HandleAll(ctx, Start(w), ps);
    AttachmentsNone(ps);
    HandleAllCopies(ctx, Start(w), ps);
    HandleAllKeys(ctx, Start(w), ps);
    ProcessWrites(ctx, c, w);
    assert s.copied == [];
    assert IdSet(s.copied) == {};
    PruneNothing(FixContent(c), {});
    assert s.names.Keys == {};
    var es := SortedEntries(s.names);
    ToMapKeys(es);
    KeysEmpty(es);
  }

  lemma {:induction false} AttachmentsNone(ps: seq<Part>)
    requires forall q :: q in ps ==> !Recordable(q)
    ensures Attachments(ps) == []
  {
    if ps != [] {
      assert ps[0] in ps;
      assert forall q :: q in ps[1..] ==> q in ps;
      AttachmentsNone(ps[1..]);
    }
  }

  // ------------------------------------------------------------------- the class

  /**
   * The processor of one message. The saved parts and the main parts are
   * held by id; the TreeMap of filenames is its sorted entry sequence.
   */
  class EmailProcessor {
    const ctx: Context
    const fs: FileSystem
    var fileCounter: nat
    var copiedBodyParts: seq<PartId>
    var originalToNormalizedFilename: seq<Entry>
    var mainTextBodyPart: Option<PartId>
    var mainHtmlBodyPart: Option<PartId>

    /** The walk's state this object stands for. */
    function State(): Extraction
      reads this, fs
    {
      Extraction(fileCounter, copiedBodyParts, ToMap(originalToNormalizedFilename),
                 mainTextBodyPart, mainHtmlBodyPart, fs.written)
    }

    /** The TreeMap's entries stay in ascending key order. */
    ghost predicate Valid()
      reads this
    {
      Sorted(originalToNormalizedFilename)
    }

    constructor (ctx: Context, fs: FileSystem)
      ensures this.ctx == ctx && this.fs == fs
      ensures Valid() && State() == Start(fs.written)
    {
      this.ctx := ctx;
      this.fs := fs;
      fileCounter := 0;
      copiedBodyParts := [];
      originalToNormalizedFilename := [];
      mainTextBodyPart := None;
      mainHtmlBodyPart := None;
    }

    method CopyBodyPartToDisk(bodyPart: Part)
      requires Valid()
      modifies this, fs
      ensures Valid() && State() == Copy(ctx, old(State()), bodyPart)
    {
      var originalFilename := GetFilename(ctx, bodyPart);
      if originalFilename.None? {
        return;
      }
      var normalizedFilename := ctx.newFilename(ctx.email, fileCounter, originalFilename.value);
      if ctx.settings.processOption.shouldDownload {
        fs.Write(AttachmentFile(PathOf(ctx.settings.targetDirectory, normalizedFilename), ctx.email.timestamp));
      }
      fileCounter := fileCounter + 1;
      copiedBodyParts := copiedBodyParts + [bodyPart.id];
      PutSorted(originalToNormalizedFilename, originalFilename.value, normalizedFilename);
      PutToMap(originalToNormalizedFilename, originalFilename.value, normalizedFilename);
      originalToNormalizedFilename := Put(originalToNormalizedFilename, originalFilename.value, normalizedFilename);
    }

    method HandleBodyPart(bodyPart: Part)
      requires Valid()
      modifies this, fs
      ensures Valid() && State() == Handle(ctx, old(State()), bodyPart)
    {
      if IsDownloadable(bodyPart) {
        CopyBodyPartToDisk(bodyPart);
      } else {
        if IsMimeType(bodyPart, TextPlain) && mainTextBodyPart.None? {
          mainTextBodyPart := Some(bodyPart.id);
        } else if IsMimeType(bodyPart, TextHtml) && mainHtmlBodyPart.None? {
          mainHtmlBodyPart := Some(bodyPart.id);
        }
      }
    }

    /**
     * Visits every part below `content` in pre-order, handling each part and
     * then fixing its Content-Type; returns the tree with the fixes applied.
     */
    method ExploreContent(content: Content) returns (fixed: Content)
      requires Valid()
      modifies this, fs
      ensures Valid() && State() == HandleAll(ctx, old(State()), PreOrder(content))
      ensures fixed == FixContent(content)
      decreases content
    {
      if content.Single? {
        return content;
      }
      var ps := content.parts;
      var fixedParts: seq<Part> := [];
      var i := 0;
      while i < |ps|
        invariant 0 <= i <= |ps|
        invariant Valid()
        invariant State() == HandleAll(ctx, old(State()), PreOrderParts(ps[..i]))
        invariant fixedParts == FixParts(ps[..i])
      {
        var bodyPart := ps[i];
        HandleBodyPart(bodyPart);
        var contentType := FixContentType(bodyPart.contentType);
        var below := ExploreContent(bodyPart.content);
        fixedParts := fixedParts + [bodyPart.(contentType := contentType, content := below)];
        PreOrderPartsSnoc(ps, i);
        FixPartsSnoc(ps, i);
        HandleAllStep(ctx, old(State()), PreOrderParts(ps[..i]), bodyPart, PreOrder(bodyPart.content));
        i := i + 1;
      }
      assert ps[..|ps|] == ps;
      fixed := Multipart(fixedParts);
    }
  
    /** Detaches every saved part from its parent, in the order they were saved. */
    method RemoveCopiedBodyParts(msg: MimeMessage)
      modifies msg
      ensures msg.content == Prune(old(msg.content), IdSet(copiedBodyParts))
    {
      PruneNothing(msg.content, {});
      assert IdSet(copiedBodyParts[..0]) == {};
      var i := 0;
      while i < |copiedBodyParts|
        invariant 0 <= i <= |copiedBodyParts|
        invariant msg.content == Prune(old(msg.content), IdSet(copiedBodyParts[..i]))
      {
        IdSetSnoc(copiedBodyParts, i);
        PruneTwice(old(msg.content), IdSet(copiedBodyParts[..i]), {copiedBodyParts[i]});
        msg.content := Prune(msg.content, {copiedBodyParts[i]});
        i := i + 1;
      }
      assert copiedBodyParts[..i] == copiedBodyParts;
    }

    /** The body followed by the plain-text trailer listing `entries` in order. */
    method GenerateTextSuffix(text: string, entries: seq<Entry>, dateTimeString: string, hostname: string)
      returns (newText: string)
      ensures newText == TextTrailer(ctx, text, entries, dateTimeString, hostname)
    {
      newText := text;
      newText := newText + "\n\n\n";
      newText := newText + Rule;
      newText := newText + "Previous attachments:\n";
      AppendAssociative(text + "\n\n\n", Rule, "Previous attachments:\n");
      AppendAssociative(text, "\n\n\n", Rule + "Previous attachments:\n");
      AppendAssociative("\n\n\n", Rule, "Previous attachments:\n");
      assert newText == text + TextHeading;
      var i := 0;
      while i < |entries|
        invariant 0 <= i <= |entries|
        invariant newText == text + TextHeading + Lines(entries[..i], TextLine)
      {
        var entry := entries[i];
        var line := " - " + entry.key + " - " + FileLinkPrefix + entry.value + "\n";
        assert line == TextLine(entries[i]);
        LinesSnoc(entries, TextLine, i);
        AppendAssociative(text + TextHeading, Lines(entries[..i], TextLine), line);
        newText := newText + line;
        i := i + 1;
      }
      assert entries[..i] == entries;
      newText := newText + TextInfo(ctx, dateTimeString, hostname);
    }

    /** The document with the HTML suffix listing `entries` in order appended to its body. */
    method GenerateHtmlSuffix(html: string, entries: seq<Entry>, dateTimeString: string, hostname: string)
      returns (newHtml: string)
      ensures newHtml == ctx.appendToBody(html, HtmlSuffix(ctx, entries, dateTimeString, hostname))
    {
      var suffix := HtmlHeading;
      var i := 0;
      while i < |entries|
        invariant 0 <= i <= |entries|
        invariant suffix == HtmlHeading + Lines(entries[..i], HtmlItem)
      {
        var entry := entries[i];
        var item := "<li>" + "<a href='" + FileLinkPrefix + entry.value + "'>" + entry.key + "</a>" + "</li>\n";
        assert item == HtmlItem(entries[i]);
        LinesSnoc(entries, HtmlItem, i);
        AppendAssociative(HtmlHeading, Lines(entries[..i], HtmlItem), item);
        suffix := suffix + item;
        i := i + 1;
      }
      assert entries[..i] == entries;
      suffix := suffix + HtmlInfo(ctx, dateTimeString, hostname);
      newHtml := ctx.appendToBody(html, suffix);
    }

    /**
     * When some attachment was recorded, appends the trailers to the main
     * text and HTML parts that are still in the tree.
     */
    method AddReferencesToContent(msg: MimeMessage)
      modifies msg
      ensures msg.content == AddReferences(ctx, originalToNormalizedFilename, mainTextBodyPart,
                                           mainHtmlBodyPart, old(msg.content))
    {
      if |originalToNormalizedFilename| == 0 {
        return;
      }
      var dateTimeString := ctx.now;
      var hostname := Hostname(ctx.localHost);
      if mainTextBodyPart.Some? {
        var found := FindIn(PreOrder(msg.content), mainTextBodyPart.value);
        if found.Some? {
          var text := Body(found.value);
          var newText := GenerateTextSuffix(text, originalToNormalizedFilename, dateTimeString, hostname);
          msg.content := SetContent(msg.content, found.value.id, TextPlainUtf8, Single(TextPlain, newText));
        }
      }
      assert msg.content == WithTextTrailer(ctx, originalToNormalizedFilename, hostname, old(msg.content), mainTextBodyPart);
      ghost var withText := msg.content;
      if mainHtmlBodyPart.Some? {
        var found := FindIn(PreOrder(msg.content), mainHtmlBodyPart.value);
        if found.Some? {
          var html := Body(found.value);
          var newHtml := GenerateHtmlSuffix(html, originalToNormalizedFilename, dateTimeString, hostname);
          msg.content := SetContent(msg.content, found.value.id, TextHtmlUtf8, Single(TextHtml, newHtml));
        }
      }
      assert msg.content == WithHtmlTrailer(ctx, originalToNormalizedFilename, hostname, withText, mainHtmlBodyPart);
    }

    /**
     * `EmailProcessor.process`: rewrites the message's tree and returns the
     * original filenames of the saved attachments.
     */
    static method Process(ctx: Context, msg: MimeMessage, fs: FileSystem) returns (names: set<string>)
      modifies msg, fs
      ensures var o := ProcessSpec(ctx, old(msg.content), old(fs.written));
              && msg.content == o.content && names == o.names && fs.written == o.written
              && msg.headers == ctx.updateHeaders(old(msg.headers), o.content)
    {
      var headers := msg.headers;
      var processor := new EmailProcessor(ctx, fs);
      var fixed := processor.ExploreContent(msg.content);
      msg.content := fixed;
      processor.RemoveCopiedBodyParts(msg);
      ghost var s := processor.State();
      assert s == HandleAll(ctx, Start(old(fs.written)), PreOrder(old(msg.content)));
      SortedUnique(processor.originalToNormalizedFilename, SortedEntries(s.names));
      if ctx.settings.addMetadata {
        processor.AddReferencesToContent(msg);
      }
      msg.headers := ctx.updateHeaders(headers, msg.content);
      ToMapKeys(processor.originalToNormalizedFilename);
      names := Keys(processor.originalToNormalizedFilename);
    }
  }
}
