/**
 * A message's MIME tree (RFC 2046 section 5.1): a content is either a
 * multipart holding body parts in order, or a single leaf. A body part's
 * identity, which JavaMail gives by object reference, is its `id`.
 */
module Mime {

  import opened Wrappers
  import opened Text

  type PartId = nat

  /**
   * A leaf holds `getContent()` as a string, `data`, and its `mimeType`: the
   * base type `isMimeType` compares against, i.e. the `type/subtype` of its
   * Content-Type, lower-cased and without parameters, `text/plain` when the
   * header is absent. That parse is not modelled: `mimeType` is given with
   * the leaf rather than derived from the part's `contentType` values.
   */
  datatype Content =
    | Multipart(parts: seq<Part>)
    | Single(mimeType: string, data: string)

  datatype Part = Part(
    id: PartId,
    contentType: seq<string>,      // the values of the Content-Type header; [] when it is absent
    disposition: Option<string>,   // `getDisposition()` (RFC 2183 section 2)
    fileName: Option<string>,      // `getFileName()`, still transfer-encoded
    content: Content)

  /** One header field of a message (RFC 5322 section 2.2). */
  datatype Header = Header(name: string, value: string)

  /**
   * A parsed message: JavaMail's `MimeMessage`, whose top-level header fields
   * and content the core rewrites in place.
   */
  class MimeMessage {
    var headers: seq<Header>
    var content: Content

    constructor (headers: seq<Header>, content: Content)
      ensures this.headers == headers && this.content == content
    {
      this.headers := headers;
      this.content := content;
    }
  }

  /** `isMimeType(t)` for the types the core asks about: a multipart is never a text type. */
  predicate IsMimeType(p: Part, t: string) {
    p.content.Single? && p.content.mimeType == t
  }

  // ---------------------------------------------------------------- traversal

  /**
   * The parts below a content, depth-first and pre-order: each child comes
   * before its own descendants, siblings in index order. A leaf has none.
   */
  function PreOrder(c: Content): seq<Part>
    decreases c
  {
    match c
    case Single(_, _) => []
    case Multipart(ps) => PreOrderParts(ps)
  }

  function PreOrderParts(ps: seq<Part>): seq<Part>
    decreases ps
  {
    if ps == [] then [] else [ps[0]] + PreOrder(ps[0].content) + PreOrderParts(ps[1..])
  }

  /** The traversal of a run of siblings is the traversals of its pieces, in order. */
  lemma {:induction false} PreOrderPartsAppend(a: seq<Part>, b: seq<Part>)
    ensures PreOrderParts(a + b) == PreOrderParts(a) + PreOrderParts(b)
    decreases a
  {
    if a != [] {
      assert (a + b)[0] == a[0] && (a + b)[1..] == a[1..] + b;
      PreOrderPartsAppend(a[1..], b);
    } else {
      assert a + b == b;
    }
  }

  lemma PreOrderPartsCons(ps: seq<Part>)
    requires ps != []
    ensures PreOrderParts(ps) == [ps[0]] + (PreOrder(ps[0].content) + PreOrderParts(ps[1..]))
  {
  }

  /** Visiting one more sibling visits it and then everything below it. */
  lemma PreOrderPartsSnoc(ps: seq<Part>, i: nat)
    requires i < |ps|
    ensures PreOrderParts(ps[..i + 1]) == PreOrderParts(ps[..i]) + [ps[i]] + PreOrder(ps[i].content)
  {
    assert ps[..i + 1] == ps[..i] + [ps[i]];
    PreOrderPartsAppend(ps[..i], [ps[i]]);
    assert [ps[i]][1..] == [];
  }

  function Ids(ps: seq<Part>): set<PartId> {
    set p | p in ps :: p.id
  }

  /** What identifies a part to the classifier: its id, disposition and filename. */
  datatype Shape = Shape(id: PartId, disposition: Option<string>, fileName: Option<string>)

  function ShapeOf(p: Part): Shape {
    Shape(p.id, p.disposition, p.fileName)
  }

  function Shapes(c: Content): set<Shape> {
    ShapeSet(PreOrder(c))
  }

  // ---------------------------------------------------- the Content-Type fix-up

  const InvalidCharset := "iso-8859-8-i"
  const ValidCharset := "iso-8859-8"

  /**
   * `fixInvalidContentType` on one part's header: the header changes exactly
   * when it has a single value mentioning `iso-8859-8-i`, and then every
   * occurrence becomes `iso-8859-8`. Absent or repeated headers stay as they are.
   */
  function FixContentType(values: seq<string>): (r: seq<string>)
    ensures r != values <==> |values| == 1 && Contains(values[0], InvalidCharset)
    ensures r != values ==> r == [ReplaceAll(values[0], InvalidCharset, ValidCharset)]
  {
    if |values| == 1 && Contains(values[0], InvalidCharset) then
      ReplaceAllShrinks(values[0], InvalidCharset, ValidCharset);
      [ReplaceAll(values[0], InvalidCharset, ValidCharset)]
    else values
  }

  /** Every part of a tree with its Content-Type header fixed up. */
  function FixContent(c: Content): Content
    decreases c
  {
    match c
    case Single(_, _) => c
    case Multipart(ps) => Multipart(FixParts(ps))
  }

  function FixParts(ps: seq<Part>): seq<Part>
    decreases ps
  {
    if ps == [] then [] else [FixPart(ps[0])] + FixParts(ps[1..])
  }

  function FixPart(p: Part): Part
    decreases p
  {
    p.(contentType := FixContentType(p.contentType), content := FixContent(p.content))
  }

  lemma {:induction false} FixPartsAppend(a: seq<Part>, b: seq<Part>)
    ensures FixParts(a + b) == FixParts(a) + FixParts(b)
    decreases a
  {
    if a != [] {
      assert (a + b)[0] == a[0] && (a + b)[1..] == a[1..] + b;
      FixPartsAppend(a[1..], b);
    } else {
      assert a + b == b;
    }
  }

  lemma FixPartsSnoc(ps: seq<Part>, i: nat)
    requires i < |ps|
    ensures FixParts(ps[..i + 1]) == FixParts(ps[..i]) + [FixPart(ps[i])]
  {
    assert ps[..i + 1] == ps[..i] + [ps[i]];
    FixPartsAppend(ps[..i], [ps[i]]);
  }

  /**
   * The fix-up only touches headers: the tree keeps its parts, in the same
   * order, with the same ids, dispositions and filenames.
   */
  lemma {:induction false} FixContentKeepsShapes(c: Content)
    ensures |PreOrder(FixContent(c))| == |PreOrder(c)|
    ensures forall i :: 0 <= i < |PreOrder(c)| ==> ShapeOf(PreOrder(FixContent(c))[i]) == ShapeOf(PreOrder(c)[i])
    decreases c
  {
    match c
    case Single(_, _) =>
    case Multipart(ps) => FixPartsKeepShapes(ps);
  }

  lemma {:induction false} FixPartsKeepShapes(ps: seq<Part>)
    ensures |PreOrderParts(FixParts(ps))| == |PreOrderParts(ps)|
    ensures forall i :: 0 <= i < |PreOrderParts(ps)| ==> ShapeOf(PreOrderParts(FixParts(ps))[i]) == ShapeOf(PreOrderParts(ps)[i])
    decreases ps
  {
    if ps != [] {
      FixContentKeepsShapes(ps[0].content);
      FixPartsKeepShapes(ps[1..]);
      var f := FixParts(ps);
      assert f[0] == FixPart(ps[0]) && f[1..] == FixParts(ps[1..]);
      var x := PreOrderParts(f);
      var y := PreOrderParts(ps);
      var a := PreOrder(FixContent(ps[0].content));
      var b := PreOrderParts(FixParts(ps[1..]));
      assert x == [FixPart(ps[0])] + a + b;
      assert y == [ps[0]] + PreOrder(ps[0].content) + PreOrderParts(ps[1..]);
      forall i | 0 <= i < |y| ensures ShapeOf(x[i]) == ShapeOf(y[i]) {
        if i == 0 {
        } else if i <= |a| {
          assert x[i] == a[i - 1] && y[i] == PreOrder(ps[0].content)[i - 1];
        } else {
          assert x[i] == b[i - 1 - |a|] && y[i] == PreOrderParts(ps[1..])[i - 1 - |a|];
        }
      }
    }
  }

  /** Fixing headers neither adds nor loses a part's id, disposition or filename. */
  lemma FixContentSameShapes(c: Content)
    ensures Shapes(FixContent(c)) == Shapes(c)
  {
    FixContentKeepsShapes(c);
    var x, y := PreOrder(FixContent(c)), PreOrder(c);
    forall sh | sh in Shapes(FixContent(c)) ensures sh in Shapes(c) {
      var q :| q in x && ShapeOf(q) == sh;
      var i :| 0 <= i < |x| && x[i] == q;
      assert y[i] in y;
    }
    forall sh | sh in Shapes(c) ensures sh in Shapes(FixContent(c)) {
      var q :| q in y && ShapeOf(q) == sh;
      var i :| 0 <= i < |y| && y[i] == q;
      assert x[i] in x;
    }
  }

  // ------------------------------------------------------------------ removal

  /**
   * The tree once every part whose id is in `gone` has been removed from its
   * parent (and with it everything below it).
   */
  function Prune(c: Content, gone: set<PartId>): Content
    decreases c
  {
    match c
    case Single(_, _) => c
    case Multipart(ps) => Multipart(PruneParts(ps, gone))
  }

  function PruneParts(ps: seq<Part>, gone: set<PartId>): seq<Part>
    decreases ps
  {
    if ps == [] then []
    else (if ps[0].id in gone then [] else [ps[0].(content := Prune(ps[0].content, gone))])
         + PruneParts(ps[1..], gone)
  }

  /**
   * `removeBodyPart` one recorded part after another comes to the same tree as
   * removing them all at once, whatever the order.
   */
  lemma {:induction false} PruneTwice(c: Content, a: set<PartId>, b: set<PartId>)
    ensures Prune(Prune(c, a), b) == Prune(c, a + b)
    decreases c
  {
    match c
    case Single(_, _) =>
    case Multipart(ps) => PrunePartsTwice(ps, a, b);
  }

  lemma {:induction false} PrunePartsTwice(ps: seq<Part>, a: set<PartId>, b: set<PartId>)
    ensures PruneParts(PruneParts(ps, a), b) == PruneParts(ps, a + b)
    decreases ps
  {
    if ps != [] {
      PrunePartsTwice(ps[1..], a, b);
      PruneAppend(if ps[0].id in a then [] else [ps[0].(content := Prune(ps[0].content, a))], PruneParts(ps[1..], a), b);
      if ps[0].id !in a {
        PruneTwice(ps[0].content, a, b);
        var q := ps[0].(content := Prune(ps[0].content, a));
        assert [q][1..] == [];
      }
    }
  }

  lemma {:induction false} PruneAppend(x: seq<Part>, y: seq<Part>, gone: set<PartId>)
    ensures PruneParts(x + y, gone) == PruneParts(x, gone) + PruneParts(y, gone)
    decreases x
  {
    if x != [] {
      assert (x + y)[0] == x[0] && (x + y)[1..] == x[1..] + y;
      PruneAppend(x[1..], y, gone);
    } else {
      assert x + y == y;
    }
  }

  /**
   * After removal no part with a removed id is left anywhere in the tree, and
   * every part left was in the tree before.
   */
  lemma {:induction false} PruneRemoves(c: Content, gone: set<PartId>)
    ensures forall q :: q in PreOrder(Prune(c, gone)) ==> q.id !in gone && ShapeOf(q) in Shapes(c)
    decreases c
  {
    match c
    case Single(_, _) =>
    case Multipart(ps) => PrunePartsRemove(ps, gone);
  }

  lemma {:induction false} PrunePartsRemove(ps: seq<Part>, gone: set<PartId>)
    ensures forall q :: q in PreOrderParts(PruneParts(ps, gone)) ==>
      q.id !in gone && ShapeOf(q) in ShapeSet(PreOrderParts(ps))
    decreases ps
  {
    if ps != [] {
      var all := PreOrderParts(ps);
      assert all == [ps[0]] + PreOrder(ps[0].content) + PreOrderParts(ps[1..]);
      ShapeSetAppend([ps[0]] + PreOrder(ps[0].content), PreOrderParts(ps[1..]));
      ShapeSetAppend([ps[0]], PreOrder(ps[0].content));
      PrunePartsRemove(ps[1..], gone);
      var head := if ps[0].id in gone then [] else [ps[0].(content := Prune(ps[0].content, gone))];
      var rest := PruneParts(ps[1..], gone);
      assert PruneParts(ps, gone) == head + rest;
      PreOrderPartsAppend(head, rest);
      if ps[0].id !in gone {
        PruneRemoves(ps[0].content, gone);
        var q := head[0];
        assert head[1..] == [];
        assert PreOrderParts(head) == [q] + PreOrder(Prune(ps[0].content, gone)) + [];
        assert ShapeOf(q) == ShapeOf(ps[0]);
      }
    }
  }

  function ShapeSet(ps: seq<Part>): set<Shape> {
    set p | p in ps :: ShapeOf(p)
  }

  lemma ShapeSetAppend(a: seq<Part>, b: seq<Part>)
    ensures ShapeSet(a + b) == ShapeSet(a) + ShapeSet(b)
  {
  }

  /** Removing ids that no part carries leaves the tree as it was. */
  lemma {:induction false} PruneNothing(c: Content, gone: set<PartId>)
    requires gone !! Ids(PreOrder(c))
    ensures Prune(c, gone) == c
    decreases c
  {
    match c
    case Single(_, _) =>
    case Multipart(ps) => PrunePartsNothing(ps, gone);
  }

  lemma {:induction false} PrunePartsNothing(ps: seq<Part>, gone: set<PartId>)
    requires gone !! Ids(PreOrderParts(ps))
    ensures PruneParts(ps, gone) == ps
    decreases ps
  {
    if ps != [] {
      var rest := PreOrder(ps[0].content) + PreOrderParts(ps[1..]);
      assert PreOrderParts(ps) == [ps[0]] + rest;
      assert ps[0].id in Ids(PreOrderParts(ps));
      assert Ids(PreOrder(ps[0].content)) <= Ids(PreOrderParts(ps));
      assert Ids(PreOrderParts(ps[1..])) <= Ids(PreOrderParts(ps));
      PruneNothing(ps[0].content, gone);
      PrunePartsNothing(ps[1..], gone);
      assert [ps[0]] + ps[1..] == ps;
    }
  }

  /**
   * The parts that survive removing `gone`: a part survives when neither it
   * nor any part above it is removed.
   */
  function Kept(c: Content, gone: set<PartId>): set<Shape>
    decreases c
  {
    match c
    case Single(_, _) => {}
    case Multipart(ps) => KeptParts(ps, gone)
  }

  function KeptParts(ps: seq<Part>, gone: set<PartId>): set<Shape>
    decreases ps
  {
    if ps == [] then {}
    else (if ps[0].id in gone then {} else {ShapeOf(ps[0])} + Kept(ps[0].content, gone))
         + KeptParts(ps[1..], gone)
  }

  /** Removal keeps exactly the parts outside the removed subtrees, and no others. */
  lemma {:induction false} PruneKeeps(c: Content, gone: set<PartId>)
    ensures Shapes(Prune(c, gone)) == Kept(c, gone)
    decreases c, 2
  {
    match c
    case Single(_, _) =>
    case Multipart(ps) => PrunePartsKeep(ps, gone);
  }

  lemma {:induction false} PrunePartsKeep(ps: seq<Part>, gone: set<PartId>)
    ensures ShapeSet(PreOrderParts(PruneParts(ps, gone))) == KeptParts(ps, gone)
    decreases ps, 1
  {
    if ps != [] {
      var head := if ps[0].id in gone then [] else [ps[0].(content := Prune(ps[0].content, gone))];
      var rest := PruneParts(ps[1..], gone);
      assert PruneParts(ps, gone) == head + rest;
      PreOrderPartsAppend(head, rest);
      ShapeSetAppend(PreOrderParts(head), PreOrderParts(rest));
      PrunePartsKeep(ps[1..], gone);
      PruneHeadKeeps(ps[0], gone);
    }
  }

  /** The step of `PrunePartsKeep` for the first sibling: removed, or kept with what survives below it. */
  lemma {:induction false} PruneHeadKeeps(p: Part, gone: set<PartId>)
    ensures var head := if p.id in gone then [] else [p.(content := Prune(p.content, gone))];
            ShapeSet(PreOrderParts(head)) == if p.id in gone then {} else {ShapeOf(p)} + Kept(p.content, gone)
    decreases p, 0
  {
    if p.id in gone {
      assert PreOrderParts([]) == [];
      assert ShapeSet([]) == {};
    } else {
      var q := p.(content := Prune(p.content, gone));
      var head := [q];
      assert head[1..] == [];
      assert PreOrderParts(head) == [q] + PreOrder(q.content) + [];
      assert [q] + PreOrder(q.content) + [] == [q] + PreOrder(q.content);
      ShapeSetAppend([q], PreOrder(q.content));
      PruneKeeps(p.content, gone);
      assert ShapeSet([q]) == {ShapeOf(p)} by {
        assert q in [q];
      }
    }
  }

  /** The Content-Type fix moves no part, so the same parts survive a removal. */
  lemma {:induction false} KeptFix(c: Content, gone: set<PartId>)
    ensures Kept(FixContent(c), gone) == Kept(c, gone)
    decreases c
  {
    match c
    case Single(_, _) =>
    case Multipart(ps) => KeptPartsFix(ps, gone);
  }

  lemma {:induction false} KeptPartsFix(ps: seq<Part>, gone: set<PartId>)
    ensures KeptParts(FixParts(ps), gone) == KeptParts(ps, gone)
    decreases ps
  {
    if ps != [] {
      var f := FixParts(ps);
      assert f[0] == FixPart(ps[0]) && f[1..] == FixParts(ps[1..]);
      KeptFix(ps[0].content, gone);
      KeptPartsFix(ps[1..], gone);
    }
  }

  // --------------------------------------------------- what the survivors keep

  /**
   * The parts that survive removing `gone`, in traversal order and as they
   * were before the removal: those such that neither they nor any part above
   * them is in `gone`.
   */
  function Survivors(c: Content, gone: set<PartId>): seq<Part>
    decreases c
  {
    match c
    case Single(_, _) => []
    case Multipart(ps) => SurvivorsOf(ps, gone)
  }

  function SurvivorsOf(ps: seq<Part>, gone: set<PartId>): seq<Part>
    decreases ps
  {
    if ps == [] then []
    else (if ps[0].id in gone then [] else [ps[0]] + Survivors(ps[0].content, gone))
         + SurvivorsOf(ps[1..], gone)
  }

  /** Each part of `ps` with the removed parts taken out from below it. */
  function PruneEach(ps: seq<Part>, gone: set<PartId>): seq<Part> {
    seq(|ps|, i requires 0 <= i < |ps| => ps[i].(content := Prune(ps[i].content, gone)))
  }

  lemma PruneEachAppend(a: seq<Part>, b: seq<Part>, gone: set<PartId>)
    ensures PruneEach(a + b, gone) == PruneEach(a, gone) + PruneEach(b, gone)
  {
    var x, y := PruneEach(a + b, gone), PruneEach(a, gone) + PruneEach(b, gone);
    forall i | 0 <= i < |x| ensures x[i] == y[i] {
      if i < |a| {
        assert (a + b)[i] == a[i];
      } else {
        assert (a + b)[i] == b[i - |a|];
      }
    }
  }

  /**
   * Removal keeps the surviving parts in traversal order, each one as it was
   * except for what is removed below it: a surviving leaf keeps its header and
   * its content, and a surviving multipart keeps its header and its children
   * other than the removed ones, in order.
   */
  lemma {:induction false} PruneTraversal(c: Content, gone: set<PartId>)
    ensures PreOrder(Prune(c, gone)) == PruneEach(Survivors(c, gone), gone)
    decreases c, 1
  {
    match c
    case Single(_, _) =>
    case Multipart(ps) => PrunePartsTraversal(ps, gone);
  }

  lemma {:induction false} PrunePartsTraversal(ps: seq<Part>, gone: set<PartId>)
    ensures PreOrderParts(PruneParts(ps, gone)) == PruneEach(SurvivorsOf(ps, gone), gone)
    decreases ps, 0
  {
    if ps != [] {
      var p := ps[0];
      var head := if p.id in gone then [] else [p.(content := Prune(p.content, gone))];
      var rest := PruneParts(ps[1..], gone);
      assert PruneParts(ps, gone) == head + rest;
      PreOrderPartsAppend(head, rest);
      PrunePartsTraversal(ps[1..], gone);
      var kept := if p.id in gone then [] else [p] + Survivors(p.content, gone);
      assert SurvivorsOf(ps, gone) == kept + SurvivorsOf(ps[1..], gone);
      PruneEachAppend(kept, SurvivorsOf(ps[1..], gone), gone);
      if p.id !in gone {
        var q := head[0];
        assert head[1..] == [];
        assert PreOrderParts(head) == [q] + PreOrder(q.content) + [];
        PruneTraversal(p.content, gone);
        PruneEachAppend([p], Survivors(p.content, gone), gone);
      } else {
        assert PreOrderParts(head) == [];
      }
    }
  }

  /** The survivors are parts of the tree, none of them removed. */
  lemma {:induction false} SurvivorsIn(c: Content, gone: set<PartId>)
    ensures forall q :: q in Survivors(c, gone) ==> q in PreOrder(c) && q.id !in gone
    decreases c
  {
    match c
    case Single(_, _) =>
    case Multipart(ps) => SurvivorsOfIn(ps, gone);
  }

  lemma {:induction false} SurvivorsOfIn(ps: seq<Part>, gone: set<PartId>)
    ensures forall q :: q in SurvivorsOf(ps, gone) ==> q in PreOrderParts(ps) && q.id !in gone
    decreases ps
  {
    if ps != [] {
      assert PreOrderParts(ps) == [ps[0]] + PreOrder(ps[0].content) + PreOrderParts(ps[1..]);
      SurvivorsIn(ps[0].content, gone);
      SurvivorsOfIn(ps[1..], gone);
    }
  }

  /** The survivors are what `Kept` describes. */
  lemma {:induction false} SurvivorsShapes(c: Content, gone: set<PartId>)
    ensures ShapeSet(Survivors(c, gone)) == Kept(c, gone)
    decreases c
  {
    match c
    case Single(_, _) =>
    case Multipart(ps) => SurvivorsOfShapes(ps, gone);
  }

  lemma {:induction false} SurvivorsOfShapes(ps: seq<Part>, gone: set<PartId>)
    ensures ShapeSet(SurvivorsOf(ps, gone)) == KeptParts(ps, gone)
    decreases ps
  {
    if ps != [] {
      var p := ps[0];
      var kept := if p.id in gone then [] else [p] + Survivors(p.content, gone);
      ShapeSetAppend(kept, SurvivorsOf(ps[1..], gone));
      SurvivorsOfShapes(ps[1..], gone);
      if p.id !in gone {
        ShapeSetAppend([p], Survivors(p.content, gone));
        SurvivorsShapes(p.content, gone);
        assert ShapeSet([p]) == {ShapeOf(p)} by {
          assert p in [p];
        }
      } else {
        assert ShapeSet([]) == {};
      }
    }
  }

  /** `FixParts` fixes each part where it stands. */
  lemma {:induction false} FixPartsEach(ps: seq<Part>)
    ensures |FixParts(ps)| == |ps|
    ensures forall i :: 0 <= i < |ps| ==> FixParts(ps)[i] == FixPart(ps[i])
    decreases ps
  {
    if ps != [] {
      FixPartsEach(ps[1..]);
    }
  }

  /**
   * The Content-Type fix rewrites each part where it stands: the traversal of
   * the fixed tree is the traversal of the tree with every part fixed.
   */
  lemma {:induction false} FixTraversal(c: Content)
    ensures PreOrder(FixContent(c)) == FixParts(PreOrder(c))
    decreases c
  {
    match c
    case Single(_, _) =>
    case Multipart(ps) => FixPartsTraversal(ps);
  }

  lemma {:induction false} FixPartsTraversal(ps: seq<Part>)
    ensures PreOrderParts(FixParts(ps)) == FixParts(PreOrderParts(ps))
    decreases ps
  {
    if ps != [] {
      var f := FixParts(ps);
      assert f[0] == FixPart(ps[0]) && f[1..] == FixParts(ps[1..]);
      assert PreOrderParts(f) == [f[0]] + PreOrder(f[0].content) + PreOrderParts(f[1..]);
      FixTraversal(ps[0].content);
      FixPartsTraversal(ps[1..]);
      FixPartsAppend([ps[0]], PreOrder(ps[0].content));
      FixPartsAppend([ps[0]] + PreOrder(ps[0].content), PreOrderParts(ps[1..]));
      assert [ps[0]][1..] == [];
    }
  }

  /** The fix moves no part, so the survivors of the fixed tree are the fixed survivors. */
  lemma {:induction false} SurvivorsFix(c: Content, gone: set<PartId>)
    ensures Survivors(FixContent(c), gone) == FixParts(Survivors(c, gone))
    decreases c
  {
    match c
    case Single(_, _) =>
    case Multipart(ps) => SurvivorsOfFix(ps, gone);
  }

  lemma {:induction false} SurvivorsOfFix(ps: seq<Part>, gone: set<PartId>)
    ensures SurvivorsOf(FixParts(ps), gone) == FixParts(SurvivorsOf(ps, gone))
    decreases ps
  {
    if ps != [] {
      var p := ps[0];
      var f := FixParts(ps);
      assert f[0] == FixPart(p) && f[1..] == FixParts(ps[1..]);
      SurvivorsFix(p.content, gone);
      SurvivorsOfFix(ps[1..], gone);
      var kept := if p.id in gone then [] else [p] + Survivors(p.content, gone);
      assert SurvivorsOf(ps, gone) == kept + SurvivorsOf(ps[1..], gone);
      FixPartsAppend(kept, SurvivorsOf(ps[1..], gone));
      if p.id !in gone {
        FixPartsAppend([p], Survivors(p.content, gone));
        assert [p][1..] == [];
      }
    }
  }

  /**
   * One survivor after the fix and the removal: the same id, disposition and
   * filename; a multipart stays one under the fixed header; a leaf keeps its
   * content and only has its header fixed.
   */
  lemma FixPrunePart(k: Part, gone: set<PartId>)
    ensures var a := FixPart(k).(content := Prune(FixContent(k.content), gone));
            && ShapeOf(a) == ShapeOf(k)
            && (k.content.Multipart? ==> a.content.Multipart? && a.contentType == FixContentType(k.contentType))
            && (k.content.Single? ==> a == FixPart(k) && a.content == k.content)
  {
  }

  /**
   * After the fix and the removal, the tree holds the survivors in traversal
   * order, each with its header fixed: a surviving leaf keeps its content, and
   * a surviving multipart keeps its children other than the removed ones.
   */
  lemma FixPruneTraversal(c: Content, gone: set<PartId>)
    ensures var kept, out := Survivors(c, gone), PreOrder(Prune(FixContent(c), gone));
            && |out| == |kept|
            && forall i :: 0 <= i < |kept| ==>
                 out[i] == FixPart(kept[i]).(content := Prune(FixContent(kept[i].content), gone))
  {
    SurvivorsFix(c, gone);
    PruneTraversal(FixContent(c), gone);
    FixPartsEach(Survivors(c, gone));
  }

  // ------------------------------------------------------------ part identity

  /** No two parts of a traversal share an id, as no two JavaMail body parts are one object. */
  predicate UniqueIds(ps: seq<Part>) {
    forall i, j :: 0 <= i < j < |ps| ==> ps[i].id != ps[j].id
  }

  /** With distinct ids, two parts of a traversal that carry the same id are the same part. */
  lemma UniqueIdsSame(ps: seq<Part>, x: Part, y: Part)
    requires UniqueIds(ps) && x in ps && y in ps
    ensures x.id == y.id ==> x == y
  {
    var i :| 0 <= i < |ps| && ps[i] == x;
    var j :| 0 <= j < |ps| && ps[j] == y;
    assert i < j || j < i || i == j;
  }

  /** Every part in `ps` carrying `id` is a leaf. */
  predicate LeafIds(ps: seq<Part>, id: PartId) {
    forall q :: q in ps && q.id == id ==> q.content.Single?
  }

  /** The Content-Type fix turns no leaf into a multipart. */
  lemma {:induction false} FixContentLeaf(c: Content, id: PartId)
    requires LeafIds(PreOrder(c), id)
    ensures LeafIds(PreOrder(FixContent(c)), id)
    decreases c
  {
    match c
    case Single(_, _) =>
    case Multipart(ps) => FixPartsLeaf(ps, id);
  }

  lemma {:induction false} FixPartsLeaf(ps: seq<Part>, id: PartId)
    requires LeafIds(PreOrderParts(ps), id)
    ensures LeafIds(PreOrderParts(FixParts(ps)), id)
    decreases ps
  {
    if ps != [] {
      var f := FixParts(ps);
      assert f[0] == FixPart(ps[0]) && f[1..] == FixParts(ps[1..]);
      assert PreOrderParts(ps) == [ps[0]] + PreOrder(ps[0].content) + PreOrderParts(ps[1..]);
      assert PreOrderParts(f) == [f[0]] + PreOrder(f[0].content) + PreOrderParts(f[1..]);
      FixContentLeaf(ps[0].content, id);
      FixPartsLeaf(ps[1..], id);
    }
  }

  /** Removal turns no leaf into a multipart. */
  lemma {:induction false} PruneLeaf(c: Content, gone: set<PartId>, id: PartId)
    requires LeafIds(PreOrder(c), id)
    ensures LeafIds(PreOrder(Prune(c, gone)), id)
    decreases c
  {
    match c
    case Single(_, _) =>
    case Multipart(ps) => PrunePartsLeaf(ps, gone, id);
  }

  lemma {:induction false} PrunePartsLeaf(ps: seq<Part>, gone: set<PartId>, id: PartId)
    requires LeafIds(PreOrderParts(ps), id)
    ensures LeafIds(PreOrderParts(PruneParts(ps, gone)), id)
    decreases ps
  {
    if ps != [] {
      var head := if ps[0].id in gone then [] else [ps[0].(content := Prune(ps[0].content, gone))];
      var rest := PruneParts(ps[1..], gone);
      assert PruneParts(ps, gone) == head + rest;
      PreOrderPartsAppend(head, rest);
      assert PreOrderParts(ps) == [ps[0]] + PreOrder(ps[0].content) + PreOrderParts(ps[1..]);
      PrunePartsLeaf(ps[1..], gone, id);
      if ps[0].id !in gone {
        var q := head[0];
        assert head[1..] == [];
        assert PreOrderParts(head) == [q] + PreOrder(q.content) + [];
        PruneLeaf(ps[0].content, gone, id);
      } else {
        assert PreOrderParts(head) == [];
      }
    }
  }

  // ------------------------------------------------------- rewriting one part

  /** The first part in the traversal carrying `id`. */
  function FindIn(ps: seq<Part>, id: PartId): (r: Option<Part>)
    ensures r.Some? ==> r.value in ps && r.value.id == id
    ensures r.None? ==> forall p :: p in ps ==> p.id != id
  {
    if ps == [] then None
    else if ps[0].id == id then Some(ps[0])
    else FindIn(ps[1..], id)
  }

  /**
   * `setContent(body, header)` on the part with the given id: its content
   * becomes the leaf `body` and its Content-Type the single value `header`.
   */
  function SetContent(c: Content, id: PartId, header: string, body: Content): Content
    requires body.Single?
    decreases c
  {
    match c
    case Single(_, _) => c
    case Multipart(ps) => Multipart(SetContentParts(ps, id, header, body))
  }

  function SetContentParts(ps: seq<Part>, id: PartId, header: string, body: Content): seq<Part>
    requires body.Single?
    decreases ps
  {
    if ps == [] then []
    else [SetContentPart(ps[0], id, header, body)] + SetContentParts(ps[1..], id, header, body)
  }

  function SetContentPart(p: Part, id: PartId, header: string, body: Content): Part
    requires body.Single?
    decreases p
  {
    if p.id == id then p.(contentType := [header], content := body)
    else p.(content := SetContent(p.content, id, header, body))
  }

  /**
   * Rewriting a part's content leaves no part the tree did not have: ids,
   * dispositions and filenames only ever come from the original tree.
   */
  lemma {:induction false} SetContentShapes(c: Content, id: PartId, header: string, body: Content)
    requires body.Single?
    ensures Shapes(SetContent(c, id, header, body)) <= Shapes(c)
    decreases c
  {
    match c
    case Single(_, _) =>
    case Multipart(ps) => SetContentPartsShapes(ps, id, header, body);
  }

  lemma {:induction false} SetContentPartsShapes(ps: seq<Part>, id: PartId, header: string, body: Content)
    requires body.Single?
    ensures ShapeSet(PreOrderParts(SetContentParts(ps, id, header, body))) <= ShapeSet(PreOrderParts(ps))
    decreases ps
  {
    if ps != [] {
      var q := SetContentPart(ps[0], id, header, body);
      var rest := SetContentParts(ps[1..], id, header, body);
      assert SetContentParts(ps, id, header, body) == [q] + rest;
      assert PreOrderParts([q] + rest) == [q] + PreOrder(q.content) + PreOrderParts(rest);
      ShapeSetAppend([q] + PreOrder(q.content), PreOrderParts(rest));
      ShapeSetAppend([q], PreOrder(q.content));
      assert PreOrderParts(ps) == [ps[0]] + PreOrder(ps[0].content) + PreOrderParts(ps[1..]);
      ShapeSetAppend([ps[0]] + PreOrder(ps[0].content), PreOrderParts(ps[1..]));
      ShapeSetAppend([ps[0]], PreOrder(ps[0].content));
      assert ShapeOf(q) == ShapeOf(ps[0]);
      if ps[0].id != id {
        assert q.content == SetContent(ps[0].content, id, header, body);
        SetContentShapes(ps[0].content, id, header, body);
      } else {
        assert q.content == body;
        assert PreOrder(q.content) == [];
      }
      SetContentPartsShapes(ps[1..], id, header, body);
    }
  }

  /** Rewriting a part's content turns no leaf into a multipart. */
  lemma {:induction false} SetContentLeaf(c: Content, id: PartId, header: string, body: Content, x: PartId)
    requires body.Single? && LeafIds(PreOrder(c), x)
    ensures LeafIds(PreOrder(SetContent(c, id, header, body)), x)
    decreases c
  {
    match c
    case Single(_, _) =>
    case Multipart(ps) => SetContentPartsLeaf(ps, id, header, body, x);
  }

  lemma {:induction false} SetContentPartsLeaf(ps: seq<Part>, id: PartId, header: string, body: Content, x: PartId)
    requires body.Single? && LeafIds(PreOrderParts(ps), x)
    ensures LeafIds(PreOrderParts(SetContentParts(ps, id, header, body)), x)
    decreases ps
  {
    if ps != [] {
      var q := SetContentPart(ps[0], id, header, body);
      var rest := SetContentParts(ps[1..], id, header, body);
      assert SetContentParts(ps, id, header, body) == [q] + rest;
      assert PreOrderParts([q] + rest) == [q] + PreOrder(q.content) + PreOrderParts(rest);
      assert PreOrderParts(ps) == [ps[0]] + PreOrder(ps[0].content) + PreOrderParts(ps[1..]);
      if ps[0].id != id {
        SetContentLeaf(ps[0].content, id, header, body, x);
      }
      SetContentPartsLeaf(ps[1..], id, header, body, x);
    }
  }

  /** Rewriting the content of leaves drops no part: the tree keeps all its parts. */
  lemma {:induction false} SetContentKeeps(c: Content, id: PartId, header: string, body: Content)
    requires body.Single? && LeafIds(PreOrder(c), id)
    ensures Shapes(SetContent(c, id, header, body)) == Shapes(c)
    decreases c
  {
    match c
    case Single(_, _) =>
    case Multipart(ps) => SetContentPartsKeep(ps, id, header, body);
  }

  lemma {:induction false} SetContentPartsKeep(ps: seq<Part>, id: PartId, header: string, body: Content)
    requires body.Single? && LeafIds(PreOrderParts(ps), id)
    ensures ShapeSet(PreOrderParts(SetContentParts(ps, id, header, body))) == ShapeSet(PreOrderParts(ps))
    decreases ps
  {
    if ps != [] {
      var q := SetContentPart(ps[0], id, header, body);
      var rest := SetContentParts(ps[1..], id, header, body);
      assert SetContentParts(ps, id, header, body) == [q] + rest;
      assert PreOrderParts([q] + rest) == [q] + PreOrder(q.content) + PreOrderParts(rest);
      ShapeSetAppend([q] + PreOrder(q.content), PreOrderParts(rest));
      ShapeSetAppend([q], PreOrder(q.content));
      assert PreOrderParts(ps) == [ps[0]] + PreOrder(ps[0].content) + PreOrderParts(ps[1..]);
      ShapeSetAppend([ps[0]] + PreOrder(ps[0].content), PreOrderParts(ps[1..]));
      ShapeSetAppend([ps[0]], PreOrder(ps[0].content));
      assert ShapeOf(q) == ShapeOf(ps[0]);
      if ps[0].id != id {
        SetContentKeeps(ps[0].content, id, header, body);
      } else {
        assert ps[0] in PreOrderParts(ps);
        assert PreOrder(q.content) == [] && PreOrder(ps[0].content) == [];
      }
      SetContentPartsKeep(ps[1..], id, header, body);
    }
  }

  /** A rewritten part, when it is in the tree, is found again holding the new content. */
  lemma {:induction false} SetContentFound(c: Content, id: PartId, header: string, body: Content)
    requires body.Single?
    requires FindIn(PreOrder(c), id).Some?
    ensures FindIn(PreOrder(SetContent(c, id, header, body)), id).Some?
    ensures FindIn(PreOrder(SetContent(c, id, header, body)), id).value.content == body
    decreases c
  {
    match c
    case Single(_, _) =>
    case Multipart(ps) => SetContentPartsFound(ps, id, header, body);
  }

  lemma {:induction false} SetContentPartsFound(ps: seq<Part>, id: PartId, header: string, body: Content)
    requires body.Single?
    requires FindIn(PreOrderParts(ps), id).Some?
    ensures FindIn(PreOrderParts(SetContentParts(ps, id, header, body)), id).Some?
    ensures FindIn(PreOrderParts(SetContentParts(ps, id, header, body)), id).value.content == body
    decreases ps
  {
    var q := SetContentPart(ps[0], id, header, body);
    var rest := SetContentParts(ps[1..], id, header, body);
    assert SetContentParts(ps, id, header, body) == [q] + rest;
    var below := PreOrder(q.content);
    var after := PreOrderParts(rest);
    PreOrderPartsCons([q] + rest);
    assert ([q] + rest)[1..] == rest;
    if ps[0].id == id {
      assert ([q] + (below + after))[0] == q;
    } else {
      FindInSkip(q, below + after, id);
      PreOrderPartsCons(ps);
      FindInSkip(ps[0], PreOrder(ps[0].content) + PreOrderParts(ps[1..]), id);
      FindInAppend(PreOrder(ps[0].content), PreOrderParts(ps[1..]), id);
      FindInAppend(below, after, id);
      SetContentChildFound(ps, id, header, body);
    }
  }

  /** The step of `SetContentPartsFound` where the first sibling is not the one rewritten. */
  lemma {:induction false} SetContentChildFound(ps: seq<Part>, id: PartId, header: string, body: Content)
    requires body.Single? && ps != [] && ps[0].id != id
    requires FindIn(PreOrder(ps[0].content), id).Some? || FindIn(PreOrderParts(ps[1..]), id).Some?
    ensures var below := PreOrder(SetContent(ps[0].content, id, header, body));
      var after := PreOrderParts(SetContentParts(ps[1..], id, header, body));
      if FindIn(below, id).Some? then FindIn(below, id).value.content == body
      else FindIn(after, id).Some? && FindIn(after, id).value.content == body
    decreases ps, 0
  {
    if FindIn(PreOrder(ps[0].content), id).Some? {
      SetContentFound(ps[0].content, id, header, body);
    } else {
      SetContentNotFound(ps[0].content, id, header, body);
      SetContentPartsFound(ps[1..], id, header, body);
    }
  }

  lemma FindInSkip(x: Part, rest: seq<Part>, id: PartId)
    requires x.id != id
    ensures FindIn([x] + rest, id) == FindIn(rest, id)
  {
    assert ([x] + rest)[1..] == rest;
  }

  /** Where the id is absent, the rewrite changes nothing. */
  lemma {:induction false} SetContentNotFound(c: Content, id: PartId, header: string, body: Content)
    requires body.Single?
    requires FindIn(PreOrder(c), id).None?
    ensures SetContent(c, id, header, body) == c
    decreases c
  {
    match c
    case Single(_, _) =>
    case Multipart(ps) => SetContentPartsNotFound(ps, id, header, body);
  }

  lemma {:induction false} SetContentPartsNotFound(ps: seq<Part>, id: PartId, header: string, body: Content)
    requires body.Single?
    requires FindIn(PreOrderParts(ps), id).None?
    ensures SetContentParts(ps, id, header, body) == ps
    decreases ps
  {
    if ps != [] {
      FindInAppend([ps[0]], PreOrder(ps[0].content) + PreOrderParts(ps[1..]), id);
      FindInAppend(PreOrder(ps[0].content), PreOrderParts(ps[1..]), id);
      SetContentNotFound(ps[0].content, id, header, body);
      SetContentPartsNotFound(ps[1..], id, header, body);
      assert [ps[0]] + ps[1..] == ps;
    }
  }

  lemma {:induction false} FindInAppend(a: seq<Part>, b: seq<Part>, id: PartId)
    ensures FindIn(a + b, id) == if FindIn(a, id).Some? then FindIn(a, id) else FindIn(b, id)
    decreases a
  {
    if a != [] {
      assert (a + b)[0] == a[0] && (a + b)[1..] == a[1..] + b;
      FindInAppend(a[1..], b, id);
    } else {
      assert a + b == b;
    }
  }

  /** `SetContentParts` rewrites each part where it stands. */
  lemma {:induction false} SetContentPartsEach(ps: seq<Part>, id: PartId, header: string, body: Content)
    requires body.Single?
    ensures |SetContentParts(ps, id, header, body)| == |ps|
    ensures forall i :: 0 <= i < |ps| ==> SetContentParts(ps, id, header, body)[i] == SetContentPart(ps[i], id, header, body)
    decreases ps
  {
    if ps != [] {
      SetContentPartsEach(ps[1..], id, header, body);
    }
  }

  lemma {:induction false} SetContentPartsAppend(a: seq<Part>, b: seq<Part>, id: PartId, header: string, body: Content)
    requires body.Single?
    ensures SetContentParts(a + b, id, header, body) == SetContentParts(a, id, header, body) + SetContentParts(b, id, header, body)
    decreases a
  {
    if a != [] {
      assert (a + b)[0] == a[0] && (a + b)[1..] == a[1..] + b;
      SetContentPartsAppend(a[1..], b, id, header, body);
    } else {
      assert a + b == b;
    }
  }

  /**
   * When the parts carrying `id` are leaves, the rewrite moves no part: the
   * traversal of the rewritten tree is the traversal of the tree with each
   * part rewritten where it stands, so only a part carrying `id` gets the new
   * header and content and every other leaf is left as it was.
   */
  lemma {:induction false} SetContentTraversal(c: Content, id: PartId, header: string, body: Content)
    requires body.Single? && LeafIds(PreOrder(c), id)
    ensures PreOrder(SetContent(c, id, header, body)) == SetContentParts(PreOrder(c), id, header, body)
    decreases c
  {
    match c
    case Single(_, _) =>
    case Multipart(ps) => SetContentPartsTraversal(ps, id, header, body);
  }

  lemma {:induction false} SetContentPartsTraversal(ps: seq<Part>, id: PartId, header: string, body: Content)
    requires body.Single? && LeafIds(PreOrderParts(ps), id)
    ensures PreOrderParts(SetContentParts(ps, id, header, body)) == SetContentParts(PreOrderParts(ps), id, header, body)
    decreases ps
  {
    if ps != [] {
      var p := ps[0];
      var q := SetContentPart(p, id, header, body);
      var rest := SetContentParts(ps[1..], id, header, body);
      assert SetContentParts(ps, id, header, body) == [q] + rest;
      assert PreOrderParts([q] + rest) == [q] + PreOrder(q.content) + PreOrderParts(rest);
      assert PreOrderParts(ps) == [p] + PreOrder(p.content) + PreOrderParts(ps[1..]);
      SetContentPartsTraversal(ps[1..], id, header, body);
      if p.id == id {
        assert p in PreOrderParts(ps);
        assert PreOrder(q.content) == [] && PreOrder(p.content) == [];
      } else {
        SetContentTraversal(p.content, id, header, body);
      }
      SetContentPartsAppend([p], PreOrder(p.content), id, header, body);
      SetContentPartsAppend([p] + PreOrder(p.content), PreOrderParts(ps[1..]), id, header, body);
      assert [p][1..] == [];
    }
  }
}
