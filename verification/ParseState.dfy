/** One node at a time through a document: what holds between two nodes, for every document, and what
    holds besides while nothing was wrong. */
module ParseState {
  import opened Chars
  import opened Token
  import opened Content
  import opened Index
  import opened Edit
  import opened Links
  import opened Effect
  import opened Represent
  import opened Tags
  import opened Position
  import opened ParseStack
  import opened ParseIndex
  import opened ParseLinks

  predicate ShapeOpen(st: Stack) {
    match st
    case Bottom => true
    case Push(b, l, t, _, s) => ShapeOpen(b) && Shape(l) && NoLt(t) && 3 <= |s| && s[0] == '<' && s[|s| - 1] == '>'
  }

  /** The names on the tag stack, outermost first. */
  function Names(st: Stack): (r: seq<string>)
    ensures |r| == OpenCount(st)
  {
    match st
    case Bottom => []
    case Push(b, _, _, _, s) => Names(b) + [NameOf(s)]
  }

  /** The text up to `p` is in the open lists. */
  ghost predicate Held(doc: string, st: Stack, left: Content, p: nat) {
    p <= |doc| && Prefix(st) + Render(left) == doc[..p] && ShapeOpen(st) && Shape(left)
  }

  /** As long as nothing is wrong, the recursive parser would get the document from here. */
  ghost predicate OnTrack(doc: string, st: Stack, left: Content, p: nat, ill: bool)
    requires p <= |doc|
  {
    if ill then ParseDoc(doc) == Fail
    else ParseDoc(doc) == Finish(doc, EraseStack(st), Erase(left), ParseContent(doc, p))
  }

  /** Between two nodes: text that begins at `p` is read up to `q`. */
  ghost predicate Reading(doc: string, elem: Elems, free: nat, st: Stack, left: Content, p: nat, q: nat, ill: bool) {
    && Parsing(elem, free, st, left) && Held(doc, st, left, p) && p <= q <= |doc| && NoLt(doc[p..q])
    && OnTrack(doc, st, left, p, ill)
  }

  lemma {:induction false} ShapeGraft(a: Content, b: Content)
    requires Shape(a) && Shape(b)
    ensures Shape(Graft(a, b))
  {
    match a
    case End(_) =>
    case Mark(_, _, r) => ShapeGraft(r, b);
    case Elem(_, _, _, _, _, r) => ShapeGraft(r, b);
  }

  lemma ReadStart(doc: string, elem: Elems)
    requires 0 < |elem| && elem[0].child == 0
    ensures Reading(doc, elem, 1, Bottom, End(""), 0, 0, false)
  {
    hide ParseContent;
    StartParsing(elem);
    FinishStart(doc);
  }

  // ---- Text ----

  lemma ReadText(doc: string, elem: Elems, free: nat, st: Stack, left: Content, p: nat, q: nat, ill: bool)
    requires Reading(doc, elem, free, st, left, p, q, ill) && q < |doc| && TextType(NodeIn(doc, q).typ)
    ensures q < NextNode(doc, q) <= |doc| && Reading(doc, elem, free, st, left, p, NextNode(doc, q), ill)
  {
    hide Parsing, Held, OnTrack, NodeAt, NoLt;
    var e := NextNode(doc, q);
    NodeProgress(doc[q..], q);
    assert doc[q..][..e - q] == doc[q..e];
    NoLtConcat(doc[p..q], doc[q..e]);
    assert doc[p..q] + doc[q..e] == doc[p..e];
  }

  /** A node that is no text stands at a `<`. */
  lemma NodeStands(doc: string, p: nat, q: nat)
    requires p <= q < |doc| && NoLt(doc[p..q]) && !TextType(NodeIn(doc, q).typ)
    ensures AtNode(doc, p, q) && q < NextNode(doc, q) <= |doc| && doc[q..NextNode(doc, q)] != "" && doc[q..NextNode(doc, q)][0] == '<'
    ensures NodeIn(doc, q).typ != END_OF_DOCUMENT
  {
    hide NodeAt;
    NodeProgress(doc[q..], q);
  }

  // ---- Comments and the like, bad nodes and lone end tags ----

  lemma Pieces(doc: string, p: nat, q: nat, e: nat)
    requires p <= q <= e <= |doc|
    ensures doc[..p] + doc[p..q] + doc[q..e] == doc[..e]
  {
  }

  lemma Appending(a: string, b: string, x: string, y: string)
    ensures a + (b + (x + y)) == a + b + x + y
  {
  }

  lemma MarkText(doc: string, left: Content, pre: string, p: nat, q: nat, e: nat)
    requires p <= q <= e <= |doc| && Bare(left) && pre + Render(left) == doc[..p]
    ensures pre + Render(Graft(left, Mark(doc[p..q], doc[q..e], End("")))) == doc[..e]
  {
    var m := Mark(doc[p..q], doc[q..e], End(""));
    assert Render(m) == doc[p..q] + doc[q..e];
    hide Render;
    RenderGraft(left, m);
    Appending(pre, Render(left), doc[p..q], doc[q..e]);
    Pieces(doc, p, q, e);
  }

  /** A node that is kept as it stands. */
  lemma HeldMark(doc: string, elem: Elems, free: nat, st: Stack, left: Content, p: nat, q: nat)
    requires Parsing(elem, free, st, left) && Held(doc, st, left, p) && p <= q < |doc| && NoLt(doc[p..q]) && !TextType(NodeIn(doc, q).typ)
    ensures q < NextNode(doc, q) <= |doc|
    ensures Held(doc, st, Graft(left, Mark(doc[p..q], doc[q..NextNode(doc, q)], End(""))), NextNode(doc, q))
  {
    hide OpenOk, ListOk, ShapeOpen, NodeIn, Render;
    var e := NextNode(doc, q);
    NodeStands(doc, p, q);
    PartBare(elem, left, Lo(st), |Prefix(st)|, OpenCount(st));
    MarkText(doc, left, Prefix(st), p, q, e);
    ShapeGraft(left, Mark(doc[p..q], doc[q..e], End("")));
  }

  lemma ReadMark(doc: string, elem: Elems, free: nat, st: Stack, left: Content, p: nat, q: nat, ill: bool)
    requires Reading(doc, elem, free, st, left, p, q, ill) && q < |doc|
    requires !TextType(NodeIn(doc, q).typ) && NodeIn(doc, q).typ !in {ELEMENT, END_TAG, BAD}
    ensures q < NextNode(doc, q) <= |doc|
    ensures var e := NextNode(doc, q); Reading(doc, elem, free, st, Graft(left, Mark(doc[p..q], doc[q..e], End(""))), e, e, ill)
  {
    hide Parsing, Held, NodeIn, ParseContent;
    var e := NextNode(doc, q);
    var x := Mark(doc[p..q], doc[q..e], End(""));
    NodeStands(doc, p, q);
    HeldMark(doc, elem, free, st, left, p, q);
    AppendMark(elem, free, st, left, doc[p..q], doc[q..e]);
    if !ill {
      FinishMark(doc, EraseStack(st), Erase(left), p, q);
      EraseGraft(left, x);
    }
  }

  /** A bad node, or an end tag that matches no open element: from here on the document is ill-formed. */
  lemma ReadWrong(doc: string, elem: Elems, free: nat, st: Stack, left: Content, p: nat, q: nat, ill: bool)
    requires Reading(doc, elem, free, st, left, p, q, ill) && q < |doc|
    requires NodeIn(doc, q).typ == BAD || (NodeIn(doc, q).typ == END_TAG && q < NextNode(doc, q) <= |doc| &&
                                           (st.Push? ==> !Match(NameOf(doc[q..NextNode(doc, q)]), NameOf(st.stag))))
    ensures q < NextNode(doc, q) <= |doc|
    ensures var e := NextNode(doc, q); Reading(doc, elem, free, st, Graft(left, Mark(doc[p..q], doc[q..e], End(""))), e, e, true)
  {
    hide Parsing, Held, NodeIn, ParseContent, Match, NameOf;
    var e := NextNode(doc, q);
    NodeStands(doc, p, q);
    HeldMark(doc, elem, free, st, left, p, q);
    AppendMark(elem, free, st, left, doc[p..q], doc[q..e]);
    WrongFails(doc, st, left, p, q, ill);
  }

  lemma WrongFails(doc: string, st: Stack, left: Content, p: nat, q: nat, ill: bool)
    requires p <= q < |doc| && OnTrack(doc, st, left, p, ill) && AtNode(doc, p, q) && q < NextNode(doc, q) <= |doc|
    requires NodeIn(doc, q).typ == BAD || (NodeIn(doc, q).typ == END_TAG &&
                                           (st.Push? ==> !Match(NameOf(doc[q..NextNode(doc, q)]), NameOf(st.stag))))
    ensures ParseDoc(doc) == Fail
  {
    hide NodeIn, ParseContent, Match, NameOf, ParseDoc;
    if !ill {
      if NodeIn(doc, q).typ == BAD {
        FinishBad(doc, EraseStack(st), Erase(left), p, q);
      } else {
        FinishClose(doc, EraseStack(st), Erase(left), p, q);
      }
    }
  }

  // ---- Start tags ----

  /** The record of an element whose start tag was just read. */
  predicate Born(e: ElemPos, start: int, len: nat, level: int, empty: bool) {
    && e.nStart == start && e.startTagLen == len && e.level == level && e.child == 0 && !e.nonEnded && !e.deleted
    && (empty ==> e.nLength == len && e.endTagLen == 0)
  }

  lemma TagText(doc: string, left: Content, pre: string, p: nat, q: nat, e: nat, id: nat)
    requires p <= q <= e <= |doc| && Bare(left) && pre + Render(left) == doc[..p]
    ensures pre + Render(Graft(left, Single(doc[p..q], id, doc[q..e]))) == doc[..e]
    ensures pre + Render(left) + doc[p..q] + doc[q..e] == doc[..e] && doc[..e] + "" == doc[..e]
    ensures |pre| + Len(left) == p
  {
    var m := Single(doc[p..q], id, doc[q..e]);
    assert Render(m) == doc[p..q] + doc[q..e];
    hide Render, Single;
    RenderGraft(left, m);
    Appending(pre, Render(left), doc[p..q], doc[q..e]);
    Pieces(doc, p, q, e);
  }

  lemma StartTag(doc: string, p: nat, q: nat)
    requires p <= q < |doc| && NoLt(doc[p..q]) && NodeIn(doc, q).typ == ELEMENT
    ensures AtNode(doc, p, q) && q + 3 <= NextNode(doc, q) <= |doc|
    ensures var s := doc[q..NextNode(doc, q)];
            3 <= |s| && s[0] == '<' && s[|s| - 1] == '>' && IsNode(s, ELEMENT) && NodeAt(s, 1).empty == NodeIn(doc, q).empty
  {
    hide NodeAt, NodeIn;
    NodeStands(doc, p, q);
    TagToken(doc, q);
    StartTagOpens(doc[q..NextNode(doc, q)]);
  }

  lemma HeldStart(doc: string, st: Stack, left: Content, p: nat, q: nat, id: nat)
    requires Bare(left) && Held(doc, st, left, p) && p <= q < |doc| && NoLt(doc[p..q]) && NodeIn(doc, q).typ == ELEMENT
    ensures q + 3 <= NextNode(doc, q) <= |doc| && |Prefix(st)| + Len(left) == p
    ensures var e := NextNode(doc, q); Held(doc, st, Graft(left, Single(doc[p..q], id, doc[q..e])), e)
    ensures Held(doc, Push(st, left, doc[p..q], id, doc[q..NextNode(doc, q)]), End(""), NextNode(doc, q))
  {
    hide NodeIn, Render, NodeAt, NameOf, IsNode, Single, NoLt;
    var e := NextNode(doc, q);
    StartTag(doc, p, q);
    TagText(doc, left, Prefix(st), p, q, e, id);
    SingleShape(doc[p..q], id, doc[q..e]);
    ShapeGraft(left, Single(doc[p..q], id, doc[q..e]));
    EmptyList();
  }

  lemma EmptyList()
    ensures Render(End("")) == "" && Shape(End(""))
  {
  }

  lemma SingleShape(text: string, id: nat, stag: string)
    requires NoLt(text) && 3 <= |stag| && stag[0] == '<' && stag[|stag| - 1] == '>'
    ensures Shape(Single(text, id, stag))
  {
  }

  /** An empty-element tag. */
  lemma ReadEmpty(doc: string, a: Elems, b: Elems, free: nat, st: Stack, left: Content, p: nat, q: nat, ill: bool)
    requires Reading(doc, a, free, st, left, p, q, ill) && q < |doc| && NodeIn(doc, q).typ == ELEMENT && NodeIn(doc, q).empty
    requires Appended(a, b, st, left, free) && Born(b[free], q, NodeIn(doc, q).len, OpenCount(st), true)
    ensures q < NextNode(doc, q) <= |doc|
    ensures var e := NextNode(doc, q); Reading(doc, b, free + 1, st, Graft(left, Single(doc[p..q], free, doc[q..e])), e, e, ill)
  {
    hide Held, NodeIn, ParseContent, ParseDoc, OpenOk, PartOk, ListOk, Relinked, IsNode, Finish, Graft;
    var e := NextNode(doc, q);
    PartBare(a, left, Lo(st), |Prefix(st)|, OpenCount(st));
    StartTag(doc, p, q);
    HeldStart(doc, st, left, p, q, free);
    AppendedFrame(a, b, free, st, left);
    AppendEmpty(b, free, st, left, doc[p..q], doc[q..e]);
    if !ill {
      FinishEmpty(doc, EraseStack(st), Erase(left), p, q);
      EraseGraft(left, Single(doc[p..q], free, doc[q..e]));
    }
  }

  /** A start tag. */
  lemma ReadOpen(doc: string, a: Elems, b: Elems, free: nat, st: Stack, left: Content, p: nat, q: nat, ill: bool)
    requires Reading(doc, a, free, st, left, p, q, ill) && q < |doc| && NodeIn(doc, q).typ == ELEMENT && !NodeIn(doc, q).empty
    requires Appended(a, b, st, left, free) && Born(b[free], q, NodeIn(doc, q).len, OpenCount(st), false)
    ensures q < NextNode(doc, q) <= |doc|
    ensures var e := NextNode(doc, q); Reading(doc, b, free + 1, Push(st, left, doc[p..q], free, doc[q..e]), End(""), e, e, ill)
  {
    hide Held, NodeIn, ParseContent, OpenOk, PartOk, ListOk, Relinked;
    var e := NextNode(doc, q);
    PartBare(a, left, Lo(st), |Prefix(st)|, OpenCount(st));
    StartTag(doc, p, q);
    HeldStart(doc, st, left, p, q, free);
    AppendedFrame(a, b, free, st, left);
    AppendOpen(b, free, st, left, doc[p..q], doc[q..e]);
    if !ill {
      FinishOpen(doc, EraseStack(st), Erase(left), p, q);
    }
  }

  // ---- End tags ----

  /** While the elements above a matching end tag, or above the end of the document, are repaired. */
  ghost predicate Mending(doc: string, elem: Elems, free: nat, st: Stack, left: Content, p: nat) {
    Repairing(elem, free, st, left) && Held(doc, st, left, p)
  }

  lemma StartMending(doc: string, elem: Elems, free: nat, st: Stack, left: Content, p: nat, q: nat, ill: bool)
    requires Reading(doc, elem, free, st, left, p, q, ill)
    ensures Mending(doc, elem, free, st, left, p)
  {
    hide Parsing, Repairing, Held, OnTrack;
    ParsingRepairing(elem, free, st, left);
  }

  lemma MendText(st: Stack, left: Content)
    requires st.Push? && Bare(st.left)
    ensures Prefix(st.below) + Render(Graft(st.left, Flattened(st, left))) == Prefix(st) + Render(left)
  {
    var x := Flattened(st, left);
    assert Render(x) == st.text + (st.stag + "" + "") + Render(left);
    hide Render, Flattened;
    RenderGraft(st.left, x);
    Regroup(Prefix(st.below), Render(st.left), st.text, st.stag, Render(left));
  }

  lemma Regroup(a: string, b: string, t: string, s: string, r: string)
    ensures a + (b + (t + (s + "" + "") + r)) == (a + b + t + s) + r
  {
  }

  lemma MendTop(doc: string, a: Elems, b: Elems, free: nat, st: Stack, left: Content, p: nat)
    requires Mending(doc, a, free, st, left, p) && Unended(a, b, st, left)
    ensures Mending(doc, b, free, st.below, Graft(st.left, Flattened(st, left)), p)
  {
    hide Repairing, Unended, Held, NameOf;
    assert st.Push? by { UnendedPush(a, b, st, left); }
    RepairTop(a, b, free, st, left);
    RepairBare(a, free, st, left);
    HeldMend(doc, st, left, p);
  }

  lemma HeldMend(doc: string, st: Stack, left: Content, p: nat)
    requires Held(doc, st, left, p) && st.Push? && Bare(st.left)
    ensures Held(doc, st.below, Graft(st.left, Flattened(st, left)), p)
  {
    hide Render, NodeAt, NameOf, IsNode;
    MendText(st, left);
    ShapeGraft(st.left, Flattened(st, left));
  }

  lemma RepairBare(elem: Elems, free: nat, st: Stack, left: Content)
    requires Repairing(elem, free, st, left) && st.Push?
    ensures Bare(st.left) && Bare(left)
  {
    OpenParts(elem, st);
    PartBare(elem, st.left, Lo(st.below), |Prefix(st.below)|, OpenCount(st.below));
  }

  lemma CloseRender(st: Stack, left: Content, text: string, etag: string)
    requires st.Push? && Bare(st.left) && Bare(left)
    ensures Prefix(st.below) + Render(Graft(st.left, Closing(st, left, text, etag))) == Prefix(st) + Render(left) + text + etag
  {
    var x := Closing(st, left, text, etag);
    assert Render(End(text)) == text;
    assert Render(x) == st.text + (st.stag + Render(Graft(left, End(text))) + etag) + "";
    hide Render, Closing;
    RenderGraft(left, End(text));
    RenderGraft(st.left, x);
    Regroup2(Prefix(st.below), Render(st.left), st.text, st.stag, Render(left), text, etag);
  }

  lemma Regroup2(a: string, b: string, t: string, s: string, r: string, x: string, e: string)
    ensures a + (b + (t + (s + (r + x) + e) + "")) == (a + b + t + s) + r + x + e
  {
  }

  /** The end tag at `q` closes the innermost open element. */
  predicate ClosesHere(doc: string, q: nat, st: Stack)
    requires q < |doc|
  {
    && NodeIn(doc, q).typ == END_TAG && q < NextNode(doc, q) <= |doc| && st.Push?
    && Match(NameOf(doc[q..NextNode(doc, q)]), NameOf(st.stag))
  }

  lemma HeldClose(doc: string, elem: Elems, free: nat, st: Stack, left: Content, p: nat, q: nat)
    requires Mending(doc, elem, free, st, left, p) && p <= q < |doc| && NoLt(doc[p..q]) && ClosesHere(doc, q, st)
    ensures var e := NextNode(doc, q); Held(doc, st.below, Graft(st.left, Closing(st, left, doc[p..q], doc[q..e])), e)
    ensures |Prefix(st)| + Len(left) == p
  {
    hide Repairing, NodeIn, Render, Match, NameOf, Closes, IsNode, NodeAt;
    var e := NextNode(doc, q);
    NodeStands(doc, p, q);
    RepairBare(elem, free, st, left);
    CloseRender(st, left, doc[p..q], doc[q..e]);
    Pieces(doc, p, q, e);
    ClosingShape(st, left, doc[p..q], doc[q..e]);
    ShapeGraft(st.left, Closing(st, left, doc[p..q], doc[q..e]));
  }

  lemma ClosingShape(st: Stack, left: Content, text: string, etag: string)
    requires st.Push? && ShapeOpen(st) && Shape(left) && NoLt(text) && etag != "" && etag[0] == '<'
    ensures Shape(Closing(st, left, text, etag))
  {
    ShapeGraft(left, End(text));
  }

  /** An end tag that closes the innermost open element, after the elements above it were repaired. */
  lemma ReadClose(doc: string, a: Elems, b: Elems, free: nat, st: Stack, left: Content, p: nat, q: nat, ill: bool)
    requires Mending(doc, a, free, st, left, p) && p <= q < |doc| && NoLt(doc[p..q]) && ClosesHere(doc, q, st)
    requires if ill then ParseDoc(doc) == Fail else Reading(doc, a, free, st, left, p, q, ill)
    requires OnlyAt(a, b, st.id) && st.id < |a| && st.id < |b| && EndStored(a[st.id], b[st.id], NodeIn(doc, q).len, q - a[st.id].nStart + NodeIn(doc, q).len)
    ensures var e := NextNode(doc, q); Reading(doc, b, free, st.below, Graft(st.left, Closing(st, left, doc[p..q], doc[q..e])), e, e, ill)
  {
    hide Held, NodeIn, ParseContent, OpenOk, PartOk, ListOk, OnlyAt, Match, NameOf, Closing, Parsing, ParseDoc, Repairing, Prefix;
    var e := NextNode(doc, q);
    NodeStands(doc, p, q);
    HeldClose(doc, a, free, st, left, p, q);
    EndLength(doc, a, free, st, left, p, q);
    CloseTop(a, b, free, st, left, doc[p..q], doc[q..e]);
    if !ill {
      FinishClose(doc, EraseStack(st), Erase(left), p, q);
      EraseClosing(st, left, doc[p..q], doc[q..e]);
    }
  }

  lemma EndLength(doc: string, elem: Elems, free: nat, st: Stack, left: Content, p: nat, q: nat)
    requires Mending(doc, elem, free, st, left, p) && st.Push? && p <= q <= |doc| && |Prefix(st)| + Len(left) == p
    ensures st.id < |elem| && q - elem[st.id].nStart == |st.stag| + Len(left) + |doc[p..q]|
  {
    OpenParts(elem, st);
  }

  lemma EraseClosing(st: Stack, left: Content, text: string, etag: string)
    requires st.Push?
    ensures var x := EraseStack(st);
            && x.Push? && x.stag == st.stag && x.below == EraseStack(st.below)
            && Graft(x.left, Elem(x.text, x.id, x.stag, Graft(Erase(left), End(text)), etag, End("")))
               == Erase(Graft(st.left, Closing(st, left, text, etag)))
  {
    EraseGraft(left, End(text));
    EraseGraft(st.left, Closing(st, left, text, etag));
  }

  // ---- The end of the document ----

  /** The index of any document: its elements are the slots 1, 2, and so on in document order, each is
      linked to its parent, its first child and its next sibling, and lies where its record says. */
  ghost predicate Indexed(doc: string, elem: Elems, free: nat, c: Content) {
    && doc == Render(c) && Shape(c) && Numbered(c, 1) && free == 1 + Count(c) && free <= |elem|
    && Kin(elem, c, 0) && Spans(elem, c, 0, 0)
  }

  lemma EndPart(doc: string, p: nat)
    requires p <= |doc|
    ensures doc == doc[..p] + doc[p..] && doc[p..|doc|] == doc[p..]
  {
  }

  lemma ReadEnd(doc: string, elem: Elems, free: nat, left: Content, p: nat)
    requires Mending(doc, elem, free, Bottom, left, p) && AtNode(doc, p, |doc|)
    ensures Indexed(doc, elem, free, Graft(left, End(doc[p..])))
  {
    CloseText(elem, left, doc[p..], 1, 0, 0, 0);
    RenderGraft(left, End(doc[p..]));
    EndPart(doc, p);
    assert "" + Render(left) == Render(left);
    ShapeGraft(left, End(doc[p..]));
  }

  /** A document in which nothing was wrong. */
  lemma AtTheEnd(doc: string, elem: Elems, free: nat, st: Stack, left: Content, p: nat, ill: bool)
    requires Reading(doc, elem, free, st, left, p, |doc|, ill)
    ensures p <= |doc| && AtNode(doc, p, |doc|)
  {
    hide Parsing, Held, OnTrack;
  }

  lemma ReadEndFine(doc: string, elem: Elems, free: nat, st: Stack, left: Content, p: nat, ill: bool)
    requires Reading(doc, elem, free, st, left, p, |doc|, ill)
    ensures !ill && st.Bottom? ==> ParseDoc(doc) == Done(Erase(Graft(left, End(doc[p..]))), |doc|)
    ensures ill || st.Push? ==> ParseDoc(doc) == Fail
  {
    hide ParseContent, ParseDoc, PartOk, Finish, Deep, ListOk, Offsets, Numbered, Bare, Shape, Render, Graft, Held, OpenOk;
    assert p <= |doc| && AtNode(doc, p, |doc|) by { AtTheEnd(doc, elem, free, st, left, p, ill); }
    if !ill {
      FinishEnd(doc, EraseStack(st), Erase(left), p);
      EraseGraft(left, End(doc[p..]));
    }
  }

  // ---- For the loop ----

  lemma ReadGrows(doc: string, a: Elems, b: Elems, free: nat, st: Stack, left: Content, p: nat, q: nat, ill: bool)
    requires Reading(doc, a, free, st, left, p, q, ill) && |a| <= |b| && forall i :: 0 <= i < |a| ==> Alike(a[i], b[i])
    ensures Reading(doc, b, free, st, left, p, q, ill)
  {
    hide Parsing, Held, Alike, ParseContent, ParseDoc, Finish;
    ParsingGrows(a, b, free, st, left);
  }

  /** The next slot can be linked in at the end of the innermost open list. */
  lemma ReadyToAppend(elem: Elems, free: nat, st: Stack, left: Content)
    requires Parsing(elem, free, st, left) && free < |elem|
    ensures CanLink(elem, TopId(st), TopSeq(left), |TopSeq(left)|, free) && 0 < free && TopId(st) < free
    ensures 0 !in TopSeq(left) && free !in TopSeq(left)
  {
    hide OpenOk, PartOk, ListOk, DistinctSlots;
    LeftTop(elem, left, Lo(st), |Prefix(st)|, OpenCount(st), free, TopId(st));
  }

  lemma ReadParts(doc: string, elem: Elems, free: nat, st: Stack, left: Content, p: nat, q: nat, ill: bool)
    requires Reading(doc, elem, free, st, left, p, q, ill)
    ensures Parsing(elem, free, st, left) && 0 < free <= |elem| && TopId(st) < free && OpenOk(elem, st) && p <= q <= |doc| && NoLt(doc[p..q])
    ensures elem[TopId(st)].child == FirstId(left) && (st.Bottom? ==> (FirstId(left) == 0 <==> free == 1))
  {
    hide OpenOk, Chain, Spans, Chains, Held, OnTrack;
    ParsingRepairing(elem, free, st, left);
    FirstOrNone(left, Lo(st));
  }

  lemma {:induction false} FirstOrNone(l: Content, lo: nat)
    requires Numbered(l, lo) && 0 < lo
    ensures FirstId(l) == if Count(l) == 0 then 0 else lo
  {
    match l
    case End(_) =>
    case Mark(_, _, r) => FirstOrNone(r, lo);
    case Elem(_, _, _, _, _, _) =>
  }

  /** The record of the virtual parent while the document is read. */
  predicate Virtual(e: ElemPos) {
    e == BLANK.(child := e.child, illFormed := e.illFormed, illData := e.illData)
  }

  lemma {:induction false} RootStarted(elem: Elems, st: Stack)
    requires OpenOk(elem, st) && st.Push?
    ensures elem[0].child != 0 && TopId(st) != 0
    decreases st
  {
    hide PartOk, ListOk;
    if st.below.Push? {
      RootStarted(elem, st.below);
    } else {
      var s := TopSeq(st.left) + [st.id];
      PartTop(elem, st.left, 1, 0, 0, 0, st.id);
      ListChild(elem, 0, s);
      assert s[0] in s;
    }
  }

  /** Linking in an element touches the virtual parent in its first-child link only. */
  lemma VirtualAppended(a: Elems, b: Elems, free: nat, st: Stack, left: Content)
    requires Parsing(a, free, st, left) && 0 < |a| && Appended(a, b, st, left, free) && 0 !in TopSeq(left) && free != 0
    ensures b[0] == a[0].(child := if a[0].child == 0 then free else a[0].child)
  {
    hide ListOk, PartOk, OpenOk;
    if st.Bottom? {
      ListChild(b, 0, TopSeq(left) + [free]);
      ListChild(a, 0, TopSeq(left));
    } else {
      RootStarted(a, st);
    }
  }

  lemma SameAlike(a: Elems, b: Elems)
    requires |a| <= |b| && b[..|a|] == a
    ensures forall i :: 0 <= i < |a| ==> Alike(a[i], b[i])
  {
    forall i | 0 <= i < |a| ensures Alike(a[i], b[i]) { assert b[..|a|][i] == b[i]; }
  }

  lemma VirtualKept(a: ElemPos, b: ElemPos)
    requires Virtual(a) && b == a.(child := b.child)
    ensures Virtual(b) && b.illFormed == a.illFormed && b.illData == a.illData
  {
  }

  lemma VirtualMarked(a: ElemPos, b: ElemPos)
    requires Virtual(a) && b == a.(illData := b.illData)
    ensures Virtual(b) && b.illFormed == a.illFormed && b.child == a.child
  {
  }

  /** Writing the other fields of the new element. */
  lemma AppendedStill(a: Elems, m: Elems, b: Elems, st: Stack, left: Content, x: nat)
    requires Appended(a, m, st, left, x) && x !in TopSeq(left) && TopId(st) != x && |b| == |m|
    requires SameSiblings(m[x], b[x]) && forall i :: 0 <= i < |m| && i != x ==> b[i] == m[i]
    ensures Appended(a, b, st, left, x)
  {
    ListFrame(m, b, TopId(st), TopSeq(left) + [x]);
  }

  lemma {:induction false} LevelName(st: Stack, n: nat)
    requires 0 < n <= OpenCount(st)
    ensures Level(st, n).Push? && Names(st)[n - 1] == NameOf(Level(st, n).stag) && OpenCount(Level(st, n)) == n
    decreases st
  {
    hide NameOf;
    if n < OpenCount(st) {
      LevelName(st.below, n);
    } else {
      LevelBelow(st);
    }
  }

  lemma {:induction false} LevelLevel(st: Stack, n: nat)
    requires st.Push? && n < OpenCount(st)
    ensures Level(st.below, n) == Level(st, n) && Names(st.below) == Names(st)[..|Names(st)| - 1]
  {
    hide NameOf;
  }

  lemma MendFacts(doc: string, elem: Elems, free: nat, st: Stack, left: Content, p: nat)
    requires Mending(doc, elem, free, st, left, p)
    ensures Repairing(elem, free, st, left) && OpenOk(elem, st) && TopId(st) < |elem| && 0 < |elem|
  {
    hide Chain, Spans, Held;
  }

  lemma LevelSame(st: Stack, n: nat)
    requires OpenCount(st) <= n
    ensures Level(st, n) == st
  {
  }

  /** What the end tag stores before the repairs leaves the parse where it was. */
  lemma StoreMending(doc: string, a: Elems, b: Elems, free: nat, st: Stack, left: Content, p: nat, q: nat, ill: bool, n: nat, len: int, et: int)
    requires Reading(doc, a, free, st, left, p, q, ill) && 0 < n <= OpenCount(st)
    requires var m := TopId(Level(st, n)); 0 < m < |a| && b == a[m := a[m].(nLength := len, endTagLen := et)]
    ensures Mending(doc, b, free, st, left, p) && b[0] == a[0]
    ensures Mending(doc, b[0 := b[0].(illFormed := true)], free, st, left, p)
  {
    hide Repairing, Held, OnTrack, Parsing;
    StartMending(doc, a, free, st, left, p, q, ill);
    RepairingStore(a, b, free, st, left, n, len, et);
    RepairingMarks(b, b[0 := b[0].(illFormed := true)], free, st, left);
  }

  /** The end tag closes an element at the top of the stack. */
  lemma ReadMatched(doc: string, a: Elems, b: Elems, free: nat, st: Stack, left: Content, p: nat, q: nat, ill: bool)
    requires Reading(doc, a, free, st, left, p, q, ill) && q < |doc| && ClosesHere(doc, q, st) && st.id < |a|
    requires var k := NodeIn(doc, q).len; b == a[st.id := a[st.id].(nLength := q - a[st.id].nStart + k, endTagLen := k)]
    ensures var e := NextNode(doc, q); Reading(doc, b, free, st.below, Graft(st.left, Closing(st, left, doc[p..q], doc[q..e])), e, e, ill)
  {
    hide Match, NameOf, ParseDoc, Parsing, Held, ParseContent, Mending, Closing;
    StartMending(doc, a, free, st, left, p, q, ill);
    FailsIfIll(doc, a, free, st, left, p, q, ill);
    ReadClose(doc, a, b, free, st, left, p, q, ill);
  }

  lemma FailsIfIll(doc: string, elem: Elems, free: nat, st: Stack, left: Content, p: nat, q: nat, ill: bool)
    requires Reading(doc, elem, free, st, left, p, q, ill)
    ensures ill ==> ParseDoc(doc) == Fail
  {
  }

  /** The end tag closes an element below the top of the stack, whose record was stored before the repairs. */
  lemma ReadMended(doc: string, b: Elems, free: nat, st: Stack, left: Content, p: nat, q: nat)
    requires Mending(doc, b, free, st, left, p) && p <= q < |doc| && NoLt(doc[p..q]) && ClosesHere(doc, q, st)
    requires ParseDoc(doc) == Fail && st.id < |b|
    requires b[st.id].nLength == q - b[st.id].nStart + NodeIn(doc, q).len && b[st.id].endTagLen == NodeIn(doc, q).len
    ensures var e := NextNode(doc, q); Reading(doc, b, free, st.below, Graft(st.left, Closing(st, left, doc[p..q], doc[q..e])), e, e, true)
  {
    hide Match, NameOf, ParseDoc, Held, Mending, Closing, NodeIn, Reading;
    OnlyAtSelf(b, st.id);
    ReadClose(doc, b, b, free, st, left, p, q, true);
  }

  /** The lengths that the end tag at `q` stores in the record of the element that it closes. */
  predicate Stored(a: ElemPos, m: ElemPos, q: nat, len: nat) {
    m == a.(nLength := q - a.nStart + len, endTagLen := len)
  }

  /** The end tag is read, in either case: `a` becomes `m` when its lengths are stored, and `b` when the elements above
      have been repaired. */
  lemma EndRead(doc: string, a: Elems, m: Elems, b: Elems, free: nat, st: Stack, left: Content, p: nat, q: nat, ill: bool, n: nat, left': Content)
    requires Reading(doc, a, free, st, left, p, q, ill) && q < |doc| && 0 < n <= OpenCount(st) && Mending(doc, b, free, Level(st, n), left', p)
    requires Level(st, n).Push? && ClosesHere(doc, q, Level(st, n))
    requires forall j :: n <= j < |Names(st)| ==> !Match(NameOf(doc[q..NextNode(doc, q)]), Names(st)[j])
    requires var x := Level(st, n).id;
             && x < |a| == |m| == |b| && Stored(a[x], m[x], q, NodeIn(doc, q).len) && b[x] == m[x].(illData := b[x].illData)
             && (n == OpenCount(st) ==> left' == left && m == a[x := m[x]] && b == m)
    ensures var top, e := Level(st, n), NextNode(doc, q);
            Reading(doc, b, free, top.below, Graft(top.left, Closing(top, left', doc[p..q], doc[q..e])), e, e, ill || n < OpenCount(st))
  {
    hide Match, NameOf, ParseDoc, Mending, Closing, NodeIn, Reading, Level, Graft, Parsing, OpenOk, NoLt, Names, OpenCount, ClosesHere, NextNode;
    if n < OpenCount(st) {
      EndReadMended(doc, a, b, free, st, left, p, q, ill, n, left');
    } else {
      LevelSame(st, n);
      EndReadMatched(doc, a, b, free, st, left, p, q, ill);
    }
  }

  lemma EndReadMended(doc: string, a: Elems, b: Elems, free: nat, st: Stack, left: Content, p: nat, q: nat, ill: bool, n: nat, left': Content)
    requires Reading(doc, a, free, st, left, p, q, ill) && q < |doc| && n < OpenCount(st) && Mending(doc, b, free, Level(st, n), left', p)
    requires Level(st, n).Push? && ClosesHere(doc, q, Level(st, n)) && Level(st, n).id < |b|
    requires forall j :: n <= j < |Names(st)| ==> !Match(NameOf(doc[q..NextNode(doc, q)]), Names(st)[j])
    requires var x, k := Level(st, n).id, NodeIn(doc, q).len; b[x].nLength == q - b[x].nStart + k && b[x].endTagLen == k
    ensures var top, e := Level(st, n), NextNode(doc, q);
            Reading(doc, b, free, top.below, Graft(top.left, Closing(top, left', doc[p..q], doc[q..e])), e, e, true)
  {
    hide Match, NameOf, ParseDoc, Mending, Closing, NodeIn, Reading, Level, Graft, Parsing, OpenOk, NoLt, Names, OpenCount;
    ReadParts(doc, a, free, st, left, p, q, ill);
    TopFails(doc, a, free, st, left, p, q, ill, n);
    ReadMended(doc, b, free, Level(st, n), left', p, q);
  }

  lemma EndReadMatched(doc: string, a: Elems, b: Elems, free: nat, st: Stack, left: Content, p: nat, q: nat, ill: bool)
    requires Reading(doc, a, free, st, left, p, q, ill) && q < |doc| && st.Push? && ClosesHere(doc, q, st)
    requires st.id < |a| == |b| && Stored(a[st.id], b[st.id], q, NodeIn(doc, q).len) && b == a[st.id := b[st.id]]
    ensures var e := NextNode(doc, q);
            Reading(doc, b, free, st.below, Graft(st.left, Closing(st, left, doc[p..q], doc[q..e])), e, e, ill)
  {
    hide ParseDoc, Closing, NodeIn, Reading, Graft, ClosesHere;
    ReadMatched(doc, a, b, free, st, left, p, q, ill);
  }

  lemma NamesBelow(st: Stack)
    requires st.Push?
    ensures Names(st.below) == Names(st)[..|Names(st)| - 1]
  {
    hide NameOf;
  }

  /** The end tag does not match the top of the stack. */
  lemma TopFails(doc: string, elem: Elems, free: nat, st: Stack, left: Content, p: nat, q: nat, ill: bool, n: nat)
    requires Reading(doc, elem, free, st, left, p, q, ill) && q < |doc| && NodeIn(doc, q).typ == END_TAG && q < NextNode(doc, q) <= |doc|
    requires n < |Names(st)| && forall j :: n <= j < |Names(st)| ==> !Match(NameOf(doc[q..NextNode(doc, q)]), Names(st)[j])
    ensures ParseDoc(doc) == Fail
  {
    hide Match, NameOf, ParseDoc, Parsing, Held, OnTrack, NodeIn;
    NodeStands(doc, p, q);
    assert st.Push? ==> Names(st)[|Names(st)| - 1] == NameOf(st.stag);
    WrongFails(doc, st, left, p, q, ill);
  }

  lemma {:induction false} LevelZero(st: Stack)
    ensures Level(st, 0) == Bottom
    decreases st
  {
    if st.Push? { LevelZero(st.below); }
  }

  lemma NamesTop(st: Stack)
    ensures st.Push? ==> |Names(st)| > 0 && Names(st)[|Names(st)| - 1] == NameOf(st.stag)
  {
    hide NameOf;
  }

  lemma NodeLonger(doc: string, p: nat, q: nat)
    requires p <= q < |doc|
    ensures q < NextNode(doc, q) <= |doc|
  {
    hide NodeAt;
  }

  /** The end of the document, and only the end, is no node. */
  lemma NodeTypes(doc: string, p: nat, q: nat)
    requires p <= q <= |doc|
    ensures NodeIn(doc, q).typ == END_OF_DOCUMENT <==> q == |doc|
    ensures q < |doc| ==> q < NextNode(doc, q) <= |doc|
  {
    if q < |doc| {
      NodeProgress(doc[q..], q);
    }
  }

  lemma BlankVirtual()
    ensures Virtual(BLANK) && Names(Bottom) == []
  {
  }

  lemma NamesPush(st: Stack, left: Content, text: string, id: nat, stag: string)
    ensures Names(Push(st, left, text, id, stag)) == Names(st) + [NameOf(stag)] && TopId(Push(st, left, text, id, stag)) == id
    ensures OpenCount(st) == |Names(st)|
  {
    hide NameOf;
  }

  // ---- The whole document ----

  /** How many elements stand at the top of the document. */
  function Roots(c: Content): nat {
    |TopSeq(c)|
  }

  lemma {:induction false} RootsErase(c: Content)
    ensures Roots(Erase(c)) == Roots(c)
  {
    match c
    case End(_) =>
    case Mark(_, _, r) => RootsErase(r);
    case Elem(_, _, _, _, _, r) => RootsErase(r);
  }

  /** The links by which the elements of a document are reached from the virtual parent. */
  predicate Reached(elem: Elems, c: Content) {
    0 < |elem| && elem[0].child == FirstId(c) && Chain(elem, c, 0) && Distinct(c)
  }

  /** The first-child link of the virtual parent and the next link there tell whether there is one root. */
  lemma OneRoot(elem: Elems, c: Content)
    requires Reached(elem, c)
    ensures 0 < |elem| && elem[0].child < |elem| && (elem[0].child != 0 && elem[elem[0].child].next == 0 <==> Roots(c) == 1)
    ensures Roots(Erase(c)) == Roots(c)
  {
    RootsErase(c);
    FirstRoot(elem, c);
  }

  lemma ReachedWhenRead(doc: string, elem: Elems, free: nat, c: Content)
    requires Indexed(doc, elem, free, c)
    ensures Reached(elem, c)
  {
    hide Spans, Render, Shape, Chain, Rings, Tail;
    NumberedIds(c, 1);
  }

  lemma ReachedWhenEdited(doc: string, elem: Elems, free: nat, c: Content)
    requires Represents(doc, elem, free, c)
    ensures Reached(elem, c)
  {
    hide Deep, Offsets, Shape, Render, Chain;
    LinkedInRange(elem, c);
    TopFirst(c);
  }

  lemma TopFirst(c: Content)
    ensures FirstId(c) == if TopSeq(c) == [] then 0 else TopSeq(c)[0]
  {
  }

  lemma {:induction false} FirstRoot(elem: Elems, c: Content)
    requires Chain(elem, c, 0) && Distinct(c) && 0 < |elem|
    ensures FirstId(c) < |elem| && (FirstId(c) != 0 && elem[FirstId(c)].next == 0 <==> Roots(c) == 1) && (FirstId(c) == 0 <==> Roots(c) == 0)
  {
    match c
    case End(_) =>
    case Mark(_, _, r) => FirstRoot(elem, r);
    case Elem(_, _, _, _, _, r) => FirstRoot(elem, r);
  }

  lemma RootLength(elem: Elems, c: Content, n: int)
    requires Kin(elem, c, 0) && Numbered(c, 1) && Spans(elem, c, 0, 0)
    ensures var e := elem[0 := elem[0].(nLength := n)]; Kin(e, c, 0) && Spans(e, c, 0, 0)
  {
    hide Chain, Rings, Spans, Tail;
    var e := elem[0 := elem[0].(nLength := n)];
    NumberedIds(c, 1);
    KinFrame(elem, e, c, 0);
    SpansFrame(elem, e, c, 0, 0);
  }

  /** Of every document, the links are those that edits rely on exactly if no list has an element behind one that is not
      ended, and the records are if every element is ended. */
  lemma IndexedIff(doc: string, elem: Elems, free: nat, c: Content)
    requires Indexed(doc, elem, free, c)
    ensures Linked(elem, c) <==> Undisturbed(c)
    ensures Offsets(elem, c, 0, 0) <==> AllEnded(c)
    ensures RootOk(elem, |doc|) ==> (Represents(doc, elem, free, c) <==> AllEnded(c))
  {
    hide Kin, Spans, Linked, Offsets, Shape, Undisturbed, AllEnded, Render;
    LinkedIff(elem, c);
    OffsetsIff(elem, c, 0, 0);
    if AllEnded(c) { EndedUndisturbed(c); }
    NumberedIds(c, 1);
  }

  lemma DocumentRead(doc: string, elem: Elems, free: nat, c: Content)
    requires Indexed(doc, elem, free, c) && Virtual(elem[0])
    ensures var e := elem[0 := elem[0].(nLength := |doc|)];
            Indexed(doc, e, free, c) && !e[0].deleted && RootOk(e, |doc|) && CursorOk(c, 0, 0, 0)
    ensures elem[0].child < |elem| && elem[0].(child := elem[0].child) == elem[0]
  {
    hide Spans, Kin, Shape, Render, Numbered;
    ReachedWhenRead(doc, elem, free, c);
    OneRoot(elem, c);
    RootLength(elem, c, |doc|);
  }

  /** No slot has been given out but those of the elements. */
  lemma ReadMarks(doc: string, elem: Elems, free: nat, c: Content)
    requires Indexed(doc, elem, free, c) && !elem[0].illFormed && !elem[0].deleted
    ensures Marked(elem, free, c)
  {
    NumberedIds(c, 1);
  }

  lemma NothingRead(doc: string, elem: Elems)
    requires doc == "" && 0 < |elem| && elem[0] == BLANK
    ensures Indexed(doc, elem, 1, End("")) && Represents(doc, elem, 1, End("")) && ParseDoc(doc) == Done(Erase(End("")), 0) && CursorOk(End(""), 0, 0, 0)
  {
    assert TextEnd(doc, 0) == 0;
    assert ParseContent(doc, 0) == ParseTags(doc, 0, 0);
  }
}
