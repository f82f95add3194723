/** `x_SetData` as an edit of the content, and why the index stays in step. */
module SetData {
  import opened Chars
  import opened Content
  import opened Index
  import opened Edit
  import opened Links
  import opened Effect
  import opened Represent
  import opened Position
  import opened AddElem

  /** Element `p` with the content `k` instead of its own, and with an end tag. */
  function Filled(c: Content, p: nat, k: Content): Content {
    var n := Subtree(c, p);
    if n.Elem? then With(c, p, Opened(n), k, Closed(n)) else c
  }

  /** The element has no child elements, and neither has its new content. */
  predicate CanFill(c: Content, p: nat, k: Content) {
    p in Ids(c) && Subtree(c, p).Elem? && Ids(Subtree(c, p).kids) == {} && Ids(k) == {} && Shape(k)
  }

  lemma FilledSlots(c: Content, p: nat, k: Content)
    requires Distinct(c) && CanFill(c, p, k)
    ensures Ids(Filled(c, p, k)) == Ids(c) && Distinct(Filled(c, p, k)) && Distinct(k)
  {
    hide Opened, Closed, Shape;
    NoIds(k);
    WithSlots(c, p, Opened(Subtree(c, p)), k, Closed(Subtree(c, p)));
  }

  lemma FilledShape(c: Content, p: nat, k: Content)
    requires Shape(c) && CanFill(c, p, k)
    ensures Shape(Filled(c, p, k))
  {
    hide Opened, Closed, ShapedTags;
    var n := Subtree(c, p);
    SubtreeShape(c, p);
    SplitShape(n, k);
    ShapeWith(c, p, Opened(n), k, Closed(n));
  }

  /** The records when `p` has its new tags and its new length. */
  function Retag(a: Elems, c: Content, p: nat, d: int): (b: Elems)
    ensures |b| == |a|
  {
    var t := WithTags(a, c, p);
    if p < |a| then t[p := t[p].(nLength := t[p].nLength + d)] else t
  }

  lemma RetagAt(a: Elems, c: Content, p: nat, d: int, i: nat)
    requires i < |a| && i != p
    ensures Retag(a, c, p, d)[i] == a[i]
  {
    hide WithTags;
    WithTagsAt(a, c, p, i);
  }

  lemma RetagSelf(doc: string, a: Elems, free: nat, c: Content, p: nat, d: int)
    requires Represents(doc, a, free, c) && p in Ids(c)
    ensures p < |a| && p != 0 && Subtree(c, p).Elem?
    ensures var n, b := Subtree(c, p), Retag(a, c, p, d)[p];
            Retagged(a[p], b, Opened(n), Closed(n)) && b.nLength == a[p].nLength + d && SameSiblings(a[p], b) && b.child == a[p].child
            && |Opened(n)| >= 2
  {
    hide Opened, Closed, Offsets, Linked, Shape;
    ElementAt(doc, a, free, c, p);
    var n := Subtree(c, p);
    SplitShape(n, n.kids);
    if n.etag != "" { OpenedSame(n); }
  }

  lemma FilledLinked(doc: string, a: Elems, free: nat, c: Content, p: nat, k: Content, d: int)
    requires Represents(doc, a, free, c) && CanFill(c, p, k)
    ensures Linked(Retag(a, c, p, d), Filled(c, p, k))
  {
    hide Opened, Closed, Offsets, Shape, WithTags, Retag, Distinct, Ids;
    var n, b := Subtree(c, p), Retag(a, c, p, d);
    RetagSelf(doc, a, free, c, p, d);
    NoIds(k);
    NoIds(n.kids);
    DeepAt(a, c, p);
    forall i | 0 <= i < |a| && i != p ensures b[i] == a[i] { RetagAt(a, c, p, d, i); }
    TopSeqFacts(c);
    assert ListOk(b, p, TopSeq(k));
    DeepWith(a, b, c, p, Opened(n), k, Closed(n));
    WithTop(c, p, Opened(n), k, Closed(n));
    ListFrame(a, b, 0, TopSeq(c));
  }

  lemma FilledStale(doc: string, a: Elems, free: nat, c: Content, p: nat, k: Content, d: int)
    requires Represents(doc, a, free, c) && CanFill(c, p, k) && d == Growth(c, p, Opened(Subtree(c, p)), k, Closed(Subtree(c, p)))
    ensures Stale(Retag(a, c, p, d), Filled(c, p, k), p, d, 0, 0)
  {
    hide Opened, Closed, Offsets, Shape, WithTags, Retag, Stale, Linked, Growth, Distinct;
    var n, b := Subtree(c, p), Retag(a, c, p, d);
    RetagSelf(doc, a, free, c, p, d);
    forall i | 0 <= i < |a| && i != p ensures b[i] == a[i] { RetagAt(a, c, p, d, i); }
    NoOffsets(b, k, |Before(c, p)| + |Opened(n)| - d, LevelOf(c, p, 0) + 1);
    StaleTarget(a, b, c, p, Opened(n), k, Closed(n), d, 0, 0);
  }

  /** `x_Adjust` neither reads nor changes the length of the element it starts from. */
  lemma LengthAfter(a: Elems, c: Content, p: nat, s: int, d: int)
    requires InRange(c, |a|) && Distinct(c) && p in Ids(c) && p < |a|
    ensures AddLength(Adjusted(a, c, p, s, false), p, d) == Adjusted(AddLength(a, p, d), c, p, s, false)
  {
    hide Adjusted;
    NoZero(c);
    AroundFollowing(c, p, false);
    var x, y := AddLength(Adjusted(a, c, p, s, false), p, d), Adjusted(AddLength(a, p, d), c, p, s, false);
    forall i | 0 <= i < |a| ensures x[i] == y[i] {
      AdjustedAt(a, c, p, s, false, i);
      AdjustedAt(AddLength(a, p, d), c, p, s, false, i);
    }
  }

  /** After `x_Adjust` the index represents the document with the new content in it. */
  lemma FilledRepresents(doc: string, a: Elems, free: nat, c: Content, p: nat, k: Content, d: int)
    requires Represents(doc, a, free, c) && CanFill(c, p, k) && d == Len(Filled(c, p, k)) - Len(c)
    ensures var c', b := Filled(c, p, k), WithTags(a, c, p);
            && Chain(b, c', 0) && InRange(c', |b|) && Distinct(c') && p in Ids(c') && 0 < |b| && b[0].startTagLen == 0 && p < |b|
            && Represents(Render(c'), AddLength(Adjusted(b, c', p, d, false), p, d), free, c')
  {
    hide Opened, Closed, Offsets, Shape, Stale, Linked, Growth, Distinct, WithTags, Retag, Adjusted, Chain, Filled;
    var c', b := Filled(c, p, k), WithTags(a, c, p);
    var n := Subtree(c, p);
    FilledSlots(c, p, k);
    FilledShape(c, p, k);
    FilledLen(c, p, k);
    FilledStale(doc, a, free, c, p, k, d);
    FilledLinked(doc, a, free, c, p, k, d);
    RetagSelf(doc, a, free, c, p, d);
    RetagIs(a, c, p, d);
    RetagAt(a, c, p, d, 0);
    AdjustDone(Retag(a, c, p, d), c', p, d);
    RetagChain(a, c, c', p, d);
    LengthAfter(b, c', p, d, d);
  }

  lemma RetagIs(a: Elems, c: Content, p: nat, d: int)
    requires p < |a|
    ensures Retag(a, c, p, d) == AddLength(WithTags(a, c, p), p, d)
    ensures p != 0 ==> WithTags(a, c, p)[0] == a[0]
  {
  }

  lemma FilledLen(c: Content, p: nat, k: Content)
    requires CanFill(c, p, k)
    ensures Len(Filled(c, p, k)) == Len(c) + Growth(c, p, Opened(Subtree(c, p)), k, Closed(Subtree(c, p)))
  {
    hide Opened, Closed, Growth;
    LenWith(c, p, Opened(Subtree(c, p)), k, Closed(Subtree(c, p)));
  }

  lemma RetagChain(a: Elems, c: Content, c': Content, p: nat, d: int)
    requires p < |a| && Chain(Retag(a, c, p, d), c', 0)
    ensures Chain(WithTags(a, c, p), c', 0)
  {
    hide WithTags;
    ChainFrame(Retag(a, c, p, d), WithTags(a, c, p), c', 0);
  }

  // ---- The text ----

  /** The text after `x_InsertNew` has replaced the content of `p` by `x`. */
  function DataText(c: Content, p: nat, x: string): string {
    var n := Subtree(c, p);
    if n.Elem? && n.etag == "" then SpliceAt(Render(c), |Before(c, p)| + |n.stag| - 2, 1, (">" + x) + "</" + WordOf(n.stag))
    else SpliceAt(Render(c), |Ahead(c, p)|, Len(Below(c, p)), x)
  }

  lemma FilledDoc(c: Content, p: nat, k: Content)
    requires Shape(c) && Distinct(c) && CanFill(c, p, k)
    ensures Render(Filled(c, p, k)) == DataText(c, p, Render(k))
    ensures |Ahead(c, p)| + Len(Below(c, p)) <= |Render(c)|
  {
    hide Opened, Closed, WordOf, Render, Shape, Before, After;
    NoZero(c);
    var n := Subtree(c, p);
    ListText(c, p);
    if n.etag == "" {
      FilledText(c, p, k);
      Assoc(Render(k), "</", WordOf(n.stag));
    } else {
      FilledOver(c, p, k);
    }
  }

  lemma FilledOver(c: Content, p: nat, k: Content)
    requires Shape(c) && Distinct(c) && CanFill(c, p, k) && Subtree(c, p).etag != ""
    ensures Render(Filled(c, p, k)) == DataText(c, p, Render(k))
  {
    hide Opened, Closed, WordOf, Render, Shape, Before, After, Splice;
    NoZero(c);
    var n := Subtree(c, p);
    WholeSplice(Render(n.kids), Render(k));
    ReplacedText(c, p, k, 0, Len(n.kids), Render(k));
  }

  lemma Assoc(x: string, a: string, b: string)
    ensures (">" + x) + a + b == ">" + x + (a + b)
  {
  }

  lemma WholeSplice(a: string, x: string)
    ensures x == Splice(a, 0, |a|, x)
  {
    assert "" + x + "" == x;
  }

  // ---- The cursor ----

  lemma {:induction false} NoTop(k: Content)
    requires Ids(k) == {}
    ensures Top(k) == {}
  {
    TopSeqFacts(k);
  }

  lemma FilledTops(c: Content, p: nat, k: Content, q: nat)
    requires Distinct(c) && CanFill(c, p, k) && IsParent(c, q)
    ensures IsParent(Filled(c, p, k), q) && Top(Below(Filled(c, p, k), q)) == Top(Below(c, q))
  {
    hide Opened, Closed, Shape, Distinct;
    var n := Subtree(c, p);
    NoZero(c);
    NoIds(k);
    FilledSlots(c, p, k);
    if q == p {
      WithBelow(c, p, Opened(n), k, Closed(n));
      NoTop(k);
      NoTop(n.kids);
    } else if q == 0 {
      WithTop(c, p, Opened(n), k, Closed(n));
      SameTop(Filled(c, p, k), c);
    } else {
      WithOther(c, p, q, Opened(n), k, Closed(n));
      SameTop(Below(Filled(c, p, k), q), Below(c, q));
    }
  }

  lemma CursorFilled(c: Content, p: nat, k: Content, parent: nat, main: nat, child: nat)
    requires Distinct(c) && CanFill(c, p, k) && CursorOk(c, parent, main, child)
    ensures CursorOk(Filled(c, p, k), parent, main, child)
  {
    hide Filled, CanFill;
    CursorParent(c, parent, main, child);
    FilledTops(c, p, k, parent);
    FilledTops(c, p, k, main);
  }

  /** The code looks at the first-child link. */
  lemma NoChildren(elem: Elems, c: Content, p: nat)
    requires Linked(elem, c) && Distinct(c) && p in Ids(c)
    ensures p < |elem| && (elem[p].child == 0 <==> Ids(Subtree(c, p).kids) == {}) && p != 0
  {
    hide Deep;
    NoZero(c);
    ListLinks(elem, c, p);
    var k := Below(c, p);
    TopSeqFacts(k);
    ListChild(elem, p, TopSeq(k));
    NoElements(k);
  }

  lemma {:induction false} NoElements(k: Content)
    ensures TopSeq(k) == [] <==> Ids(k) == {}
  {
    match k
    case End(_) =>
    case Mark(_, _, r) => NoElements(r);
    case Elem(_, i, _, _, _, _) => assert i in Ids(k);
  }

  /** The text after `x_InsertNew`, by the cases the code tells apart. */
  lemma DataTextIs(doc: string, elem: Elems, free: nat, c: Content, p: nat, x: string)
    requires Represents(doc, elem, free, c) && p in Ids(c) && p != 0
    ensures p < |elem| && 0 <= elem[p].StartContent() && 0 <= elem[p].ContentLen() && elem[p].StartContent() + elem[p].ContentLen() <= |doc|
    ensures elem[p].IsEmptyElement() ==>
              Subtree(c, p).Elem? && Subtree(c, p).etag == "" &&
              DataText(c, p, x) == SpliceAt(doc, |Before(c, p)| + |Subtree(c, p).stag| - 2, 1, (">" + x) + "</" + WordOf(Subtree(c, p).stag))
    ensures !elem[p].IsEmptyElement() ==>
              WithTags(elem, c, p) == elem && DataText(c, p, x) == SpliceAt(doc, elem[p].StartContent(), elem[p].ContentLen(), x)
  {
    hide Opened, Closed, Offsets, Linked, Shape, WordOf, Before, After, Opening, Render, Ahead, Subtree, SpliceAt;
    ParentFacts(doc, elem, free, c, p);
    ListText(c, p);
  }

  /** Clearing the mark of an element whose content was bad. */
  lemma IllDataAlone(doc: string, a: Elems, b: Elems, free: nat, c: Content, p: nat)
    requires Represents(doc, a, free, c) && p < |a| && p != 0 && b == a[p := a[p].(illData := false)]
    ensures Represents(doc, b, free, c)
  {
    hide Offsets, Deep, ListOk, Shape, Distinct;
    TopSeqFacts(c);
    DeepFrame(a, b, c);
    ListFrame(a, b, 0, TopSeq(c));
    OffsetsMove(a, b, c, 0, 0, 0);
  }

  /** The marks after `x_SetData`: `e` are the records at the end. */
  lemma FilledMarks(a: Elems, e: Elems, free: nat, c: Content, p: nat, k: Content, d: int)
    requires Marked(a, free, c) && free <= |a| && Distinct(c) && CanFill(c, p, k) && p < |a| && InRange(Filled(c, p, k), |a|)
    requires Distinct(Filled(c, p, k)) && p in Ids(Filled(c, p, k))
    requires var b := AddLength(Adjusted(WithTags(a, c, p), Filled(c, p, k), p, d, false), p, d); e == b || e == b[p := b[p].(illData := false)]
    ensures Marked(e, free, Filled(c, p, k))
  {
    hide Adjusted, InRange, Distinct, Filled, CanFill, WithTags;
    FilledSlots(c, p, k);
    assert SameMarks(a, WithTags(a, c, p), |a|) by {
      forall i | 0 <= i < |a| ensures SameMark(a[i], WithTags(a, c, p)[i]) { WithTagsAt(a, c, p, i); }
    }
    AdjustedMarks(WithTags(a, c, p), Filled(c, p, k), p, d, false);
    MarksKept(a, e, free, free, c, Filled(c, p, k), |a|);
  }
}
