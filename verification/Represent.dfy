/** What it means that the index represents the document, and why every edit keeps it so. */
module Represent {
  import opened Chars
  import opened Token
  import opened Content
  import opened Index
  import opened Edit
  import opened Links
  import opened Effect
  import opened Tags

  /** The little the edits need to know of the pieces of a document: text opens no tag, everything
      else does, and tags end with `>`. */
  predicate Shape(c: Content) {
    NoLt(c.text) &&
    match c
    case End(_) => true
    case Mark(_, m, r) => m != "" && m[0] == '<' && Shape(r)
    case Elem(_, _, s, k, e, r) =>
      && ShapedTags(s, k, e) && Shape(k) && Shape(r)
  }

  predicate ShapedTags(s: string, k: Content, e: string) {
    && 2 <= |s| && s[0] == '<' && s[|s| - 1] == '>'
    && (if e == "" then 3 <= |s| && k == End("") else e[0] == '<')
  }

  lemma {:induction false} WFShape(c: Content)
    requires WF(c)
    ensures Shape(c)
  {
    match c
    case End(_) =>
    case Mark(_, m, r) =>
      NodeProgress(m, 1);
      WFShape(r);
    case Elem(_, _, s, k, e, r) =>
      NodeProgress(s, 1);
      StartTagOpens(s);
      if e != "" { NodeProgress(e, 1); }
      WFShape(k);
      WFShape(r);
  }

  /** The record of the virtual parent. */
  predicate RootOk(elem: Elems, n: int) {
    && 0 < |elem| && elem[0].nStart == 0 && elem[0].nLength == n && elem[0].startTagLen == 0 && elem[0].endTagLen == 0
    && elem[0].level == 0 && elem[0].parent == 0
  }

  predicate SlotsBelow(c: Content, free: nat) {
    forall i :: i in Ids(c) ==> i < free
  }

  /** The records of the index say exactly where the pieces of the document are and how they nest. */
  predicate Represents(doc: string, elem: Elems, free: nat, c: Content) {
    && doc == Render(c) && Shape(c) && Distinct(c)
    && Linked(elem, c) && Offsets(elem, c, 0, 0) && RootOk(elem, |doc|)
    && 0 < free <= |elem| && SlotsBelow(c, free)
  }

  // ---- The last step of every edit: x_Adjust ----

  lemma AdjustedMoves(a: Elems, c: Content, t: nat, s: int, after: bool)
    requires InRange(c, |a|) && Distinct(c) && t in Ids(c) && 0 < |a|
    ensures Adjusts(a, Adjusted(a, c, t, s, after), c, t, s, after)
    ensures Adjusted(a, c, t, s, after)[0] == Moved(a[0], 0, s)
    ensures forall i :: 0 < i < |a| && i !in Ids(c) ==> Adjusted(a, c, t, s, after)[i] == a[i]
  {
    hide Adjusted;
    NoZero(c);
    AroundFollowing(c, t, after);
    forall i | 0 <= i < |a|
      ensures Adjusted(a, c, t, s, after)[i] ==
              Moved(a[i], if i in Following(c, t, after) then s else 0, if i == 0 || i in Around(c, t) then s else 0)
    {
      AdjustedAt(a, c, t, s, after, i);
    }
  }

  /** Records that differ in starts and lengths only are linked alike. */
  lemma MovedLinks(a: Elems, b: Elems, c: Content)
    requires Linked(a, c) && |a| == |b| && forall i :: 0 <= i < |a| ==> SameSiblings(a[i], b[i]) && b[i].child == a[i].child && b[i].startTagLen == a[i].startTagLen
    ensures Linked(b, c)
  {
    DeepFrame(a, b, c);
    ListFrame(a, b, 0, TopSeq(c));
  }

  lemma LinkedInRange(elem: Elems, c: Content)
    requires Linked(elem, c) && Distinct(c)
    ensures Chain(elem, c, 0) && InRange(c, |elem|)
  {
    assert TopSeq(c)[0..] == TopSeq(c);
    LinkedChain(elem, c, 0, TopSeq(c), 0);
    ChainInRange(elem, c, 0);
  }

  /** A stale index is right again after `x_Adjust`. */
  lemma AdjustDone(a: Elems, c: Content, t: nat, s: int)
    requires Linked(a, c) && Distinct(c) && t in Ids(c) && Stale(a, c, t, s, 0, 0) && RootOk(a, Len(c) - s)
    ensures Chain(a, c, 0) && InRange(c, |a|)
    ensures var b := Adjusted(a, c, t, s, false); |b| == |a| && Linked(b, c) && Offsets(b, c, 0, 0) && RootOk(b, Len(c))
  {
    hide Adjusted, Stale, Adjusts, Offsets, Linked, Chain, InRange, Distinct, Ids;
    LinkedInRange(a, c);
    AdjustedMoves(a, c, t, s, false);
    AdjustRepairs(a, Adjusted(a, c, t, s, false), c, t, s, 0, 0);
    AdjustKeepsLinked(a, c, t, s, false);
  }

  lemma AdjustKeepsLinked(a: Elems, c: Content, t: nat, s: int, after: bool)
    requires Linked(a, c) && InRange(c, |a|) && Distinct(c) && t in Ids(c) && 0 < |a|
    ensures Linked(Adjusted(a, c, t, s, after), c)
  {
    hide Adjusted, InRange, Linked;
    AdjustedKeepsLinks(a, c, t, s, after);
    MovedLinks(a, Adjusted(a, c, t, s, after), c);
  }

  lemma AdjustedKeepsLinks(a: Elems, c: Content, t: nat, s: int, after: bool)
    requires InRange(c, |a|) && Distinct(c) && t in Ids(c) && 0 < |a|
    ensures forall i :: 0 <= i < |a| ==>
              var e := Adjusted(a, c, t, s, after)[i];
              SameSiblings(a[i], e) && e.child == a[i].child && e.startTagLen == a[i].startTagLen
  {
    hide Adjusted;
    NoZero(c);
    forall i | 0 <= i < |a|
      ensures var e := Adjusted(a, c, t, s, after)[i];
              SameSiblings(a[i], e) && e.child == a[i].child && e.startTagLen == a[i].startTagLen
    {
      AdjustedAt(a, c, t, s, after, i);
    }
  }

  // ---- Where an element is ----

  /** The start tag, the content and the end tag of an element stand where its record says. */
  lemma ElementAt(doc: string, elem: Elems, free: nat, c: Content, p: nat)
    requires Represents(doc, elem, free, c) && p in Ids(c)
    ensures p != 0 && p < free && p < |elem| && Subtree(c, p).Elem?
    ensures var n, e := Subtree(c, p), elem[p];
            && e.nStart == |Before(c, p)| && e.startTagLen == |n.stag| && e.endTagLen == |n.etag|
            && e.nLength == |n.stag| + Len(n.kids) + |n.etag| && !e.nonEnded && !e.deleted && e.level == LevelOf(c, p, 0)
            && ShapedTags(n.stag, n.kids, n.etag) && Shape(n.kids) && Distinct(n.kids)
            && doc == Before(c, p) + (n.stag + Render(n.kids) + n.etag) + After(c, p)
            && Offsets(elem, n.kids, e.nStart + |n.stag|, LevelOf(c, p, 0) + 1)
  {
    hide Offsets, Linked;
    var n := Subtree(c, p);
    NoZero(c);
    SubtreeIds(c, p);
    SubtreeShape(c, p);
    PlacedAt(elem, c, p, 0, 0);
    RenderWith(c, p, n.stag, n.kids, n.etag);
    WithSelf(c, p);
  }

  lemma {:induction false} SubtreeShape(c: Content, p: nat)
    requires Shape(c) && p in Ids(c)
    ensures var n := Subtree(c, p); ShapedTags(n.stag, n.kids, n.etag) && Shape(n.kids)
  {
    match c
    case Mark(_, _, r) => SubtreeShape(r, p);
    case Elem(_, i, _, k, _, r) =>
      if i != p {
        if p in Ids(k) { SubtreeShape(k, p); } else { SubtreeShape(r, p); }
      }
  }

  lemma {:induction false} ShapeWith(c: Content, p: nat, s: string, k: Content, e: string)
    requires Shape(c) && p in Ids(c) && ShapedTags(s, k, e) && Shape(k)
    ensures Shape(With(c, p, s, k, e))
  {
    match c
    case Mark(_, _, r) => ShapeWith(r, p, s, k, e);
    case Elem(_, i, _, k0, e0, r) =>
      if i != p {
        if p in Ids(k0) {
          ShapeWith(k0, p, s, k, e);
        } else {
          ShapeWith(r, p, s, k, e);
        }
      }
  }

  /** Records of other slots do not matter. */
  lemma RepresentsGrows(doc: string, a: Elems, b: Elems, free: nat, free': nat, c: Content)
    requires Represents(doc, a, free, c) && |a| <= |b| && free <= free' <= |b|
    requires forall i :: 0 <= i < |a| && (i == 0 || i in Ids(c)) ==> b[i] == a[i]
    ensures Represents(doc, b, free', c)
  {
    hide Offsets, Deep, ListOk, Shape, Distinct;
    TopSeqFacts(c);
    DeepFrame(a, b, c);
    ListFrame(a, b, 0, TopSeq(c));
    OffsetsMove(a, b, c, 0, 0, 0);
  }

  lemma FreeFacts(doc: string, elem: Elems, free: nat, c: Content)
    requires Represents(doc, elem, free, c)
    ensures free !in Ids(c) && 0 < free <= |elem| && SlotsBelow(c, free)
  {
  }

  lemma RepresentsParts(doc: string, elem: Elems, free: nat, c: Content)
    requires Represents(doc, elem, free, c)
    ensures doc == Render(c) && Shape(c) && Distinct(c) && Linked(elem, c) && 0 < free <= |elem| && RootOk(elem, |doc|)
  {
  }

  lemma RepresentsSlots(doc: string, elem: Elems, free: nat, c: Content)
    requires Represents(doc, elem, free, c)
    ensures SlotsBelow(c, free)
  {
  }

  // ---- The marks in the records ----

  /** The document has not been found to be ill-formed, and the slots that have been given out and are not in it are
      marked as deleted. */
  predicate Marked(elem: Elems, free: nat, c: Content) {
    0 < |elem| && !elem[0].illFormed && !elem[0].deleted && forall i :: 0 < i < free && i < |elem| && i !in Ids(c) ==> elem[i].deleted
  }

  predicate SameMark(a: ElemPos, b: ElemPos) {
    b.deleted == a.deleted && b.illFormed == a.illFormed
  }

  /** All slots but `x` have the marks that they had. */
  predicate SameMarks(a: Elems, b: Elems, x: nat) {
    |a| <= |b| && forall i :: 0 <= i < |a| && i != x ==> SameMark(a[i], b[i])
  }

  lemma AdjustedMarks(a: Elems, c: Content, t: nat, s: int, after: bool)
    requires InRange(c, |a|) && Distinct(c) && t in Ids(c) && 0 < |a|
    ensures SameMarks(a, Adjusted(a, c, t, s, after), |a|)
  {
    hide Adjusted, InRange, Distinct, Following, Around;
    NoZero(c);
    forall i | 0 <= i < |a| ensures SameMark(a[i], Adjusted(a, c, t, s, after)[i]) {
      AdjustedAt(a, c, t, s, after, i);
    }
  }

  /** Marks stay right when no slot leaves the document; the slot `x` may come to it. */
  lemma MarksKept(a: Elems, b: Elems, free: nat, free': nat, c: Content, c': Content, x: nat)
    requires Marked(a, free, c) && SameMarks(a, b, x) && x != 0 && free <= |a| && Ids(c) <= Ids(c')
    requires free' == free || (free' == free + 1 && x == free && x in Ids(c'))
    requires x < free ==> x in Ids(c')
    ensures Marked(b, free', c')
  {
  }
}
