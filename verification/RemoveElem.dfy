/** `x_RemoveElem` as an edit of the content, and why the index stays in step. */
module RemoveElem {
  import opened Chars
  import opened Content
  import opened Index
  import opened Edit
  import opened Links
  import opened Effect
  import opened Represent
  import opened Position
  import opened AddElem
  import opened Cursor

  /** The document without the child `t` of `p`. */
  function Removed(c: Content, p: nat, t: nat): Content {
    Put(c, p, Remove(Below(c, p), t))
  }

  predicate CanRemove(c: Content, p: nat, t: nat) {
    Distinct(c) && Shape(c) && IsParent(c, p) && t in Top(Below(c, p))
  }

  // ---- The text ----

  /** How much text goes: the element, and white space up to the next tag. */
  function RemovedLen(k: Content, t: nat): nat {
    var n := Subtree(k, t);
    if n.Elem? then SubtreeLen(k, t) + White0(n.rest) else 0
  }

  lemma RenderRemoveFirst(k: Content)
    requires k.Elem?
    ensures Subtree(k, k.id) == k
    ensures |k.text| + RemovedLen(k, k.id) <= Len(k)
    ensures Render(Remove(k, k.id)) == Splice(Render(k), |k.text|, RemovedLen(k, k.id), "")
  {
    var e := k.stag + Render(k.kids) + k.etag;
    assert Render(k) == k.text + e + Render(k.rest) && |e| == SubtreeLen(k, k.id);
    RemoveFirst(k);
    if AllWhite(k.rest.text) {
      CutWhite(k.text, e, k.rest);
    } else {
      CutElement(k.text, e, k.rest);
    }
  }

  lemma RemoveFirst(k: Content)
    requires k.Elem?
    ensures Remove(k, k.id) == SetText(k.rest, k.text + (if AllWhite(k.rest.text) then "" else k.rest.text))
    ensures RemovedLen(k, k.id) == SubtreeLen(k, k.id) + White0(k.rest) && |k.rest.text| <= Len(k.rest)
  {
  }

  lemma CutWhite(x: string, e: string, r: Content)
    ensures |r.text| <= |Render(r)|
    ensures Render(SetText(r, x + "")) == Splice(x + e + Render(r), |x|, |e| + |r.text|, "")
  {
    hide Render, Splice;
    var b := Render(SetText(r, ""));
    RenderSetText(r, x + "");
    assert x + "" == x && x + e + (r.text + b) == x + (e + r.text) + b;
    Cut(x, e + r.text, b);
  }

  lemma CutElement(x: string, e: string, r: Content)
    ensures Render(SetText(r, x + r.text)) == Splice(x + e + Render(r), |x|, |e|, "")
  {
    hide Render, Splice;
    var b := Render(SetText(r, ""));
    RenderSetText(r, x + r.text);
    assert x + r.text + b == x + (r.text + b);
    Cut(x, e, Render(r));
  }

  lemma Cut(a: string, x: string, b: string)
    ensures Splice(a + x + b, |a|, |x|, "") == a + b
  {
    assert (a + x + b)[..|a|] == a && (a + x + b)[|a| + |x|..] == b;
  }

  lemma {:induction false} RenderRemove(k: Content, t: nat)
    requires t in Top(k) && Distinct(k)
    ensures t in Ids(k) && Subtree(k, t).Elem? && |Before(k, t)| + RemovedLen(k, t) <= Len(k)
    ensures Render(Remove(k, t)) == Splice(Render(k), |Before(k, t)|, RemovedLen(k, t), "")
  {
    hide Splice, RemovedLen, White0;
    TopSeqFacts(k);
    if k.Elem? && k.id == t {
      RenderRemoveFirst(k);
    } else {
      RenderRemove(k.rest, t);
      RemoveRest(k, t);
      SpliceCut(k, Remove(k.rest, t), |Before(k.rest, t)|, RemovedLen(k.rest, t));
    }
  }

  lemma RemoveRest(k: Content, t: nat)
    requires !k.End? && !(k.Elem? && k.id == t) && t in Top(k.rest) && t in Ids(k.rest) && Distinct(k)
    ensures Remove(k, t) == Replace(k, Remove(k.rest, t)) && Subtree(k, t) == Subtree(k.rest, t)
    ensures |Before(k, t)| == |First(k)| + |Before(k.rest, t)| && RemovedLen(k, t) == RemovedLen(k.rest, t)
  {
    if k.Elem? { assert t !in Ids(k.kids); }
  }

  lemma SpliceCut(k: Content, r: Content, n: nat, m: nat)
    requires !k.End? && n + m <= Len(k.rest) && Render(r) == Splice(Render(k.rest), n, m, "")
    ensures |First(k)| + n + m <= Len(k) && Render(Replace(k, r)) == Splice(Render(k), |First(k)| + n, m, "")
  {
    SpliceBehind(First(k), Render(k.rest), n, m, "");
  }

  /** Removing an element takes its text and the white space behind it out of the document. */
  lemma RemovedText(c: Content, p: nat, t: nat)
    requires CanRemove(c, p, t)
    ensures |Ahead(c, p)| + |Before(Below(c, p), t)| + RemovedLen(Below(c, p), t) <= |Render(c)|
    ensures Render(Removed(c, p, t)) == Splice(Render(c), |Ahead(c, p)| + |Before(Below(c, p), t)|, RemovedLen(Below(c, p), t), "")
  {
    hide Render, Splice, Before, After, RemovedLen, Shape, Distinct, Remove, Opened, Closed;
    assert Shape(c) && Distinct(c);
    NoZero(c);
    BelowDistinct(c, p);
    var k := Below(c, p);
    RenderRemove(k, t);
    HasKids(c, p, t);
    if p != 0 { OpenedSame(Subtree(c, p)); }
    ReplacedText(c, p, Remove(k, t), |Before(k, t)|, RemovedLen(k, t), "");
  }

  lemma HasKids(c: Content, p: nat, t: nat)
    requires Shape(c) && IsParent(c, p) && t in Top(Below(c, p)) && (p != 0 ==> Subtree(c, p).Elem?)
    ensures p != 0 ==> Subtree(c, p).etag != ""
  {
    NotOnlyEtag(c, p);
  }

  // ---- Slots ----

  lemma RemovedSlots(c: Content, p: nat, t: nat)
    requires CanRemove(c, p, t)
    ensures var k := Below(c, p);
            && t in Ids(k) && Subtree(k, t).Elem? && Ids(Removed(c, p, t)) == Ids(c) - Gone(k, t)
            && Distinct(Removed(c, p, t)) && Distinct(Remove(k, t)) && Ids(Remove(k, t)) == Ids(k) - Gone(k, t)
            && p !in Gone(k, t) && 0 !in Gone(k, t) && Gone(k, t) <= Ids(k)
  {
    hide Remove, Shape, Distinct;
    assert Distinct(c);
    NoZero(c);
    BelowDistinct(c, p);
    BelowIds(c, p);
    var k := Below(c, p);
    RemoveIds(k, t);
    SubtreeIds(k, t);
    if p != 0 {
      var n := Subtree(c, p);
      WithSlots(c, p, n.stag, Remove(k, t), n.etag);
    }
  }

  lemma RemovedShape(c: Content, p: nat, t: nat)
    requires CanRemove(c, p, t)
    ensures Shape(Removed(c, p, t))
  {
    hide Remove, ShapedTags;
    NoZero(c);
    if p != 0 {
      var n := Subtree(c, p);
      SubtreeShape(c, p);
      HasKids(c, p, t);
      ShapeRemove(n.kids, t);
      TagsAny(n.stag, n.kids, Remove(n.kids, t), n.etag);
      ShapeWith(c, p, n.stag, Remove(n.kids, t), n.etag);
    } else {
      ShapeRemove(c, t);
    }
  }

  lemma TagsAny(s: string, k: Content, k': Content, e: string)
    requires ShapedTags(s, k, e) && e != ""
    ensures ShapedTags(s, k', e)
  {
  }

  lemma {:induction false} ShapeRemove(k: Content, t: nat)
    requires Shape(k)
    ensures Shape(Remove(k, t))
  {
    hide ShapedTags, NoLt;
    match k
    case End(_) =>
    case Mark(_, _, r) => ShapeRemove(r, t);
    case Elem(x, i, _, _, _, r) =>
      if i == t {
        EolFacts();
        NoLtConcat(x, if AllWhite(r.text) then "" else r.text);
        ShapeSetText(r, x + (if AllWhite(r.text) then "" else r.text));
      } else {
        ShapeRemove(r, t);
      }
  }

  // ---- Links and offsets ----

  /** The records after `x_Adjust` and `x_UnlinkElem`: `a` before, `e` after `x_Adjust`, `mid` when the
      neighbours are linked around `t`, `b` when `t` and what is below it are released. */
  ghost predicate Unlinked(e: Elems, mid: Elems, b: Elems, c: Content, p: nat, t: nat) {
    var k := Below(c, p);
    && |e| == |mid| == |b| && p < |e|
    && IndexOf(TopSeq(k), t) < |TopSeq(k)| && ListOk(mid, p, RemoveAt(TopSeq(k), IndexOf(TopSeq(k), t)))
    && Relinked(e, mid, p, TopSeq(k), t) && t < |e| && mid[t] == e[t]
    && (forall i :: 0 <= i < |b| && i !in Gone(k, t) ==> b[i] == mid[i])
    && forall i :: 0 <= i < |b| && i in Gone(k, t) ==> b[i].deleted
  }

  /** The slots of an element of a list and of everything below it. */
  function Gone(k: Content, t: nat): set<nat> {
    var n := Subtree(k, t);
    if n.Elem? then {t} + Ids(n.kids) else {}
  }

  lemma ReleaseNodeAt(q: Pool, c: Content, i: nat)
    requires c.Elem? && Distinct(c) && InRange(c, |q.elem|) && i < |q.elem|
    ensures if i != c.id && i !in Ids(c.kids) then ReleaseNode(q, c).elem[i] == q.elem[i] else ReleaseNode(q, c).elem[i].deleted
  {
    ReleaseListAt(q, c.kids, i);
  }

  lemma UnlinkedKids(e: Elems, mid: Elems, b: Elems, c: Content, p: nat, t: nat)
    requires CanRemove(c, p, t) && Unlinked(e, mid, b, c, p, t) && Linked(e, c)
    ensures var k := Remove(Below(c, p), t); ListOk(b, p, TopSeq(k)) && Deep(b, k)
  {
    hide Remove, Shape, Deep, ListOk, IndexOf, Distinct, Ids, Gone;
    assert Distinct(c);
    var k := Below(c, p);
    ListLinks(e, c, p);
    TopSeqFacts(k);
    RemovedSlots(c, p, t);
    DeepTop(e, mid, k);
    DeepRemove(mid, k, t);
    DeepFrame(mid, b, Remove(k, t));
    RemoveSlots(k, t);
    TopSeqFacts(Remove(k, t));
    ListFrame(mid, b, p, TopSeq(Remove(k, t)));
  }

  lemma UnlinkedLinked(e: Elems, mid: Elems, b: Elems, c: Content, p: nat, t: nat)
    requires CanRemove(c, p, t) && Unlinked(e, mid, b, c, p, t) && Linked(e, c)
    ensures Linked(b, Removed(c, p, t))
  {
    hide Remove, Shape, IndexOf, Distinct;
    assert Distinct(c);
    UnlinkedKids(e, mid, b, c, p, t);
    RemovedSlots(c, p, t);
    NoZero(c);
    if p != 0 {
      var n := Subtree(c, p);
      var k := Remove(n.kids, t);
      SubtreeIds(c, p);
      SubtreeIds(n.kids, t);
      KidsApart(c, p);
      TopSeqFacts(n.kids);
      TopSeqFacts(c);
      StagNonEmpty(e, c, p);
      DeepWith(e, b, c, p, n.stag, k, n.etag);
      WithTop(c, p, n.stag, k, n.etag);
      ListFrame(e, b, 0, TopSeq(c));
    }
  }

  lemma {:induction false} StagNonEmpty(elem: Elems, c: Content, p: nat)
    requires Deep(elem, c) && p in Ids(c)
    ensures p < |elem| && 0 < elem[p].startTagLen
  {
    match c
    case Mark(_, _, r) => StagNonEmpty(elem, r, p);
    case Elem(_, i, _, k, _, r) =>
      if i != p {
        if p in Ids(k) { StagNonEmpty(elem, k, p); } else { StagNonEmpty(elem, r, p); }
      }
  }

  lemma RemovedMoves(a: Elems, e: Elems, c: Content, p: nat, t: nat, s: int)
    requires CanRemove(c, p, t) && Offsets(a, c, 0, 0) && Adjusts(a, e, c, t, s, true) && s + RemovedLen(Below(c, p), t) == 0
    ensures Offsets(e, Removed(c, p, t), 0, 0)
  {
    hide Remove, Shape, Offsets, Adjusts, Render, RemovedLen, Distinct;
    assert Distinct(c);
    NoZero(c);
    BelowDistinct(c, p);
    RenderRemove(Below(c, p), t);
    if p == 0 {
      AdjustRemoves(a, e, c, t, s, 0, 0);
    } else {
      AdjustRemovesBelow(a, e, c, p, t, s, 0, 0);
    }
  }

  lemma UnlinkedPlaces(e: Elems, mid: Elems, b: Elems, c: Content, p: nat, t: nat)
    requires CanRemove(c, p, t) && Unlinked(e, mid, b, c, p, t)
    ensures KeepsPlaces(e, b, Ids(Removed(c, p, t)), 0) && 0 < |b| && 0 !in Gone(Below(c, p), t)
    ensures b[0] == e[0].(child := b[0].child)
  {
    hide Remove, Shape, Distinct, IndexOf, Gone, ListOk, Removed;
    assert Distinct(c);
    RemovedSlots(c, p, t);
    TopSeqFacts(Below(c, p));
    BelowIds(c, p);
    NoZero(c);
  }

  /** After `x_Adjust` and `x_UnlinkElem` the index represents the document without the element. */
  lemma RemovedRepresents(doc: string, a: Elems, mid: Elems, b: Elems, free: nat, c: Content, p: nat, t: nat, s: int)
    requires Represents(doc, a, free, c) && CanRemove(c, p, t) && t in Ids(c) && s + RemovedLen(Below(c, p), t) == 0
    requires InRange(c, |a|) && 0 < |a| && Unlinked(Adjusted(a, c, t, s, true), mid, b, c, p, t)
    ensures Represents(Render(Removed(c, p, t)), b, free, Removed(c, p, t))
  {
    hide Adjusted, Adjusts, Offsets, Linked, Shape, Distinct, Removed, RemovedLen, Unlinked, Render, KeepsPlaces;
    assert |b| == |a| by { UnlinkedLen(Adjusted(a, c, t, s, true), mid, b, c, p, t); }
    var e := Adjusted(a, c, t, s, true);
    AdjustedMoves(a, c, t, s, true);
    AdjustKeepsLinked(a, c, t, s, true);
    RemovedMoves(a, e, c, p, t, s);
    UnlinkedLinked(e, mid, b, c, p, t);
    UnlinkedPlaces(e, mid, b, c, p, t);
    OffsetsMove(e, b, Removed(c, p, t), 0, 0, 0);
    RemovedSlots(c, p, t);
    RemovedShape(c, p, t);
    RemovedText(c, p, t);
  }

  lemma UnlinkedLen(e: Elems, mid: Elems, b: Elems, c: Content, p: nat, t: nat)
    requires Unlinked(e, mid, b, c, p, t)
    ensures |b| == |e|
  {
  }

  // ---- What x_UnlinkElem needs ----

  lemma {:induction false} ListFrom(elem: Elems, k: Content, t: nat)
    requires t in Top(k) && Distinct(k) && Deep(elem, k)
    ensures var n, s, j := Subtree(k, t), TopSeq(k), IndexOf(TopSeq(k), t);
            && t in Ids(k) && n.Elem? && n.id == t && j < |s| && s[j] == t && s[j..] == TopSeq(n)
            && Deep(elem, n) && Distinct(n) && Ids(n) <= Ids(k) && (j > 0 ==> s[j - 1] !in Ids(n))
  {
    hide IndexOf;
    TopSeqFacts(k);
    match k
    case Mark(_, _, r) => ListFrom(elem, r, t);
    case Elem(_, i, _, k0, _, r) =>
      if i == t {
        IndexOfFirst(k);
        assert TopSeq(k)[0..] == TopSeq(k);
      } else {
        ListFrom(elem, r, t);
        IndexOfBehind(k, t);
        var j := IndexOf(TopSeq(r), t);
        assert TopSeq(k)[j + 1..] == TopSeq(r)[j..];
        assert TopSeq(k)[j] == if j > 0 then TopSeq(r)[j - 1] else i;
      }
  }

  lemma ReadyToUnlink(e: Elems, c: Content, p: nat, t: nat)
    requires Linked(e, c) && CanRemove(c, p, t)
    ensures var n, s, j := Subtree(Below(c, p), t), TopSeq(Below(c, p)), IndexOf(TopSeq(Below(c, p)), t);
            && ListOk(e, p, s) && DistinctSlots(s) && p !in s && j < |s| && s[j] == t && (j > 0 ==> s[j - 1] !in Ids(n))
            && n.Elem? && n.id == t && Distinct(n) && p !in Ids(n) && Chain(e, n, p)
  {
    hide IndexOf, Linked, Deep, Distinct, Shape, DistinctSlots, ListOk, Ids;
    assert Distinct(c);
    var k := Below(c, p);
    var n, s, j := Subtree(k, t), TopSeq(k), IndexOf(TopSeq(k), t);
    ListLinks(e, c, p);
    TopSeqFacts(k);
    ListFrom(e, k, t);
    LinkedChain(e, n, p, s, j);
  }

  lemma UnlinkedBy(e: Elems, mid: Elems, b: Elems, c: Content, p: nat, t: nat, q: nat, q': nat)
    requires Linked(e, c) && CanRemove(c, p, t)
    requires var k := Below(c, p); var s, n, j := TopSeq(k), Subtree(k, t), IndexOf(TopSeq(k), t);
             && j < |s| && ListOk(mid, p, RemoveAt(s, j)) && Relinked(e, mid, p, s, t) && t < |e| && mid[t] == e[t]
             && n.Elem? && n.id == t && Distinct(n) && InRange(n, |mid|) && Pool(b, q') == ReleaseNode(Pool(mid, q), n)
    ensures Unlinked(e, mid, b, c, p, t)
  {
    hide IndexOf, Linked, Distinct, Shape, ListOk, Ids, ReleaseNode, InRange;
    var n := Subtree(Below(c, p), t);
    forall i | 0 <= i < |b| ensures if i in Gone(Below(c, p), t) then b[i].deleted else b[i] == mid[i] {
      ReleaseNodeAt(Pool(mid, q), n, i);
    }
  }

  // ---- The text position ----

  /** `WhitespaceToTag` behind the element, and how much goes. */
  lemma RemovedSpan(doc: string, elem: Elems, free: nat, c: Content, p: nat, t: nat)
    requires Represents(doc, elem, free, c) && CanRemove(c, p, t)
    ensures t < |elem| && t in Ids(c) && 0 <= elem[t].nStart && 0 <= elem[t].StartAfter() <= |doc|
    ensures TagAfter(doc, elem[t].StartAfter()) - elem[t].nStart == RemovedLen(Below(c, p), t)
    ensures elem[t].nStart == |Ahead(c, p)| + |Before(Below(c, p), t)| && elem[t].nStart + RemovedLen(Below(c, p), t) <= |doc|
  {
    hide Shape, Linked, Offsets, TagAfter, Before, Below, Ahead, InsertOffset, Subtree, Render, Distinct;
    assert Distinct(c);
    ChildText(doc, c, p, t);
    ChildRecord(doc, elem, free, c, p, t);
    RemovedText(c, p, t);
    BehindStart(doc, elem, free, c, p, t);
    BelowDistinct(c, p);
    OffsetBehind(Below(c, p), t);
  }

  // ---- The cursor ----

  lemma PreviousStays(c: Content, p: nat, t: nat)
    requires CanRemove(c, p, t)
    ensures var s, j := TopSeq(Below(c, p)), IndexOf(TopSeq(Below(c, p)), t);
            j < |s| && (j > 0 ==> s[j - 1] in Top(Remove(Below(c, p), t)))
  {
    hide IndexOf, Remove, Distinct, Shape;
    var k := Below(c, p);
    var s, j := TopSeq(k), IndexOf(TopSeq(k), t);
    TopSeqFacts(k);
    RemoveSlots(k, t);
    TopSeqFacts(Remove(k, t));
    if j > 0 { assert RemoveAt(s, j)[j - 1] == s[j - 1]; }
  }

  /** The sibling in front of child `t` of `p`, or 0. */
  function PreviousOf(c: Content, p: nat, t: nat): nat {
    var s, j := TopSeq(Below(c, p)), IndexOf(TopSeq(Below(c, p)), t);
    if j == 0 then 0 else s[j - 1]
  }

  /** The cursor after `RemoveElem` and after `RemoveChildElem`. */
  lemma CursorRemoved(c: Content, parent: nat, main: nat, child: nat, below: bool)
    requires CursorOk(c, parent, main, child) && Distinct(c) && Shape(c)
    requires if below then child != 0 else main != 0
    ensures var p, t := if below then main else parent, if below then child else main;
            var s, j, c' := TopSeq(Below(c, p)), IndexOf(TopSeq(Below(c, p)), t), Removed(c, p, t);
            && CanRemove(c, p, t) && j < |s|
            && CursorOk(c', parent, if below then main else if j == 0 then 0 else s[j - 1], if below && j > 0 then s[j - 1] else 0)
  {
    hide IndexOf, Remove, Shape, Distinct, Top;
    var p, t := if below then main else parent, if below then child else main;
    CursorParent(c, parent, main, child);
    NoZero(c);
    PreviousStays(c, p, t);
    RemovedSlots(c, p, t);
    if p != 0 {
      var n := Subtree(c, p);
      WithBelow(c, p, n.stag, Remove(n.kids, t), n.etag);
      if below {
        BelowIds(c, p);
        TopOfParent(c, parent, main, n.stag, Remove(n.kids, t), n.etag);
      }
    }
  }

  /** The marks after `x_RemoveElem`: the slots that have left the document are marked. */
  lemma RemovedMarks(a: Elems, e: Elems, mid: Elems, b: Elems, free: nat, c: Content, p: nat, t: nat, d: int)
    requires Marked(a, free, c) && free <= |a| && CanRemove(c, p, t) && InRange(c, |a|) && t in Ids(c)
    requires e == Adjusted(a, c, t, d, true) && Unlinked(e, mid, b, c, p, t)
    ensures Marked(b, free, Removed(c, p, t))
  {
    hide Adjusted, InRange, Distinct, Shape, Removed, ListOk, IndexOf, Below, Gone, Top;
    RemovedSlots(c, p, t);
    AdjustedMarks(a, c, t, d, true);
    UnlinkedMarks(e, mid, p, TopSeq(Below(c, p)), t);
  }

  lemma UnlinkedMarks(e: Elems, mid: Elems, p: nat, s: seq<nat>, t: nat)
    requires Relinked(e, mid, p, s, t) && t < |e| && mid[t] == e[t]
    ensures SameMarks(e, mid, |e|)
  {
  }
}
