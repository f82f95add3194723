/** Where the sibling lists and the elements of a document stand in its text. */
module Position {
  import opened Chars
  import opened Content
  import opened Index
  import opened Edit
  import opened Links
  import opened Effect
  import opened Represent
  import opened Cursor

  predicate IsParent(c: Content, p: nat) {
    p == 0 || p in Ids(c)
  }

  /** The text in front of the list below `p`, and the text after it. */
  function Ahead(c: Content, p: nat): string {
    if p != 0 && p in Ids(c) then Before(c, p) + Subtree(c, p).stag else ""
  }

  function Beyond(c: Content, p: nat): string {
    if p != 0 && p in Ids(c) then Subtree(c, p).etag + After(c, p) else ""
  }

  function ListLevel(c: Content, p: nat): int {
    if p != 0 && p in Ids(c) then LevelOf(c, p, 0) + 1 else 0
  }

  lemma {:induction false} DeepAt(elem: Elems, c: Content, p: nat)
    requires Deep(elem, c) && p in Ids(c)
    ensures var k := Subtree(c, p).kids; ListOk(elem, p, TopSeq(k)) && Deep(elem, k)
  {
    match c
    case Mark(_, _, r) => DeepAt(elem, r, p);
    case Elem(_, i, _, k, _, r) =>
      if i != p {
        if p in Ids(k) { DeepAt(elem, k, p); } else { DeepAt(elem, r, p); }
      }
  }

  /** The list below `p` in the text. */
  lemma ListText(c: Content, p: nat)
    requires IsParent(c, p)
    ensures Render(c) == Ahead(c, p) + Render(Below(c, p)) + Beyond(c, p)
  {
    if p != 0 {
      var n := Subtree(c, p);
      RenderWith(c, p, n.stag, n.kids, n.etag);
      WithSelf(c, p);
      assert Before(c, p) + (n.stag + Render(n.kids) + n.etag) + After(c, p)
             == (Before(c, p) + n.stag) + Render(n.kids) + (n.etag + After(c, p));
    } else {
      assert "" + Render(c) + "" == Render(c);
    }
  }

  /** The record of the parent says where its list is. */
  lemma ListRecord(doc: string, elem: Elems, free: nat, c: Content, p: nat)
    requires Represents(doc, elem, free, c) && IsParent(c, p)
    ensures p < |elem| && Shape(Below(c, p))
    ensures elem[p].StartContent() == |Ahead(c, p)| && elem[p].ContentLen() == Len(Below(c, p))
    ensures elem[p].StartAfter() - elem[p].endTagLen == |Ahead(c, p)| + Len(Below(c, p))
    ensures Offsets(elem, Below(c, p), |Ahead(c, p)|, ListLevel(c, p))
  {
    hide Represents;
    RepresentsParts(doc, elem, free, c);
    NoZero(c);
    if p != 0 {
      ElementRecord(doc, elem, free, c, p);
    } else {
      RootRecord(doc, elem, free, c);
    }
  }

  lemma ElementRecord(doc: string, elem: Elems, free: nat, c: Content, p: nat)
    requires Represents(doc, elem, free, c) && p in Ids(c)
    ensures p != 0 && p < |elem| && Shape(Below(c, p))
    ensures elem[p].StartContent() == |Ahead(c, p)| && elem[p].ContentLen() == Len(Below(c, p))
    ensures elem[p].StartAfter() - elem[p].endTagLen == |Ahead(c, p)| + Len(Below(c, p))
    ensures Offsets(elem, Below(c, p), |Ahead(c, p)|, ListLevel(c, p))
  {
    hide Offsets, Represents, Before, After, LevelOf;
    ElementAt(doc, elem, free, c, p);
  }

  lemma RootRecord(doc: string, elem: Elems, free: nat, c: Content)
    requires Represents(doc, elem, free, c)
    ensures 0 < |elem| && Shape(c) && elem[0].StartContent() == 0 && elem[0].ContentLen() == Len(c) && elem[0].StartAfter() - elem[0].endTagLen == Len(c)
    ensures Offsets(elem, c, 0, 0)
  {
    hide Offsets, Linked, Shape;
  }

  /** The links of the list. */
  lemma ListLinks(elem: Elems, c: Content, p: nat)
    requires Linked(elem, c) && Distinct(c) && IsParent(c, p)
    ensures var k := Below(c, p);
            && ListOk(elem, p, TopSeq(k)) && Deep(elem, k) && DistinctSlots(TopSeq(k)) && Distinct(k)
            && p !in Ids(k) && Ids(k) <= Ids(c) && p < |elem|
  {
    hide Deep, DistinctSlots;
    NoZero(c);
    if p != 0 {
      DeepAt(elem, c, p);
      SubtreeIds(c, p);
      KidsApart(c, p);
    }
    TopSeqFacts(Below(c, p));
  }

  lemma BelowIds(c: Content, p: nat)
    requires Distinct(c)
    ensures Ids(Below(c, p)) <= Ids(c) && p !in Ids(Below(c, p))
  {
    NoZero(c);
    if p != 0 && p in Ids(c) {
      SubtreeIds(c, p);
      KidsApart(c, p);
    }
  }

  lemma BelowDistinct(c: Content, p: nat)
    requires Distinct(c)
    ensures Distinct(Below(c, p))
  {
    if p != 0 && p in Ids(c) { SubtreeIds(c, p); }
  }

  /** Element `p` itself after it is given other tags and content. */
  lemma {:induction false} WithBelow(c: Content, p: nat, s: string, k: Content, e: string)
    requires p in Ids(c)
    ensures p in Ids(With(c, p, s, k, e))
    ensures var n := Subtree(With(c, p, s, k, e), p); n.Elem? && n.stag == s && n.kids == k && n.etag == e
  {
    match c
    case Mark(_, _, r) => WithBelow(r, p, s, k, e);
    case Elem(_, i, _, k0, _, r) =>
      if i != p {
        if p in Ids(k0) { WithBelow(k0, p, s, k, e); } else { WithBelow(r, p, s, k, e); }
      }
  }

  /** The children of another element after that. */
  lemma {:induction false} WithOther(c: Content, p: nat, q: nat, s: string, k: Content, e: string)
    requires Distinct(c) && p in Ids(c) && q in Ids(c) && q != p && q !in Ids(Subtree(c, p).kids)
    requires Distinct(k) && Ids(k) !! (Ids(c) - Ids(Subtree(c, p).kids))
    ensures var c' := With(c, p, s, k, e);
            && q in Ids(c') && Subtree(c', q).Elem? && Subtree(c, q).Elem? && Subtree(c', q).stag == Subtree(c, q).stag
            && TopSeq(Subtree(c', q).kids) == TopSeq(Subtree(c, q).kids)
  {
    SubtreeIds(c, p);
    SubtreeIds(c, q);
    match c
    case Mark(_, _, r) => WithOther(r, p, q, s, k, e);
    case Elem(_, i, _, k0, _, r) =>
      if i == p {
      } else if p in Ids(k0) {
        SubtreeIds(k0, p);
        WithSlots(k0, p, s, k, e);
        if i == q {
          WithTop(k0, p, s, k, e);
        } else if q in Ids(k0) {
          WithOther(k0, p, q, s, k, e);
        }
      } else {
        SubtreeIds(r, p);
        WithSlots(r, p, s, k, e);
        if i != q && q !in Ids(k0) {
          WithOther(r, p, q, s, k, e);
        }
      }
  }

  /** The parent of an element is not below it. */
  lemma ParentOutside(c: Content, q: nat, p: nat)
    requires Distinct(c) && q in Ids(c) && p in Top(Subtree(c, q).kids)
    ensures p in Ids(c) && q != p && q !in Ids(Subtree(c, p).kids)
  {
    TopSeqFacts(Subtree(c, q).kids);
    BeforeBelow(c, q, p);
    KidsApart(c, q);
    SubtreeIds(Subtree(c, q).kids, p);
  }

  // ---- White space in front of a tag ----

  lemma TagAfterText(doc: string, n: nat, x: string)
    requires At(doc, n, x) && NoLt(x) && (n + |x| < |doc| ==> doc[n + |x|] == '<')
    ensures TagAfter(doc, n) == if AllWhite(x) then n + |x| else n
  {
    assert forall i :: 0 <= i < |x| ==> x[i] == doc[n + i];
    var m := SkipWhite(doc, n);
    assert forall i :: 0 <= i < m - n ==> doc[n..m][i] == doc[n + i];
    assert forall i :: 0 <= i < |x| && i < m - n ==> x[i] == doc[n..m][i];
    assert m - n < |x| ==> x[m - n] == doc[m];
  }

  /** What follows a run of text: nothing or a tag. */
  predicate TagNext(s: string) {
    s == "" || s[0] == '<'
  }

  lemma RenderFrom(k: Content)
    requires Shape(k)
    ensures |k.text| <= |Render(k)| && k.text == Render(k)[..|k.text|] && TagNext(Render(k)[|k.text|..]) && NoLt(k.text)
  {
    match k
    case End(_) =>
    case Mark(t, m, r) =>
      assert (t + m + Render(r))[|t|] == m[0];
    case Elem(t, _, s, k0, e, r) =>
      assert (t + (s + Render(k0) + e) + Render(r))[|t|] == s[0];
  }

  /** The white space that is skipped at the front of a list that a tag or nothing follows. */
  function White0(k: Content): nat {
    if AllWhite(k.text) then |k.text| else 0
  }

  lemma TagAfterList(doc: string, pre: string, k: Content, post: string)
    requires Shape(k) && doc == pre + Render(k) + post && TagNext(post)
    ensures TagAfter(doc, |pre|) == |pre| + White0(k)
  {
    RenderFrom(k);
    var t, q := |pre|, |pre| + |k.text|;
    assert Render(k) == k.text + Render(k)[|k.text|..];
    assert doc[t..q] == k.text;
    if q < |doc| {
      assert doc[q] == if |k.text| < |Render(k)| then Render(k)[|k.text|..][0] else post[0];
    }
    TagAfterText(doc, t, k.text);
  }

  /** The text behind the siblings of an element. */
  function Outer(c: Content, t: nat): string {
    match c
    case End(_) => ""
    case Mark(_, _, r) => Outer(r, t)
    case Elem(_, i, _, k, e, r) => if i == t then "" else if t in Ids(k) then Outer(k, t) + e + Render(r) else Outer(r, t)
  }

  lemma {:induction false} AfterIs(c: Content, t: nat)
    requires Shape(c) && t in Ids(c)
    ensures After(c, t) == Render(Subtree(c, t).rest) + Outer(c, t) && TagNext(Outer(c, t)) && Shape(Subtree(c, t).rest)
  {
    match c
    case Mark(_, _, r) => AfterIs(r, t);
    case Elem(_, i, _, k, e, r) =>
      if i == t {
        assert Render(r) + "" == Render(r);
      } else if t in Ids(k) {
        AfterIs(k, t);
        var x, post := Render(Subtree(k, t).rest), Outer(k, t);
        assert (x + post) + e + Render(r) == x + (post + e + Render(r));
      } else {
        AfterIs(r, t);
      }
  }

  lemma Regrouped(a: string, x: string, r: string, b: string)
    ensures a + x + (r + b) == (a + x) + r + b
  {
  }

  /** `WhitespaceToTag` behind an element. */
  lemma TagAfterElement(c: Content, t: nat)
    requires Shape(c) && t in Ids(c)
    ensures var n := Subtree(c, t); var p := |Before(c, t)| + |n.stag| + Len(n.kids) + |n.etag|;
            p <= |Render(c)| && TagAfter(Render(c), p) == p + White0(n.rest)
  {
    hide Render, Before, After, TagAfter, Shape, Subtree, With, White0, Outer;
    var n := Subtree(c, t);
    AfterIs(c, t);
    var post := Outer(c, t);
    RenderWith(c, t, n.stag, n.kids, n.etag);
    WithSelf(c, t);
    Regrouped(Before(c, t), n.stag + Render(n.kids) + n.etag, Render(n.rest), post);
    TagAfterList(Render(c), Before(c, t) + (n.stag + Render(n.kids) + n.etag), n.rest, post);
  }

  /** At a tag or at the end there is nothing to skip. */
  lemma TagAfterTag(doc: string, n: nat)
    requires n <= |doc| && (n < |doc| ==> doc[n] == '<')
    ensures TagAfter(doc, n) == n
  {
    TagAfterText(doc, n, "");
  }

  lemma BeyondIsTag(c: Content, p: nat)
    requires Shape(c) && IsParent(c, p) && (p != 0 ==> Subtree(c, p).etag != "")
    ensures TagNext(Beyond(c, p))
  {
    if p != 0 && p in Ids(c) {
      SubtreeShape(c, p);
    }
  }

  // ---- Places in a list ----

  /** Where an element of a list is in the text of the list, and behind which white space a new
      element goes. */
  lemma {:induction false} OffsetBehind(k: Content, t: nat)
    requires t in Top(k) && Distinct(k)
    ensures t in Ids(k) && InsertOffset(k, InFront(t)) == |Before(k, t)|
    ensures var n := Subtree(k, t);
            InsertOffset(k, Behind(t)) == |Before(k, t)| + |n.stag| + Len(n.kids) + |n.etag| + White0(n.rest)
  {
    match k
    case Mark(_, _, r) => OffsetBehind(r, t);
    case Elem(_, i, _, _, _, r) =>
      if i != t {
        OffsetBehind(r, t);
        TopSeqFacts(r);
      }
  }

  /** The text in front of an element of the list below `p`. */
  lemma {:induction false} BeforeBelow(c: Content, p: nat, t: nat)
    requires Distinct(c) && p in Ids(c) && t in Ids(Subtree(c, p).kids)
    ensures t in Ids(c) && Before(c, t) == Before(c, p) + Subtree(c, p).stag + Before(Subtree(c, p).kids, t)
    ensures Subtree(c, t) == Subtree(Subtree(c, p).kids, t)
  {
    SubtreeIds(c, p);
    match c
    case Mark(x, m, r) =>
      BeforeBelow(r, p, t);
      assert x + m + (Before(r, p) + Subtree(c, p).stag + Before(Subtree(c, p).kids, t))
             == (x + m + Before(r, p)) + Subtree(c, p).stag + Before(Subtree(c, p).kids, t);
    case Elem(x, i, s, k, e, r) =>
      if i != p {
        var st, y := Subtree(c, p).stag, Before(Subtree(c, p).kids, t);
        if p in Ids(k) {
          SubtreeIds(k, p);
          BeforeBelow(k, p, t);
          assert x + s + (Before(k, p) + st + y) == (x + s + Before(k, p)) + st + y;
        } else {
          SubtreeIds(r, p);
          BeforeBelow(r, p, t);
          var z := x + (s + Render(k) + e);
          assert z + (Before(r, p) + st + y) == (z + Before(r, p)) + st + y;
        }
      }
  }

  // ---- The cursor ----

  /** The current parent, main and child positions: an element or the virtual parent, one of its
      children or none, and one of the children of that or none.  `FindChildElem` without any element
      to be found as main position can leave a child position at the top of the document. */
  predicate CursorOk(c: Content, parent: nat, main: nat, child: nat) {
    && IsParent(c, parent)
    && (main != 0 ==> main in Top(Below(c, parent)))
    && (child != 0 ==> child in Top(Below(c, main)) && (main == 0 ==> parent == 0))
  }

  lemma CursorParent(c: Content, parent: nat, main: nat, child: nat)
    requires CursorOk(c, parent, main, child) && Distinct(c)
    ensures IsParent(c, main)
  {
    BelowIds(c, parent);
    TopSeqFacts(Below(c, parent));
  }
}
