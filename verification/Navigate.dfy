/** Moving the cursor: the parent of an element, and the search among siblings. */
module Navigate {
  import opened Chars
  import opened Content
  import opened Index
  import opened Edit
  import opened Links
  import opened Effect
  import opened Represent
  import opened Position
  import opened AddElem
  import opened RemoveElem
  import opened Cursor

  /** The element around `p`, or `q` when `p` stands at the top. */
  function ParentIn(c: Content, p: nat, q: nat): nat {
    match c
    case End(_) => q
    case Mark(_, _, r) => ParentIn(r, p, q)
    case Elem(_, i, _, k, _, r) => if i == p then q else if p in Ids(k) then ParentIn(k, p, i) else ParentIn(r, p, q)
  }

  lemma {:induction false} ParentLink(elem: Elems, c: Content, p: nat, q: nat)
    requires Chain(elem, c, q) && p in Ids(c)
    ensures p < |elem| && elem[p].parent == ParentIn(c, p, q)
    decreases c
  {
    match c
    case Mark(_, _, r) => ParentLink(elem, r, p, q);
    case Elem(_, i, _, k, _, r) =>
      if i != p {
        if p in Ids(k) { ParentLink(elem, k, p, i); } else { ParentLink(elem, r, p, q); }
      }
  }

  lemma {:induction false} ParentPlace(c: Content, p: nat, q: nat)
    requires Distinct(c) && p in Ids(c) && q !in Ids(c)
    ensures var x := ParentIn(c, p, q); if x == q then p in Top(c) else x in Ids(c) && p in Top(Subtree(c, x).kids)
    decreases c
  {
    match c
    case Mark(_, _, r) => ParentPlace(r, p, q);
    case Elem(_, i, _, k, _, r) =>
      if i != p {
        if p in Ids(k) {
          ParentPlace(k, p, i);
          if ParentIn(k, p, i) != i { SubtreeIds(k, ParentIn(k, p, i)); }
        } else {
          ParentPlace(r, p, q);
        }
      }
  }

  /** The parent link of an element leads to the element in whose list it is. */
  lemma ParentFound(elem: Elems, c: Content, p: nat)
    requires Linked(elem, c) && Distinct(c) && p in Ids(c)
    ensures p < |elem| && IsParent(c, elem[p].parent) && p in Top(Below(c, elem[p].parent))
  {
    hide Linked;
    NoZero(c);
    LinkedInRange(elem, c);
    ParentLink(elem, c, p, 0);
    ParentPlace(c, p, 0);
  }

  /** The first element of a list whose name begins as asked for, or 0; any element when no name is given. */
  function FirstNamed(k: Content, name: string): (t: nat)
    ensures t != 0 ==> t in Top(k)
  {
    match k
    case End(_) => 0
    case Mark(_, _, r) => FirstNamed(r, name)
    case Elem(_, i, s, _, _, r) => if name == "" || Match(WordOf(s), name) then i else FirstNamed(r, name)
  }

  /** The part of the list below `p` behind `t`, or all of it. */
  function SiblingsAfter(c: Content, p: nat, t: nat): Content {
    var k := Below(c, p);
    var n := Subtree(k, t);
    if t != 0 && n.Elem? then n.rest else k
  }

  /** How the search stands at the list `k`: its elements are linked, and their tags are in the text. */
  ghost predicate Searching(doc: string, elem: Elems, k: Content, p: nat) {
    Chain(elem, k, p) && TagsIn(doc, elem, k)
  }

  /** The start tags of the elements of a list are where the records say. */
  ghost predicate TagsIn(doc: string, elem: Elems, k: Content) {
    match k
    case End(_) => true
    case Mark(_, _, r) => TagsIn(doc, elem, r)
    case Elem(_, i, s, _, _, r) =>
      i < |elem| && 0 <= elem[i].nStart && At(doc, elem[i].nStart, s) && |s| >= 2 && s[|s| - 1] == '>' && TagsIn(doc, elem, r)
  }

  lemma {:induction false} TagsHere(doc: string, elem: Elems, free: nat, c: Content, k: Content)
    requires Represents(doc, elem, free, c) && forall i :: i in Top(k) ==> i in Ids(c) && SameTag(c, k, i)
    requires Distinct(k)
    ensures TagsIn(doc, elem, k)
  {
    hide Represents;
    match k
    case End(_) =>
    case Mark(_, _, r) =>
      forall i | i in Top(r) ensures i in Ids(c) && SameTag(c, r, i) {
        assert i in Top(k) && SameTag(c, k, i);
      }
      TagsHere(doc, elem, free, c, r);
    case Elem(_, i, s, _, _, r) =>
      assert i in Top(k) && SameTag(c, k, i);
      TagHere(doc, elem, free, c, i);
      TopSeqFacts(r);
      forall j | j in Top(r) ensures j in Ids(c) && SameTag(c, r, j) {
        assert j in Top(k) && SameTag(c, k, j);
      }
      TagsHere(doc, elem, free, c, r);
  }

  ghost predicate SameTag(c: Content, k: Content, i: nat) {
    var n, m := Subtree(c, i), Subtree(k, i);
    n.Elem? && m.Elem? && n.stag == m.stag
  }

  lemma TagHere(doc: string, elem: Elems, free: nat, c: Content, p: nat)
    requires Represents(doc, elem, free, c) && p in Ids(c)
    ensures var s := Subtree(c, p).stag;
            p < |elem| && Subtree(c, p).Elem? && 0 <= elem[p].nStart && At(doc, elem[p].nStart, s) && |s| >= 2 && s[|s| - 1] == '>'
  {
    hide Offsets, Linked;
    ElementAt(doc, elem, free, c, p);
    var n := Subtree(c, p);
    assert Before(c, p) + (n.stag + Render(n.kids) + n.etag) + After(c, p)
           == Before(c, p) + n.stag + (Render(n.kids) + n.etag + After(c, p));
    MidAt(Before(c, p), n.stag, Render(n.kids) + n.etag + After(c, p));
  }

  lemma {:induction false} RestIn(k: Content, t: nat, i: nat)
    requires t in Top(k) && Distinct(k) && t in Ids(k) && Subtree(k, t).Elem? && i in Top(Subtree(k, t).rest)
    ensures i in Top(k) && Subtree(k, i) == Subtree(Subtree(k, t).rest, i) && Distinct(Subtree(k, t).rest)
  {
    TopSeqFacts(k);
    match k
    case Mark(_, _, r) => RestIn(r, t, i);
    case Elem(_, j, _, k0, _, r) =>
      TopSeqFacts(r);
      if j != t { RestIn(r, t, i); }
  }

  lemma {:induction false} RestDistinct(k: Content, t: nat)
    requires t in Top(k) && Distinct(k)
    ensures t in Ids(k) && Subtree(k, t).Elem? && Distinct(Subtree(k, t).rest)
  {
    TopSeqFacts(k);
    match k
    case Mark(_, _, r) => RestDistinct(r, t);
    case Elem(_, j, _, k0, _, r) =>
      TopSeqFacts(r);
      if j != t { RestDistinct(r, t); }
  }

  lemma SubtreeTag(c: Content, p: nat, i: nat)
    requires Distinct(c) && IsParent(c, p) && i in Top(Below(c, p))
    ensures i in Ids(c) && Subtree(c, i) == Subtree(Below(c, p), i) && Subtree(c, i).Elem?
  {
    ChildText(Render(c), c, p, i);
    SubtreeIds(c, i);
  }

  lemma SearchChain(elem: Elems, c: Content, p: nat, t: nat)
    requires Linked(elem, c) && Distinct(c) && Shape(c) && IsParent(c, p) && (t != 0 ==> t in Top(Below(c, p)))
    ensures Chain(elem, SiblingsAfter(c, p, t), p) && Distinct(SiblingsAfter(c, p, t)) && p < |elem|
    ensures if t != 0 then t < |elem| && elem[t].next == FirstId(SiblingsAfter(c, p, t)) else elem[p].child == FirstId(SiblingsAfter(c, p, t))
  {
    hide Linked, ListOk, Deep, DistinctSlots, Shape;
    assert Distinct(c);
    var k := Below(c, p);
    ListLinks(elem, c, p);
    ListChild(elem, p, TopSeq(k));
    TopSeqFacts(k);
    if t != 0 {
      RestDistinct(k, t);
      ReadyToUnlink(elem, c, p, t);
    } else {
      assert TopSeq(k)[0..] == TopSeq(k);
      LinkedChain(elem, k, p, TopSeq(k), 0);
    }
  }

  lemma SearchTags(doc: string, elem: Elems, free: nat, c: Content, p: nat, t: nat)
    requires Represents(doc, elem, free, c) && IsParent(c, p) && (t != 0 ==> t in Top(Below(c, p))) && Distinct(SiblingsAfter(c, p, t))
    ensures TagsIn(doc, elem, SiblingsAfter(c, p, t))
  {
    hide Linked, Offsets, Shape;
    var k := Below(c, p);
    BelowDistinct(c, p);
    if t != 0 { RestDistinct(k, t); }
    forall i | i in Top(SiblingsAfter(c, p, t)) ensures i in Ids(c) && SameTag(c, SiblingsAfter(c, p, t), i) {
      if t != 0 { RestIn(k, t, i); }
      SubtreeTag(c, p, i);
    }
    TagsHere(doc, elem, free, c, SiblingsAfter(c, p, t));
  }

  /** The search can start. */
  lemma SearchStart(doc: string, elem: Elems, free: nat, c: Content, p: nat, t: nat, name: string)
    requires Represents(doc, elem, free, c) && IsParent(c, p) && (t != 0 ==> t in Top(Below(c, p)))
    ensures var k := SiblingsAfter(c, p, t);
            && p < |elem| && Searching(doc, elem, Skip(k), p) && FirstNamed(Skip(k), name) == FirstNamed(k, name)
            && (t != 0 ==> t < |elem|) && !Skip(k).Mark? && Distinct(Skip(k))
            && FirstId(Skip(k)) == if t != 0 then elem[t].next else elem[p].child
  {
    hide Represents, SiblingsAfter;
    RepresentsParts(doc, elem, free, c);
    SearchChain(elem, c, p, t);
    SearchTags(doc, elem, free, c, p, t);
    SkipSearch(doc, elem, SiblingsAfter(c, p, t), p, name);
  }

  lemma {:induction false} SkipSearch(doc: string, elem: Elems, k: Content, p: nat, name: string)
    requires Searching(doc, elem, k, p) && Distinct(k)
    ensures Searching(doc, elem, Skip(k), p) && FirstNamed(Skip(k), name) == FirstNamed(k, name) && FirstId(Skip(k)) == FirstId(k)
    ensures Distinct(Skip(k)) && !Skip(k).Mark?
    ensures Weight(Skip(k)) == Weight(k)
  {
    match k
    case Mark(_, _, r) => SkipSearch(doc, elem, r, p, name);
    case _ =>
  }

  /** One element of the search. */
  lemma SearchStep(doc: string, elem: Elems, k: Content, p: nat, name: string)
    requires Searching(doc, elem, k, p) && Distinct(k) && FirstId(k) != 0 && !k.Mark?
    ensures k.Elem? && k.id < |elem| && 0 <= elem[k.id].nStart < |doc| && NameFrom(doc, elem[k.id].nStart + 1) == WordOf(k.stag)
    ensures elem[k.id].next == FirstId(Skip(k.rest)) && Searching(doc, elem, Skip(k.rest), p) && Weight(Skip(k.rest)) < Weight(k)
    ensures Distinct(Skip(k.rest)) && !Skip(k.rest).Mark?
    ensures FirstNamed(k, name) == if name == "" || Match(WordOf(k.stag), name) then k.id else FirstNamed(Skip(k.rest), name)
  {
    hide Match, NameFrom, WordOf, At;
    SkipSearch(doc, elem, k.rest, p, name);
    TagAtStart(doc, elem[k.id].nStart, k.stag);
    NameInside(doc, elem[k.id].nStart, k.stag);
  }

  lemma TagAtStart(doc: string, i: int, s: string)
    requires At(doc, i, s) && |s| >= 2
    ensures 0 <= i < |doc|
  {
  }

  lemma {:induction false} FirstAny(k: Content)
    ensures FirstNamed(k, "") == FirstId(k)
  {
    match k
    case End(_) =>
    case Mark(_, _, r) => FirstAny(r);
    case Elem(_, _, _, _, _, _) =>
  }

  lemma NoneLeft(doc: string, elem: Elems, k: Content, p: nat, name: string)
    requires Searching(doc, elem, k, p) && FirstId(k) == 0 && !k.Mark?
    ensures FirstNamed(k, name) == 0
  {
  }

  /** What the search finds is a child of `p`. */
  lemma FoundSibling(elem: Elems, c: Content, p: nat, t: nat, name: string)
    requires Linked(elem, c) && Distinct(c) && Shape(c) && IsParent(c, p) && (t != 0 ==> t in Top(Below(c, p)))
    ensures var i := FirstNamed(SiblingsAfter(c, p, t), name);
            i != 0 ==> i in Top(Below(c, p)) && i < |elem| && elem[i].parent == p
  {
    hide Linked, Shape, ListOk, Deep;
    assert Distinct(c);
    var i, k := FirstNamed(SiblingsAfter(c, p, t), name), Below(c, p);
    if i != 0 {
      BelowDistinct(c, p);
      if t != 0 {
        RestDistinct(k, t);
        RestIn(k, t, i);
      }
      ListLinks(elem, c, p);
      TopSeqFacts(k);
      ListOkAt(elem, p, TopSeq(k), IndexOf(TopSeq(k), i));
    }
  }

  lemma FoundParent(elem: Elems, c: Content, p: nat, t: nat)
    requires Linked(elem, c) && Distinct(c) && IsParent(c, p) && t in Top(Below(c, p))
    ensures t < |elem| && elem[t].parent == p
  {
    hide Linked, ListOk, Deep;
    assert Distinct(c);
    ListLinks(elem, c, p);
    TopSeqFacts(Below(c, p));
    ListOkAt(elem, p, TopSeq(Below(c, p)), IndexOf(TopSeq(Below(c, p)), t));
  }

  /** The positions a call works on are elements. */
  lemma TargetParent(c: Content, parent: nat, main: nat, child: nat)
    requires CursorOk(c, parent, main, child) && Distinct(c)
    ensures IsParent(c, main) && IsParent(c, child)
  {
    CursorParent(c, parent, main, child);
    TopSeqFacts(Below(c, main));
    BelowIds(c, main);
  }
}
