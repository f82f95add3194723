/** What an edit of the content means for the slots, the links and the offsets in the index. */
module Effect {
  import opened Chars
  import opened Content
  import opened Index
  import opened Edit
  import opened Links

  // ---- Slots ----

  /** The place of `i` in a list of slots, or its length. */
  function IndexOf(s: seq<nat>, i: nat): (j: nat)
    ensures j <= |s| && (j < |s| ==> s[j] == i) && (i in s ==> j < |s|)
  {
    if s == [] || s[0] == i then 0 else 1 + IndexOf(s[1..], i)
  }

  function PlaceOf(k: Content, w: Where): (j: nat)
    ensures CanInsert(k, w) ==> j <= |TopSeq(k)|
  {
    TopSeqFacts(k);
    match w
    case Last => |TopSeq(k)|
    case Behind(rel) => IndexOf(TopSeq(k), rel) + 1
    case InFront(rel) => IndexOf(TopSeq(k), rel)
    case _ => 0
  }

  lemma {:induction false} SetTextSame(k: Content, t: string)
    ensures TopSeq(SetText(k, t)) == TopSeq(k) && Ids(SetText(k, t)) == Ids(k) && Distinct(SetText(k, t)) == Distinct(k)
    ensures forall elem: Elems :: Deep(elem, SetText(k, t)) == Deep(elem, k)
    ensures Len(SetText(k, t)) == Len(k) - |k.text| + |t|
  {
  }

  /** The new element takes its place in the list, and nothing else about the slots changes. */
  predicate Inserted(k: Content, k': Content, id: nat, j: nat)
    requires j <= |TopSeq(k)|
  {
    TopSeq(k') == InsertAt(TopSeq(k), j, id) && Ids(k') == Ids(k) + {id} && Distinct(k')
  }

  lemma InsertHeadSlots(k: Content, id: nat, s: string, n: Content, e: string)
    requires Distinct(k) && id !in Ids(k) && id != 0 && Ids(n) == {} && Distinct(n)
    ensures Inserted(k, InsertHead(k, id, s, n, e), id, 0)
  {
    SetTextSame(k, EOL);
    SetTextSame(k, EOL + k.text);
  }

  /** Inserting behind the first element of a list. */
  lemma InsertedBehind(k: Content, r': Content, id: nat, j: nat)
    requires k.Elem? && Distinct(k) && id !in Ids(k) && j <= |TopSeq(k.rest)| && Inserted(k.rest, r', id, j)
    ensures j + 1 <= |TopSeq(k)| && Inserted(k, Elem(k.text, k.id, k.stag, k.kids, k.etag, r'), id, j + 1)
  {
    assert InsertAt(TopSeq(k), j + 1, id) == [k.id] + InsertAt(TopSeq(k.rest), j, id);
  }

  lemma IndexOfBehind(k: Content, t: nat)
    requires k.Elem? && t != k.id
    ensures IndexOf(TopSeq(k), t) == IndexOf(TopSeq(k.rest), t) + 1
  {
    assert TopSeq(k)[1..] == TopSeq(k.rest);
  }

  lemma {:induction false} InsertLastSlots(k: Content, id: nat, s: string, n: Content, e: string)
    requires Distinct(k) && id !in Ids(k) && id != 0 && Ids(n) == {} && Distinct(n)
    ensures Inserted(k, InsertLast(k, id, s, n, e), id, |TopSeq(k)|)
  {
    match k
    case End(_) =>
    case Mark(_, _, r) => InsertLastSlots(r, id, s, n, e);
    case Elem(_, _, _, _, _, r) =>
      InsertLastSlots(r, id, s, n, e);
      InsertedBehind(k, InsertLast(r, id, s, n, e), id, |TopSeq(r)|);
  }

  lemma {:induction false} InsertAfterSlots(k: Content, rel: nat, id: nat, s: string, n: Content, e: string)
    requires Distinct(k) && id !in Ids(k) && id != 0 && Ids(n) == {} && Distinct(n) && rel in Top(k)
    ensures IndexOf(TopSeq(k), rel) < |TopSeq(k)|
    ensures Inserted(k, InsertAfter(k, rel, id, s, n, e), id, IndexOf(TopSeq(k), rel) + 1)
  {
    hide Inserted, IndexOf;
    TopSeqFacts(k);
    match k
    case Mark(_, _, r) =>
      InsertAfterSlots(r, rel, id, s, n, e);
      InsertedMark(k, InsertAfter(r, rel, id, s, n, e), id, IndexOf(TopSeq(k), rel) + 1);
    case Elem(_, i, _, _, _, r) =>
      if i == rel {
        InsertHeadSlots(r, id, s, n, e);
        IndexOfFirst(k);
        InsertedBehind(k, InsertHead(r, id, s, n, e), id, 0);
      } else {
        InsertAfterSlots(r, rel, id, s, n, e);
        IndexOfBehind(k, rel);
        InsertedBehind(k, InsertAfter(r, rel, id, s, n, e), id, IndexOf(TopSeq(r), rel) + 1);
      }
  }

  lemma IndexOfFirst(k: Content)
    requires k.Elem?
    ensures IndexOf(TopSeq(k), k.id) == 0
  {
  }

  lemma InsertedMark(k: Content, r': Content, id: nat, j: nat)
    requires k.Mark? && Distinct(k) && j <= |TopSeq(k.rest)| && Inserted(k.rest, r', id, j)
    ensures Inserted(k, Mark(k.text, k.mark, r'), id, j)
  {
  }

  /** Inserting in front of the first element of a list. */
  lemma InsertedInFront(k: Content, id: nat, s: string, n: Content, e: string)
    requires k.Elem? && Distinct(k) && id !in Ids(k) && id != 0 && Ids(n) == {} && Distinct(n)
    ensures Inserted(k, Elem(k.text, id, s, n, e, SetText(k, EOL)), id, 0)
  {
    SetTextSame(k, EOL);
  }

  lemma {:induction false} InsertBeforeSlots(k: Content, rel: nat, id: nat, s: string, n: Content, e: string)
    requires Distinct(k) && id !in Ids(k) && id != 0 && Ids(n) == {} && Distinct(n) && rel in Top(k)
    ensures IndexOf(TopSeq(k), rel) < |TopSeq(k)|
    ensures Inserted(k, InsertBefore(k, rel, id, s, n, e), id, IndexOf(TopSeq(k), rel))
  {
    hide Inserted, IndexOf;
    TopSeqFacts(k);
    match k
    case Mark(_, _, r) =>
      InsertBeforeSlots(r, rel, id, s, n, e);
      InsertedMark(k, InsertBefore(r, rel, id, s, n, e), id, IndexOf(TopSeq(k), rel));
    case Elem(_, i, _, _, _, r) =>
      if i == rel {
        IndexOfFirst(k);
        InsertedInFront(k, id, s, n, e);
      } else {
        InsertBeforeSlots(r, rel, id, s, n, e);
        IndexOfBehind(k, rel);
        InsertedBehind(k, InsertBefore(r, rel, id, s, n, e), id, IndexOf(TopSeq(r), rel));
      }
  }

  lemma InsertSlots(k: Content, w: Where, id: nat, s: string, n: Content, e: string)
    requires CanInsert(k, w) && Distinct(k) && id !in Ids(k) && id != 0 && Ids(n) == {} && Distinct(n)
    ensures Inserted(k, Insert(k, w, id, s, n, e), id, PlaceOf(k, w))
  {
    hide Inserted;
    match w
    case Only => assert Inserted(k, Insert(k, w, id, s, n, e), id, 0) by { InsertOnlySlots(id, s, n, e); }
    case Head => InsertHeadSlots(k, id, s, n, e);
    case Last => InsertLastSlots(k, id, s, n, e);
    case Behind(rel) => InsertAfterSlots(k, rel, id, s, n, e);
    case InFront(rel) => InsertBeforeSlots(k, rel, id, s, n, e);
  }

  lemma InsertOnlySlots(id: nat, s: string, n: Content, e: string)
    requires id != 0 && Ids(n) == {} && Distinct(n)
    ensures Inserted(End(""), InsertOnly(id, s, n, e), id, 0)
  {
  }

  lemma {:induction false} RemoveIds(k: Content, t: nat)
    requires Distinct(k) && t in Top(k)
    ensures t in Ids(k) && Distinct(Remove(k, t)) && Ids(Remove(k, t)) == Ids(k) - {t} - Ids(Subtree(k, t).kids)
  {
    match k
    case Mark(_, _, r) => RemoveIds(r, t);
    case Elem(x, i, _, k0, _, r) =>
      TopSeqFacts(r);
      if i == t {
        SetTextSame(r, x + (if AllWhite(r.text) then "" else r.text));
      } else {
        RemoveIds(r, t);
        SubtreeIds(r, t);
        assert Subtree(k, t) == Subtree(r, t);
      }
  }

  lemma {:induction false} RemoveSlots(k: Content, t: nat)
    requires t in Top(k)
    ensures IndexOf(TopSeq(k), t) < |TopSeq(k)| && TopSeq(Remove(k, t)) == RemoveAt(TopSeq(k), IndexOf(TopSeq(k), t))
  {
    hide IndexOf;
    TopSeqFacts(k);
    match k
    case Mark(_, _, r) => RemoveSlots(r, t);
    case Elem(x, i, _, _, _, r) =>
      if i == t {
        IndexOfFirst(k);
        assert RemoveAt(TopSeq(k), 0) == TopSeq(r);
        SetTextSame(r, x + (if AllWhite(r.text) then "" else r.text));
      } else {
        RemoveSlots(r, t);
        IndexOfBehind(k, t);
        assert RemoveAt(TopSeq(k), IndexOf(TopSeq(k), t)) == [i] + RemoveAt(TopSeq(r), IndexOf(TopSeq(r), t));
      }
  }

  lemma {:induction false} SubtreeIds(c: Content, p: nat)
    requires p in Ids(c)
    ensures Subtree(c, p).Elem? && Ids(Subtree(c, p)) <= Ids(c)
    ensures Distinct(c) ==> Distinct(Subtree(c, p))
  {
    match c
    case Mark(_, _, r) => SubtreeIds(r, p);
    case Elem(_, i, _, k, _, r) =>
      if i != p {
        if p in Ids(k) { SubtreeIds(k, p); } else { SubtreeIds(r, p); }
      }
  }

  /** Replacing what is below an element replaces its slots. */
  lemma {:induction false} WithSlots(c: Content, p: nat, s: string, k: Content, e: string)
    requires Distinct(c) && p in Ids(c) && Distinct(k) && Ids(k) !! (Ids(c) - Ids(Subtree(c, p).kids))
    ensures var c' := With(c, p, s, k, e);
            Distinct(c') && Ids(c') == (Ids(c) - Ids(Subtree(c, p).kids)) + Ids(k) && TopSeq(c') == TopSeq(c)
  {
    hide TopSeq;
    SubtreeIds(c, p);
    WithTop(c, p, s, k, e);
    match c
    case Mark(_, _, r) => WithSlots(r, p, s, k, e);
    case Elem(_, i, _, k0, _, r) =>
      if i == p {
      } else if p in Ids(k0) {
        SubtreeIds(k0, p);
        WithSlots(k0, p, s, k, e);
      } else {
        SubtreeIds(r, p);
        WithSlots(r, p, s, k, e);
      }
  }

  // ---- Links ----

  /** The links of a record to its siblings and its parent. */
  predicate SameSiblings(a: ElemPos, b: ElemPos) {
    b.parent == a.parent && b.next == a.next && b.prev == a.prev && b.first == a.first
  }

  lemma ListFrame(a: Elems, b: Elems, p: nat, s: seq<nat>)
    requires ListOk(a, p, s) && |a| <= |b| && b[p].child == a[p].child
    requires forall i :: i in s && i < |a| ==> SameSiblings(a[i], b[i])
    ensures ListOk(b, p, s)
  {
    forall j | 0 <= j < |s| ensures s[j] < |b| && LinksOk(b[s[j]], p, s, j) {
      assert s[j] in s && LinksOk(a[s[j]], p, s, j);
    }
  }

  /** Records below `c` whose links are kept, with their start tags. */
  ghost predicate KeepsLinks(a: Elems, b: Elems, ids: set<nat>) {
    |a| <= |b| && forall i :: i in ids && i < |a| ==> SameSiblings(a[i], b[i]) && b[i].child == a[i].child && b[i].startTagLen == a[i].startTagLen
  }

  lemma {:induction false} DeepFrame(a: Elems, b: Elems, c: Content)
    requires Deep(a, c) && KeepsLinks(a, b, Ids(c))
    ensures Deep(b, c)
  {
    match c
    case End(_) =>
    case Mark(_, _, r) => DeepFrame(a, b, r);
    case Elem(_, id, _, k, _, r) =>
      assert id in Ids(c);
      TopSeqFacts(k);
      ListFrame(a, b, id, TopSeq(k));
      DeepFrame(a, b, k);
      DeepFrame(a, b, r);
  }

  /** The children lists below a sibling list do not depend on the links among the siblings. */
  lemma {:induction false} DeepTop(a: Elems, b: Elems, c: Content)
    requires Deep(a, c) && Distinct(c) && |a| == |b| && KeepsLinks(a, b, Ids(c) - Top(c))
    requires forall i :: i in Top(c) && i < |a| ==> b[i].child == a[i].child && b[i].startTagLen == a[i].startTagLen
    ensures Deep(b, c)
  {
    match c
    case End(_) =>
    case Mark(_, _, r) => DeepTop(a, b, r);
    case Elem(_, id, _, k, _, r) =>
      assert id in Top(c);
      TopSeqFacts(k);
      TopSeqFacts(r);
      ListFrame(a, b, id, TopSeq(k));
      DeepFrame(a, b, k);
      DeepTop(a, b, r);
  }

  /** A new list below `p`: the tree is linked if the list is, and nothing else changed. */
  lemma {:induction false} DeepWith(a: Elems, b: Elems, c: Content, p: nat, s: string, k: Content, e: string)
    requires Deep(a, c) && Distinct(c) && p in Ids(c) && |a| == |b|
    requires KeepsLinks(a, b, Ids(c) - {p} - Ids(Subtree(c, p).kids))
    requires p < |b| && SameSiblings(a[p], b[p]) && 0 < b[p].startTagLen && ListOk(b, p, TopSeq(k)) && Deep(b, k)
    ensures Deep(b, With(c, p, s, k, e))
  {
    SubtreeIds(c, p);
    match c
    case Mark(_, _, r) => DeepWith(a, b, r, p, s, k, e);
    case Elem(_, i, _, k0, _, r) =>
      if i == p {
        DeepFrame(a, b, r);
      } else if p in Ids(k0) {
        SubtreeIds(k0, p);
        assert i in Ids(c);
        DeepWith(a, b, k0, p, s, k, e);
        WithTop(k0, p, s, k, e);
        TopSeqFacts(k0);
        KidsApart(k0, p);
        ListFrame(a, b, i, TopSeq(k0));
        DeepFrame(a, b, r);
      } else {
        SubtreeIds(r, p);
        TopSeqFacts(k0);
        ListFrame(a, b, i, TopSeq(k0));
        DeepFrame(a, b, k0);
        DeepWith(a, b, r, p, s, k, e);
      }
  }

  lemma {:induction false} WithTop(c: Content, p: nat, s: string, k: Content, e: string)
    ensures TopSeq(With(c, p, s, k, e)) == TopSeq(c)
  {
    match c
    case End(_) =>
    case Mark(_, _, r) => WithTop(r, p, s, k, e);
    case Elem(_, _, _, _, _, r) => WithTop(r, p, s, k, e);
  }

  /** What is below an element is not among its siblings, nor is the element itself below it. */
  lemma {:induction false} KidsApart(c: Content, p: nat)
    requires Distinct(c) && p in Ids(c)
    ensures Top(c) !! Ids(Subtree(c, p).kids) && p !in Ids(Subtree(c, p).kids)
  {
    SubtreeIds(c, p);
    match c
    case Mark(_, _, r) => KidsApart(r, p);
    case Elem(_, i, _, k, _, r) =>
      TopSeqFacts(r);
      if i != p {
        if p in Ids(k) {
          SubtreeIds(k, p);
          KidsApart(k, p);
        } else {
          SubtreeIds(r, p);
          KidsApart(r, p);
        }
      }
  }

  /** A list with a new element: its children lists are those of the old list and of the element. */
  lemma {:induction false} DeepInsert(elem: Elems, k: Content, w: Where, id: nat, s: string, n: Content, e: string)
    requires Deep(elem, k) && id < |elem| && 0 < elem[id].startTagLen && ListOk(elem, id, TopSeq(n)) && Deep(elem, n)
    ensures Deep(elem, Insert(k, w, id, s, n, e))
  {
    SetTextSame(k, EOL);
    SetTextSame(k, EOL + k.text);
    match w
    case Only =>
    case Head =>
    case Last =>
      match k {
        case End(_) =>
        case Mark(_, _, r) => DeepInsert(elem, r, w, id, s, n, e);
        case Elem(_, _, _, _, _, r) => DeepInsert(elem, r, w, id, s, n, e);
      }
    case Behind(rel) =>
      match k {
        case End(_) =>
        case Mark(_, _, r) => DeepInsert(elem, r, w, id, s, n, e);
        case Elem(_, i, _, _, _, r) => DeepInsert(elem, r, if i == rel then Head else w, id, s, n, e);
      }
    case InFront(rel) =>
      match k {
        case End(_) =>
        case Mark(_, _, r) => DeepInsert(elem, r, w, id, s, n, e);
        case Elem(_, i, _, _, _, r) => if i != rel { DeepInsert(elem, r, w, id, s, n, e); }
      }
  }

  lemma {:induction false} DeepRemove(elem: Elems, k: Content, t: nat)
    requires Deep(elem, k)
    ensures Deep(elem, Remove(k, t))
  {
    match k
    case End(_) =>
    case Mark(_, _, r) => DeepRemove(elem, r, t);
    case Elem(x, i, _, _, _, r) =>
      if i == t {
        SetTextSame(r, x + (if AllWhite(r.text) then "" else r.text));
      } else {
        DeepRemove(elem, r, t);
      }
  }

  // ---- Text ----

  /** Offset of the new element in its list, and how much longer the list becomes. */
  function InsertOffset(k: Content, w: Where): nat {
    match w
    case Only => |EOL|
    case Head => if AllWhite(k.text) then |k.text| else 0
    case Last => Len(k)
    case Behind(rel) =>
      (match k
       case End(_) => 0
       case Mark(t, m, r) => |t| + |m| + InsertOffset(r, w)
       case Elem(t, i, s, k0, e, r) => |t| + |s| + Len(k0) + |e| + InsertOffset(r, if i == rel then Head else w))
    case InFront(rel) =>
      (match k
       case End(_) => 0
       case Mark(t, m, r) => |t| + |m| + InsertOffset(r, w)
       case Elem(t, i, s, k0, e, r) => if i == rel then |t| else |t| + |s| + Len(k0) + |e| + InsertOffset(r, w))
  }

  /** The list with another rest behind its first item. */
  function Replace(k: Content, r: Content): Content
    requires !k.End?
  {
    match k
    case Mark(t, m, _) => Mark(t, m, r)
    case Elem(t, i, s, k0, e, _) => Elem(t, i, s, k0, e, r)
  }

  /** The text of the first item of a list. */
  function First(k: Content): string {
    match k
    case End(_) => ""
    case Mark(t, m, _) => t + m
    case Elem(t, _, s, k0, e, _) => t + (s + Render(k0) + e)
  }

  lemma SpliceRest(k: Content, r: Content, n: nat, y: string)
    requires !k.End? && n <= Len(k.rest) && Render(r) == Splice(Render(k.rest), n, 0, y)
    ensures |First(k)| + n <= Len(k) && Render(Replace(k, r)) == Splice(Render(k), |First(k)| + n, 0, y)
  {
    SpliceBehind(First(k), Render(k.rest), n, 0, y);
  }

  lemma SpliceEnd(t: string, y: string)
    ensures t + y + "" == Splice(t, |t|, 0, y)
  {
  }

  lemma {:induction false} RenderInsert(k: Content, w: Where, id: nat, s: string, n: Content, e: string)
    requires CanInsert(k, w) && !w.Only?
    ensures InsertOffset(k, w) <= Len(k)
    ensures Render(Insert(k, w, id, s, n, e)) == Splice(Render(k), InsertOffset(k, w), 0, (s + Render(n) + e) + EOL)
    decreases k
  {
    hide Splice, InsertHead;
    var y := (s + Render(n) + e) + EOL;
    var w' := if w.Behind? && k.Elem? && k.id == w.rel then Head else w;
    if w.Head? {
      RenderInsertHead(k, id, s, n, e);
    } else if w.InFront? && k.Elem? && k.id == w.rel {
      RenderInsertFront(k, id, s, n, e);
    } else if k.End? {
      SpliceEnd(k.text, y);
      assert k.text + (s + Render(n) + e) + EOL == k.text + y + "";
    } else {
      RenderInsert(k.rest, w', id, s, n, e);
      SpliceRest(k, Insert(k.rest, w', id, s, n, e), InsertOffset(k.rest, w'), y);
      InsertRest(k, w, id, s, n, e);
    }
  }

  /** Inserting anywhere but at the front of a list leaves its first item alone. */
  lemma InsertRest(k: Content, w: Where, id: nat, s: string, n: Content, e: string)
    requires CanInsert(k, w) && !w.Only? && !w.Head? && !k.End? && !(w.InFront? && k.Elem? && k.id == w.rel)
    ensures var w' := if w.Behind? && k.Elem? && k.id == w.rel then Head else w;
            CanInsert(k.rest, w') && Insert(k, w, id, s, n, e) == Replace(k, Insert(k.rest, w', id, s, n, e))
            && InsertOffset(k, w) == |First(k)| + InsertOffset(k.rest, w')
  {
    hide InsertHead;
  }

  lemma RenderSetText(k: Content, t: string)
    ensures Render(k) == k.text + Render(SetText(k, ""))
    ensures Render(SetText(k, t)) == t + Render(SetText(k, ""))
  {
    match k
    case End(_) =>
    case Mark(x, m, r) =>
      assert x + m + Render(r) == x + ("" + m + Render(r));
      assert t + m + Render(r) == t + ("" + m + Render(r));
    case Elem(x, _, s, k0, e, r) =>
      assert x + (s + Render(k0) + e) + Render(r) == x + ("" + (s + Render(k0) + e) + Render(r));
      assert t + (s + Render(k0) + e) + Render(r) == t + ("" + (s + Render(k0) + e) + Render(r));
  }

  lemma RenderInsertHead(k: Content, id: nat, s: string, n: Content, e: string)
    ensures InsertOffset(k, Head) <= Len(k)
    ensures Render(InsertHead(k, id, s, n, e)) == Splice(Render(k), InsertOffset(k, Head), 0, (s + Render(n) + e) + EOL)
  {
    var x, b := s + Render(n) + e, Render(SetText(k, ""));
    RenderSetText(k, EOL);
    RenderSetText(k, EOL + k.text);
    var a := Render(k);
    if AllWhite(k.text) {
      assert k.text + x + (EOL + b) == k.text + (x + EOL) + b;
      assert a[..|k.text|] == k.text && a[|k.text|..] == b;
    } else {
      assert "" + x + (EOL + k.text + b) == "" + (x + EOL) + (k.text + b);
      assert a[..0] == "" && a[0..] == a;
    }
  }

  lemma RenderInsertFront(k: Content, id: nat, s: string, n: Content, e: string)
    requires k.Elem?
    ensures Render(Elem(k.text, id, s, n, e, SetText(k, EOL))) == Splice(Render(k), |k.text|, 0, (s + Render(n) + e) + EOL)
  {
    var x, b := s + Render(n) + e, Render(SetText(k, ""));
    RenderSetText(k, EOL);
    var a := Render(k);
    assert k.text + x + (EOL + b) == k.text + (x + EOL) + b;
    assert a[..|k.text|] == k.text && a[|k.text|..] == b;
  }

  // ---- Offsets ----

  function LevelOf(c: Content, p: nat, lvl: int): int {
    match c
    case End(_) => lvl
    case Mark(_, _, r) => LevelOf(r, p, lvl)
    case Elem(_, i, _, k, _, r) => if i == p then lvl else if p in Ids(k) then LevelOf(k, p, lvl + 1) else LevelOf(r, p, lvl)
  }

  /** Where the records say an element is. */
  lemma {:induction false} PlacedAt(elem: Elems, c: Content, p: nat, off: int, lvl: int)
    requires Offsets(elem, c, off, lvl) && p in Ids(c)
    ensures var n := Subtree(c, p);
            && n.Elem? && p < |elem| && Placed(elem[p], n, off + |Before(c, p)| - |n.text|, LevelOf(c, p, lvl))
            && Offsets(elem, n.kids, off + |Before(c, p)| + |n.stag|, LevelOf(c, p, lvl) + 1)
    decreases c
  {
    hide Placed;
    match c
    case Mark(t, m, r) => PlacedAt(elem, r, p, off + |t| + |m|, lvl);
    case Elem(t, i, s, k, e, r) =>
      if i == p {
      } else if p in Ids(k) {
        PlacedAt(elem, k, p, off + |t| + |s|, lvl + 1);
      } else {
        PlacedAt(elem, r, p, off + |t| + |s| + Len(k) + |e|, lvl);
      }
  }

  /** The parts of a record that offsets depend on. */
  predicate SamePlace(a: ElemPos, b: ElemPos, d: int) {
    && b.nStart == a.nStart + d && b.nLength == a.nLength && b.startTagLen == a.startTagLen && b.endTagLen == a.endTagLen
    && b.level == a.level && b.nonEnded == a.nonEnded && b.deleted == a.deleted
  }

  ghost predicate KeepsPlaces(a: Elems, b: Elems, ids: set<nat>, d: int) {
    |a| <= |b| && forall i :: i in ids && i < |a| ==> SamePlace(a[i], b[i], d)
  }

  lemma {:induction false} OffsetsMove(a: Elems, b: Elems, c: Content, off: int, lvl: int, d: int)
    requires Offsets(a, c, off, lvl) && KeepsPlaces(a, b, Ids(c), d)
    ensures Offsets(b, c, off + d, lvl)
    decreases c
  {
    match c
    case End(_) =>
    case Mark(t, m, r) => OffsetsMove(a, b, r, off + |t| + |m|, lvl, d);
    case Elem(t, id, s, k, e, r) =>
      assert id in Ids(c);
      OffsetsMove(a, b, k, off + |t| + |s|, lvl + 1, d);
      OffsetsMove(a, b, r, off + |t| + |s| + Len(k) + |e|, lvl, d);
  }

  /** The records are right but for an edit at `t` that made the document `s` longer: what follows
      `t` starts `s` too early, and what is around it is `s` too short. */
  predicate Stale(elem: Elems, c: Content, t: nat, s: int, off: int, lvl: int) {
    match c
    case End(_) => true
    case Mark(x, m, r) => Stale(elem, r, t, s, off + |x| + |m|, lvl)
    case Elem(x, id, st, k, e, r) =>
      var ko, ro := off + |x| + |st|, off + |x| + |st| + Len(k) + |e|;
      id < |elem| &&
      if id == t then
        Placed(elem[id], c, off, lvl) && Offsets(elem, k, ko - s, lvl + 1) && Offsets(elem, r, ro - s, lvl)
      else if t in Ids(k) then
        Placed(Moved(elem[id], 0, s), c, off, lvl) && Stale(elem, k, t, s, ko, lvl + 1) && Offsets(elem, r, ro - s, lvl)
      else
        Placed(elem[id], c, off, lvl) && Offsets(elem, k, ko, lvl + 1) && Stale(elem, r, t, s, ro, lvl)
  }

  /** What an index looks like in which the records of `c` are moved as `x_Adjust` moves them. */
  ghost predicate Adjusts(a: Elems, b: Elems, c: Content, t: nat, s: int, after: bool) {
    |a| == |b| && forall i :: i in Ids(c) && i < |a| ==>
      b[i] == Moved(a[i], if i in Following(c, t, after) then s else 0, if i in Around(c, t) then s else 0)
  }

  lemma RepairsSelf(a: Elems, b: Elems, c: Content, s: int, off: int, lvl: int)
    requires c.Elem? && Stale(a, c, c.id, s, off, lvl) && Distinct(c) && Adjusts(a, b, c, c.id, s, false)
    ensures Offsets(b, c, off, lvl)
  {
    hide Placed;
    AroundFollowing(c, c.id, false);
    var ko := off + |c.text| + |c.stag|;
    assert c.id in Ids(c);
    OffsetsMove(a, b, c.kids, ko - s, lvl + 1, s);
    OffsetsMove(a, b, c.rest, ko + Len(c.kids) + |c.etag| - s, lvl, s);
  }

  lemma RepairsAround(a: Elems, b: Elems, c: Content, t: nat, s: int, off: int, lvl: int)
    requires c.Elem? && t != c.id && t in Ids(c.kids) && Stale(a, c, t, s, off, lvl) && Distinct(c) && Adjusts(a, b, c, t, s, false)
    ensures Adjusts(a, b, c.kids, t, s, false)
    ensures c.id < |b| && Placed(b[c.id], c, off, lvl)
    ensures Offsets(b, c.rest, off + |c.text| + |c.stag| + Len(c.kids) + |c.etag|, lvl)
  {
    hide Placed;
    AroundFollowing(c, t, false);
    AroundFollowing(c.kids, t, false);
    assert c.id in Ids(c);
    OffsetsMove(a, b, c.rest, off + |c.text| + |c.stag| + Len(c.kids) + |c.etag| - s, lvl, s);
  }

  /** `x_Adjust` repairs a stale index. */
  lemma RepairsLater(a: Elems, b: Elems, c: Content, t: nat, s: int, off: int, lvl: int)
    requires c.Elem? && t != c.id && t !in Ids(c.kids) && Stale(a, c, t, s, off, lvl) && Distinct(c) && t in Ids(c) && Adjusts(a, b, c, t, s, false)
    ensures var ro := off + |c.text| + |c.stag| + Len(c.kids) + |c.etag|;
            && t in Ids(c.rest) && Stale(a, c.rest, t, s, ro, lvl) && Distinct(c.rest) && Adjusts(a, b, c.rest, t, s, false)
            && c.id < |b| && Placed(b[c.id], c, off, lvl) && Offsets(b, c.kids, off + |c.text| + |c.stag|, lvl + 1)
  {
    hide Placed;
    AroundFollowing(c.rest, t, false);
    assert c.id in Ids(c) && b[c.id] == Moved(a[c.id], 0, 0) == a[c.id];
    OffsetsMove(a, b, c.kids, off + |c.text| + |c.stag|, lvl + 1, 0);
  }

  lemma {:induction false} AdjustRepairs(a: Elems, b: Elems, c: Content, t: nat, s: int, off: int, lvl: int)
    requires Stale(a, c, t, s, off, lvl) && Distinct(c) && t in Ids(c) && Adjusts(a, b, c, t, s, false)
    ensures Offsets(b, c, off, lvl)
    decreases c
  {
    hide Placed;
    match c
    case Mark(x, m, r) => AdjustRepairs(a, b, r, t, s, off + |x| + |m|, lvl);
    case Elem(x, id, st, k, e, r) =>
      if id == t {
        RepairsSelf(a, b, c, s, off, lvl);
      } else if t in Ids(k) {
        RepairsAround(a, b, c, t, s, off, lvl);
        AdjustRepairs(a, b, k, t, s, off + |x| + |st|, lvl + 1);
      } else {
        RepairsLater(a, b, c, t, s, off, lvl);
        AdjustRepairs(a, b, r, t, s, off + |x| + |st| + Len(k) + |e|, lvl);
      }
  }

  lemma RemovesSelf(a: Elems, b: Elems, c: Content, s: int, off: int, lvl: int)
    requires c.Elem? && Offsets(a, c, off, lvl) && Distinct(c) && Adjusts(a, b, c, c.id, s, true)
    requires s == Len(Remove(c, c.id)) - Len(c)
    ensures Offsets(b, Remove(c, c.id), off, lvl)
  {
    hide Placed;
    AroundFollowing(c, c.id, true);
    var ro := off + |c.text| + |c.stag| + Len(c.kids) + |c.etag|;
    var t := c.text + (if AllWhite(c.rest.text) then "" else c.rest.text);
    OffsetsMove(a, b, c.rest, ro, lvl, s);
    SetTextOffsets(b, c.rest, t, ro + s, lvl);
    SetTextSame(c.rest, t);
  }

  lemma RemovesLater(a: Elems, b: Elems, c: Content, t: nat, s: int, off: int, lvl: int)
    requires c.Elem? && t != c.id && t in Top(c) && Offsets(a, c, off, lvl) && Distinct(c) && Adjusts(a, b, c, t, s, true)
    ensures t in Top(c.rest) && Adjusts(a, b, c.rest, t, s, true)
    ensures c.id < |b| && Placed(b[c.id], c, off, lvl) && Offsets(b, c.kids, off + |c.text| + |c.stag|, lvl + 1)
  {
    hide Placed;
    TopSeqFacts(c.rest);
    AroundFollowing(c, t, true);
    AroundFollowing(c.rest, t, true);
    assert c.id in Ids(c) && b[c.id] == Moved(a[c.id], 0, 0) == a[c.id];
    OffsetsMove(a, b, c.kids, off + |c.text| + |c.stag|, lvl + 1, 0);
  }

  /** After `x_RemoveElem` has adjusted the index, the records of the remaining elements are right. */
  lemma {:induction false} AdjustRemoves(a: Elems, b: Elems, c: Content, t: nat, s: int, off: int, lvl: int)
    requires Offsets(a, c, off, lvl) && Distinct(c) && t in Top(c) && Adjusts(a, b, c, t, s, true)
    requires s == Len(Remove(c, t)) - Len(c)
    ensures Offsets(b, Remove(c, t), off, lvl)
    decreases c
  {
    hide Placed, Adjusts, Ids;
    match c
    case Mark(x, m, r) =>
      AdjustsRest(a, b, c, t, s);
      AdjustRemoves(a, b, r, t, s, off + |x| + |m|, lvl);
    case Elem(x, id, st, k, e, r) =>
      if id == t {
        RemovesSelf(a, b, c, s, off, lvl);
      } else {
        RemovesLater(a, b, c, t, s, off, lvl);
        PlacedRest(b[id], c, Remove(r, t), off, lvl);
        AdjustRemoves(a, b, r, t, s, off + |x| + |st| + Len(k) + |e|, lvl);
      }
  }

  lemma PlacedRest(e: ElemPos, c: Content, r: Content, off: int, lvl: int)
    requires c.Elem?
    ensures Placed(e, c, off, lvl) == Placed(e, Elem(c.text, c.id, c.stag, c.kids, c.etag, r), off, lvl)
  {
  }

  lemma AdjustsRest(a: Elems, b: Elems, c: Content, t: nat, s: int)
    requires c.Mark? && Adjusts(a, b, c, t, s, true)
    ensures Adjusts(a, b, c.rest, t, s, true)
  {
  }

  lemma {:induction false} SetTextOffsets(elem: Elems, k: Content, t: string, off: int, lvl: int)
    requires Offsets(elem, k, off, lvl)
    ensures Offsets(elem, SetText(k, t), off + |k.text| - |t|, lvl)
  {
  }

  /** A new element at the front of a list whose other records have not been moved. */
  lemma StaleFirst(elem: Elems, t: string, id: nat, s: string, n: Content, e: string, r: Content, d: int, off: int, lvl: int)
    requires Ids(n) == {} && id < |elem| && Placed(elem[id], Elem("", id, s, n, e, End("")), off + |t|, lvl)
    requires Offsets(elem, r, off + |t| + |s| + Len(n) + |e| - d, lvl)
    ensures Stale(elem, Elem(t, id, s, n, e, r), id, d, off, lvl)
  {
    NoOffsets(elem, n, off + |t| + |s| - d, lvl + 1);
  }

  lemma SetTextStale(elem: Elems, k: Content, t: string, u: string, id: nat, s: string, n: Content, e: string, off: int, lvl: int)
    requires Offsets(elem, k, off, lvl) && Ids(n) == {} && id < |elem| && |t| + |u| == |k.text| + |EOL|
    requires Placed(elem[id], Elem("", id, s, n, e, End("")), off + |t|, lvl)
    ensures Stale(elem, Elem(t, id, s, n, e, SetText(k, u)), id, |s| + Len(n) + |e| + |EOL|, off, lvl)
  {
    hide Stale, Placed;
    SetTextOffsets(elem, k, u, off, lvl);
    StaleFirst(elem, t, id, s, n, e, SetText(k, u), |s| + Len(n) + |e| + |EOL|, off, lvl);
  }

  lemma InsertHeadStale(elem: Elems, k: Content, id: nat, s: string, n: Content, e: string, off: int, lvl: int)
    requires Offsets(elem, k, off, lvl) && id !in Ids(k) && Ids(n) == {} && id < |elem|
    requires Placed(elem[id], Elem("", id, s, n, e, End("")), off + InsertOffset(k, Head), lvl)
    ensures Stale(elem, InsertHead(k, id, s, n, e), id, |s| + Len(n) + |e| + |EOL|, off, lvl)
  {
    hide Stale, Placed, Offsets, SetText, AllWhite, Ids, Len;
    HeadIs(k, id, s, n, e);
    if AllWhite(k.text) {
      SetTextStale(elem, k, k.text, EOL, id, s, n, e, off, lvl);
    } else {
      SetTextStale(elem, k, "", EOL + k.text, id, s, n, e, off, lvl);
    }
  }

  lemma HeadIs(k: Content, id: nat, s: string, n: Content, e: string)
    ensures AllWhite(k.text) ==> InsertHead(k, id, s, n, e) == Elem(k.text, id, s, n, e, SetText(k, EOL)) && InsertOffset(k, Head) == |k.text|
    ensures !AllWhite(k.text) ==> InsertHead(k, id, s, n, e) == Elem("", id, s, n, e, SetText(k, EOL + k.text)) && InsertOffset(k, Head) == 0
    ensures |EOL + k.text| == |k.text| + |EOL| && |""| == 0
  {
  }

  lemma InsertFrontStale(elem: Elems, k: Content, id: nat, s: string, n: Content, e: string, off: int, lvl: int)
    requires k.Elem? && Offsets(elem, k, off, lvl) && id !in Ids(k) && Ids(n) == {} && id < |elem|
    requires Placed(elem[id], Elem("", id, s, n, e, End("")), off + |k.text|, lvl)
    ensures Stale(elem, Elem(k.text, id, s, n, e, SetText(k, EOL)), id, |s| + Len(n) + |e| + |EOL|, off, lvl)
  {
    hide Stale, Placed;
    SetTextOffsets(elem, k, EOL, off, lvl);
    StaleFirst(elem, k.text, id, s, n, e, SetText(k, EOL), |s| + Len(n) + |e| + |EOL|, off, lvl);
  }

  lemma InsertEndStale(elem: Elems, t: string, u: string, id: nat, s: string, n: Content, e: string, d: int, off: int, lvl: int)
    requires Ids(n) == {} && id < |elem| && Placed(elem[id], Elem("", id, s, n, e, End("")), off + |t|, lvl)
    ensures Stale(elem, Elem(t, id, s, n, e, End(u)), id, d, off, lvl)
  {
    hide Stale, Placed;
    StaleFirst(elem, t, id, s, n, e, End(u), d, off, lvl);
  }

  /** The records of a list and of the element put into it: stale in the sense above. */
  lemma {:induction false} InsertStale(elem: Elems, k: Content, w: Where, id: nat, s: string, n: Content, e: string, off: int, lvl: int)
    requires CanInsert(k, w) && Offsets(elem, k, off, lvl) && id !in Ids(k) && Ids(n) == {} && id < |elem|
    requires Placed(elem[id], Elem("", id, s, n, e, End("")), off + InsertOffset(k, w), lvl)
    ensures Stale(elem, Insert(k, w, id, s, n, e), id, |s| + Len(n) + |e| + (if w.Only? then 2 else 1) * |EOL|, off, lvl)
    decreases k
  {
    hide Placed, Stale, InsertHead;
    if w.Only? {
      InsertEndStale(elem, EOL, EOL, id, s, n, e, |s| + Len(n) + |e| + 2 * |EOL|, off, lvl);
    } else if w.Head? {
      InsertHeadStale(elem, k, id, s, n, e, off, lvl);
    } else if w.InFront? && k.Elem? && k.id == w.rel {
      InsertFrontStale(elem, k, id, s, n, e, off, lvl);
    } else if k.End? {
      InsertEndStale(elem, k.text, EOL, id, s, n, e, |s| + Len(n) + |e| + |EOL|, off, lvl);
    } else {
      InsertRest(k, w, id, s, n, e);
      var w' := if w.Behind? && k.Elem? && k.id == w.rel then Head else w;
      InsertStale(elem, k.rest, w', id, s, n, e, off + |First(k)|, lvl);
      StaleRest(elem, k, Insert(k.rest, w', id, s, n, e), id, |s| + Len(n) + |e| + |EOL|, off, lvl);
    }
  }

  lemma StaleRest(elem: Elems, k: Content, r: Content, t: nat, s: int, off: int, lvl: int)
    requires !k.End? && Offsets(elem, k, off, lvl) && t !in Ids(k) && Stale(elem, r, t, s, off + |First(k)|, lvl)
    ensures Stale(elem, Replace(k, r), t, s, off, lvl)
  {
  }

  lemma {:induction false} NoOffsets(elem: Elems, c: Content, off: int, lvl: int)
    requires Ids(c) == {}
    ensures Offsets(elem, c, off, lvl)
  {
    match c
    case End(_) =>
    case Mark(t, m, r) => NoOffsets(elem, r, off + |t| + |m|, lvl);
    case Elem(_, _, _, _, _, _) =>
  }

  // ---- Offsets below an element of the tree ----

  /** How much longer element `p` becomes. */
  function Growth(c: Content, p: nat, s: string, k: Content, e: string): int {
    var n := Subtree(c, p);
    if n.Elem? then |s| + Len(k) + |e| - |n.stag| - Len(n.kids) - |n.etag| else 0
  }

  lemma {:induction false} LenWith(c: Content, p: nat, s: string, k: Content, e: string)
    requires p in Ids(c)
    ensures Len(With(c, p, s, k, e)) == Len(c) + Growth(c, p, s, k, e)
  {
    match c
    case Mark(_, _, r) => LenWith(r, p, s, k, e);
    case Elem(_, i, _, k0, _, r) =>
      if i != p {
        if p in Ids(k0) { LenWith(k0, p, s, k, e); } else { LenWith(r, p, s, k, e); }
      }
  }

  /** The record of `p` has the lengths of its new tags but not yet its new length. */
  predicate Retagged(a: ElemPos, b: ElemPos, s: string, e: string) {
    && b.nStart == a.nStart && b.startTagLen == |s| && b.endTagLen == |e|
    && b.level == a.level && !b.nonEnded && !b.deleted
  }

  /** The records around `t` and after it, when the list below `p` with `t` in it is stale. */
  ghost predicate StaleBelow(a: Elems, b: Elems, c: Content, p: nat, s: string, k: Content, e: string, t: nat, d: int, off: int, lvl: int)
  {
    && Offsets(a, c, off, lvl) && Distinct(c) && p in Ids(c) && t !in Ids(c) && t in Ids(k) && d == Growth(c, p, s, k, e)
    && KeepsPlaces(a, b, Ids(c) - {p}, 0) && p < |a| && Retagged(a[p], b[p], s, e) && b[p].nLength == a[p].nLength
    && Stale(b, k, t, d, off + |Before(c, p)| + |s|, LevelOf(c, p, lvl) + 1)
  }

  lemma {:induction false} WithHas(c: Content, p: nat, s: string, k: Content, e: string, t: nat)
    requires p in Ids(c) && t in Ids(k)
    ensures t in Ids(With(c, p, s, k, e))
  {
    match c
    case Mark(_, _, r) => WithHas(r, p, s, k, e, t);
    case Elem(_, i, _, k0, _, r) =>
      if i != p {
        if p in Ids(k0) { WithHas(k0, p, s, k, e, t); } else { WithHas(r, p, s, k, e, t); }
      }
  }

  lemma StaleAtParent(a: Elems, b: Elems, c: Content, s: string, k: Content, e: string, t: nat, d: int, off: int, lvl: int)
    requires c.Elem? && StaleBelow(a, b, c, c.id, s, k, e, t, d, off, lvl)
    ensures Stale(b, Elem(c.text, c.id, s, k, e, c.rest), t, d, off, lvl)
  {
    hide Stale;
    var ro := off + |c.text| + |c.stag| + Len(c.kids) + |c.etag|;
    OffsetsMove(a, b, c.rest, ro, lvl, 0);
    StaleKids(b, Elem(c.text, c.id, s, k, e, c.rest), t, d, off, lvl);
  }

  lemma StaleKids(b: Elems, c: Content, t: nat, d: int, off: int, lvl: int)
    requires c.Elem? && c.id < |b| && t != c.id && t in Ids(c.kids) && Placed(Moved(b[c.id], 0, d), c, off, lvl)
    requires Stale(b, c.kids, t, d, off + |c.text| + |c.stag|, lvl + 1)
    requires Offsets(b, c.rest, off + |c.text| + |c.stag| + Len(c.kids) + |c.etag| - d, lvl)
    ensures Stale(b, c, t, d, off, lvl)
  {
  }

  lemma StaleNext(b: Elems, c: Content, t: nat, d: int, off: int, lvl: int)
    requires c.Elem? && c.id < |b| && t != c.id && t !in Ids(c.kids) && Placed(b[c.id], c, off, lvl)
    requires Offsets(b, c.kids, off + |c.text| + |c.stag|, lvl + 1)
    requires Stale(b, c.rest, t, d, off + |c.text| + |c.stag| + Len(c.kids) + |c.etag|, lvl)
    ensures Stale(b, c, t, d, off, lvl)
  {
  }

  /** Where `p` lies, in the parts of a list. */
  datatype Side = Here | Inside | Later

  function SideOf(c: Content, p: nat): Side
    requires c.Elem?
  {
    if c.id == p then Here else if p in Ids(c.kids) then Inside else Later
  }

  /** The parts of a list whose records keep their places but for that of `p`, which is not the first element. */
  lemma PartsKept(a: Elems, b: Elems, c: Content, p: nat, off: int, lvl: int)
    requires c.Elem? && c.id != p && p in Ids(c) && Offsets(a, c, off, lvl) && Distinct(c) && KeepsPlaces(a, b, Ids(c) - {p}, 0)
    ensures c.id < |b| && c.id < |a| && Placed(a[c.id], c, off, lvl) && SamePlace(a[c.id], b[c.id], 0) && Distinct(c.kids) && Distinct(c.rest)
    ensures p in Ids(c.kids) ==>
              && Offsets(a, c.kids, off + |c.text| + |c.stag|, lvl + 1) && KeepsPlaces(a, b, Ids(c.kids) - {p}, 0)
              && Offsets(b, c.rest, off + |c.text| + |c.stag| + Len(c.kids) + |c.etag|, lvl)
    ensures p !in Ids(c.kids) ==>
              && p in Ids(c.rest) && KeepsPlaces(a, b, Ids(c.rest) - {p}, 0) && Offsets(b, c.kids, off + |c.text| + |c.stag|, lvl + 1)
              && Offsets(a, c.rest, off + |c.text| + |c.stag| + Len(c.kids) + |c.etag|, lvl)
  {
    hide Placed, SamePlace;
    assert c.id in Ids(c) - {p};
    if p in Ids(c.kids) {
      OffsetsMove(a, b, c.rest, off + |c.text| + |c.stag| + Len(c.kids) + |c.etag|, lvl, 0);
    } else {
      OffsetsMove(a, b, c.kids, off + |c.text| + |c.stag|, lvl + 1, 0);
    }
  }

  lemma BeforeParts(c: Content, p: nat, lvl: int)
    requires c.Elem? && c.id != p
    ensures p in Ids(c.kids) ==> |Before(c, p)| == |c.text| + |c.stag| + |Before(c.kids, p)| && LevelOf(c, p, lvl) == LevelOf(c.kids, p, lvl + 1)
    ensures p !in Ids(c.kids) ==>
              && LevelOf(c, p, lvl) == LevelOf(c.rest, p, lvl)
              && |Before(c, p)| == |c.text| + |c.stag| + Len(c.kids) + |c.etag| + |Before(c.rest, p)|
  {
  }

  lemma BelowMark(a: Elems, b: Elems, c: Content, p: nat, s: string, k: Content, e: string, t: nat, d: int, off: int, lvl: int)
    requires c.Mark? && StaleBelow(a, b, c, p, s, k, e, t, d, off, lvl)
    ensures StaleBelow(a, b, c.rest, p, s, k, e, t, d, off + |c.text| + |c.mark|, lvl)
  {
  }

  lemma BelowInside(a: Elems, b: Elems, c: Content, p: nat, s: string, k: Content, e: string, t: nat, d: int, off: int, lvl: int)
    requires c.Elem? && SideOf(c, p).Inside? && StaleBelow(a, b, c, p, s, k, e, t, d, off, lvl)
    ensures StaleBelow(a, b, c.kids, p, s, k, e, t, d, off + |c.text| + |c.stag|, lvl + 1)
    ensures c.id < |b| && t != c.id && c.id < |a| && Placed(a[c.id], c, off, lvl) && SamePlace(a[c.id], b[c.id], 0)
    ensures Offsets(b, c.rest, off + |c.text| + |c.stag| + Len(c.kids) + |c.etag|, lvl)
  {
    hide Stale, Placed, SamePlace, Offsets, Before, LevelOf, Growth, KeepsPlaces, Distinct, Retagged;
    PartsKept(a, b, c, p, off, lvl);
    BeforeParts(c, p, lvl);
    GrowthRest(c, p, s, k, e);
  }

  lemma BelowLater(a: Elems, b: Elems, c: Content, p: nat, s: string, k: Content, e: string, t: nat, d: int, off: int, lvl: int)
    requires c.Elem? && SideOf(c, p).Later? && StaleBelow(a, b, c, p, s, k, e, t, d, off, lvl)
    ensures StaleBelow(a, b, c.rest, p, s, k, e, t, d, off + |c.text| + |c.stag| + Len(c.kids) + |c.etag|, lvl)
    ensures c.id < |b| && t != c.id && t !in Ids(c.kids) && c.id < |a| && Placed(a[c.id], c, off, lvl) && SamePlace(a[c.id], b[c.id], 0)
    ensures Offsets(b, c.kids, off + |c.text| + |c.stag|, lvl + 1)
  {
    hide Stale, Placed, SamePlace, Offsets, Before, LevelOf, Growth, KeepsPlaces, Distinct, Retagged;
    PartsKept(a, b, c, p, off, lvl);
    BeforeParts(c, p, lvl);
    GrowthRest(c, p, s, k, e);
  }

  lemma {:induction false} StaleWith(a: Elems, b: Elems, c: Content, p: nat, s: string, k: Content, e: string, t: nat, d: int, off: int, lvl: int)
    requires StaleBelow(a, b, c, p, s, k, e, t, d, off, lvl) && p in Ids(c) && t in Ids(k) && d == Growth(c, p, s, k, e)
    ensures Stale(b, With(c, p, s, k, e), t, d, off, lvl)
    decreases c
  {
    hide Stale, StaleBelow, Offsets, Growth;
    match c
    case Mark(x, m, r) =>
      BelowMark(a, b, c, p, s, k, e, t, d, off, lvl);
      GrowthRest(c, p, s, k, e);
      StaleWith(a, b, r, p, s, k, e, t, d, off + |x| + |m|, lvl);
      StaleMark(b, With(c, p, s, k, e), t, d, off, lvl);
    case Elem(x, i, st, k0, e0, r) =>
      var ko, ro := off + |x| + |st|, off + |x| + |st| + Len(k0) + |e0|;
      GrowthRest(c, p, s, k, e);
      if i == p {
        StaleAtParent(a, b, c, s, k, e, t, d, off, lvl);
      } else if p in Ids(k0) {
        BelowInside(a, b, c, p, s, k, e, t, d, off, lvl);
        StaleWith(a, b, k0, p, s, k, e, t, d, ko, lvl + 1);
        WithHas(k0, p, s, k, e, t);
        LenWith(k0, p, s, k, e);
        StaleKids(b, Elem(x, i, st, With(k0, p, s, k, e), e0, r), t, d, off, lvl);
      } else {
        BelowLater(a, b, c, p, s, k, e, t, d, off, lvl);
        StaleWith(a, b, r, p, s, k, e, t, d, ro, lvl);
        StaleNext(b, Elem(x, i, st, k0, e0, With(r, p, s, k, e)), t, d, off, lvl);
      }
  }

  lemma GrowthRest(c: Content, p: nat, s: string, k: Content, e: string)
    requires !c.End?
    ensures c.Mark? ==> Growth(c, p, s, k, e) == Growth(c.rest, p, s, k, e)
    ensures c.Elem? && c.id != p ==>
              Growth(c, p, s, k, e) == if p in Ids(c.kids) then Growth(c.kids, p, s, k, e) else Growth(c.rest, p, s, k, e)
  {
  }

  lemma StaleMark(b: Elems, c: Content, t: nat, d: int, off: int, lvl: int)
    requires c.Mark? && Stale(b, c.rest, t, d, off + |c.text| + |c.mark|, lvl)
    ensures Stale(b, c, t, d, off, lvl)
  {
  }

  /** The records when element `t` itself changed its tags and content, but nothing has been moved. */
  ghost predicate StaleSelf(a: Elems, b: Elems, c: Content, t: nat, s: string, k: Content, e: string, d: int, off: int, lvl: int)
  {
    && Offsets(a, c, off, lvl) && Distinct(c) && t in Ids(c) && d == Growth(c, t, s, k, e)
    && KeepsPlaces(a, b, Ids(c) - {t}, 0) && t < |a| && Retagged(a[t], b[t], s, e) && b[t].nLength == a[t].nLength + d
    && Offsets(b, k, off + |Before(c, t)| + |s| - d, LevelOf(c, t, lvl) + 1)
  }

  lemma SelfMark(a: Elems, b: Elems, c: Content, t: nat, s: string, k: Content, e: string, d: int, off: int, lvl: int)
    requires c.Mark? && StaleSelf(a, b, c, t, s, k, e, d, off, lvl)
    ensures StaleSelf(a, b, c.rest, t, s, k, e, d, off + |c.text| + |c.mark|, lvl)
  {
  }

  lemma SelfHere(a: Elems, b: Elems, c: Content, s: string, k: Content, e: string, d: int, off: int, lvl: int)
    requires c.Elem? && StaleSelf(a, b, c, c.id, s, k, e, d, off, lvl)
    ensures Stale(b, Elem(c.text, c.id, s, k, e, c.rest), c.id, d, off, lvl)
  {
    hide Stale;
    OffsetsMove(a, b, c.rest, off + |c.text| + |c.stag| + Len(c.kids) + |c.etag|, lvl, 0);
    StaleHere(b, Elem(c.text, c.id, s, k, e, c.rest), d, off, lvl);
  }

  lemma SelfInside(a: Elems, b: Elems, c: Content, t: nat, s: string, k: Content, e: string, d: int, off: int, lvl: int)
    requires c.Elem? && SideOf(c, t).Inside? && StaleSelf(a, b, c, t, s, k, e, d, off, lvl)
    ensures StaleSelf(a, b, c.kids, t, s, k, e, d, off + |c.text| + |c.stag|, lvl + 1)
    ensures c.id < |b| && t != c.id && c.id < |a| && Placed(a[c.id], c, off, lvl) && SamePlace(a[c.id], b[c.id], 0)
    ensures Offsets(b, c.rest, off + |c.text| + |c.stag| + Len(c.kids) + |c.etag|, lvl)
  {
    hide Placed, SamePlace, Offsets, Before, LevelOf, Growth, KeepsPlaces, Distinct, Retagged;
    PartsKept(a, b, c, t, off, lvl);
    BeforeParts(c, t, lvl);
    GrowthRest(c, t, s, k, e);
  }

  lemma SelfLater(a: Elems, b: Elems, c: Content, t: nat, s: string, k: Content, e: string, d: int, off: int, lvl: int)
    requires c.Elem? && SideOf(c, t).Later? && StaleSelf(a, b, c, t, s, k, e, d, off, lvl)
    ensures StaleSelf(a, b, c.rest, t, s, k, e, d, off + |c.text| + |c.stag| + Len(c.kids) + |c.etag|, lvl)
    ensures c.id < |b| && t != c.id && t !in Ids(c.kids) && c.id < |a| && Placed(a[c.id], c, off, lvl) && SamePlace(a[c.id], b[c.id], 0)
    ensures Offsets(b, c.kids, off + |c.text| + |c.stag|, lvl + 1)
  {
    hide Placed, SamePlace, Offsets, Before, LevelOf, Growth, KeepsPlaces, Distinct, Retagged;
    PartsKept(a, b, c, t, off, lvl);
    BeforeParts(c, t, lvl);
    GrowthRest(c, t, s, k, e);
  }

  lemma {:induction false} StaleTarget(a: Elems, b: Elems, c: Content, t: nat, s: string, k: Content, e: string, d: int, off: int, lvl: int)
    requires StaleSelf(a, b, c, t, s, k, e, d, off, lvl) && t in Ids(c) && d == Growth(c, t, s, k, e)
    ensures Stale(b, With(c, t, s, k, e), t, d, off, lvl)
    decreases c
  {
    hide Stale, StaleSelf, Offsets, Growth;
    match c
    case Mark(x, m, r) =>
      SelfMark(a, b, c, t, s, k, e, d, off, lvl);
      GrowthRest(c, t, s, k, e);
      StaleTarget(a, b, r, t, s, k, e, d, off + |x| + |m|, lvl);
      StaleMark(b, With(c, t, s, k, e), t, d, off, lvl);
    case Elem(x, i, st, k0, e0, r) =>
      GrowthRest(c, t, s, k, e);
      if i == t {
        SelfHere(a, b, c, s, k, e, d, off, lvl);
      } else if t in Ids(k0) {
        SelfInside(a, b, c, t, s, k, e, d, off, lvl);
        StaleTarget(a, b, k0, t, s, k, e, d, off + |x| + |st|, lvl + 1);
        WithKeeps(k0, t, s, k, e);
        LenWith(k0, t, s, k, e);
        StaleKids(b, Elem(x, i, st, With(k0, t, s, k, e), e0, r), t, d, off, lvl);
      } else {
        SelfLater(a, b, c, t, s, k, e, d, off, lvl);
        StaleTarget(a, b, r, t, s, k, e, d, off + |x| + |st| + Len(k0) + |e0|, lvl);
        StaleNext(b, Elem(x, i, st, k0, e0, With(r, t, s, k, e)), t, d, off, lvl);
      }
  }

  lemma StaleHere(b: Elems, c: Content, d: int, off: int, lvl: int)
    requires c.Elem? && c.id < |b| && Placed(b[c.id], c, off, lvl)
    requires Offsets(b, c.kids, off + |c.text| + |c.stag| - d, lvl + 1)
    requires Offsets(b, c.rest, off + |c.text| + |c.stag| + Len(c.kids) + |c.etag| - d, lvl)
    ensures Stale(b, c, c.id, d, off, lvl)
  {
  }

  lemma {:induction false} WithKeeps(c: Content, p: nat, s: string, k: Content, e: string)
    requires p in Ids(c)
    ensures p in Ids(With(c, p, s, k, e))
  {
    match c
    case Mark(_, _, r) => WithKeeps(r, p, s, k, e);
    case Elem(_, i, _, k0, _, r) =>
      if i != p {
        if p in Ids(k0) { WithKeeps(k0, p, s, k, e); } else { WithKeeps(r, p, s, k, e); }
      }
  }

  /** `x_RemoveElem` of a child of `p`. */
  lemma {:induction false} AdjustRemovesBelow(a: Elems, b: Elems, c: Content, p: nat, t: nat, s: int, off: int, lvl: int)
    requires Offsets(a, c, off, lvl) && Distinct(c) && p in Ids(c) && t in Top(Subtree(c, p).kids)
    requires Adjusts(a, b, c, t, s, true) && s == Len(Remove(Subtree(c, p).kids, t)) - Len(Subtree(c, p).kids)
    ensures Offsets(b, With(c, p, Subtree(c, p).stag, Remove(Subtree(c, p).kids, t), Subtree(c, p).etag), off, lvl)
    decreases c
  {
    hide Placed, Adjusts, Stale, Remove, Len, Distinct;
    SubtreeIds(c, p);
    TopSeqFacts(Subtree(c, p).kids);
    var n := Subtree(c, p);
    match c
    case Mark(x, m, r) =>
      RemovesMark(a, b, c, t, s, off, lvl);
      AdjustRemovesBelow(a, b, r, p, t, s, off + |x| + |m|, lvl);
    case Elem(x, i, st, k, e, r) =>
      DistinctParts(c);
      if i == p {
        RemovesInside(a, b, c, p, t, s, Remove(k, t), off, lvl);
        AdjustRemoves(a, b, k, t, s, off + |x| + |st|, lvl + 1);
      } else if p in Ids(k) {
        SubtreeIds(k, p);
        LenWith(k, p, n.stag, Remove(n.kids, t), n.etag);
        RemovesInside(a, b, c, p, t, s, With(k, p, n.stag, Remove(n.kids, t), n.etag), off, lvl);
        AdjustRemovesBelow(a, b, k, p, t, s, off + |x| + |st|, lvl + 1);
      } else {
        SubtreeIds(r, p);
        RemovesBehind(a, b, c, t, s, With(r, p, n.stag, Remove(n.kids, t), n.etag), off, lvl);
        AdjustRemovesBelow(a, b, r, p, t, s, off + |x| + |st| + Len(k) + |e|, lvl);
      }
  }

  lemma DistinctParts(c: Content)
    requires c.Elem? && Distinct(c)
    ensures Distinct(c.kids) && Distinct(c.rest) && c.id !in Ids(c.kids) && Ids(c.kids) !! Ids(c.rest) && c.id !in Ids(c.rest)
  {
  }

  lemma RemovesMark(a: Elems, b: Elems, c: Content, t: nat, s: int, off: int, lvl: int)
    requires c.Mark? && Adjusts(a, b, c, t, s, true) && Distinct(c)
    ensures Adjusts(a, b, c.rest, t, s, true) && Distinct(c.rest)
  {
    AdjustsRest(a, b, c, t, s);
  }

  lemma RemovesInside(a: Elems, b: Elems, c: Content, p: nat, t: nat, s: int, k: Content, off: int, lvl: int)
    requires c.Elem? && t != c.id && t in Ids(c.kids) && Offsets(a, c, off, lvl) && Distinct(c) && Adjusts(a, b, c, t, s, true)
    requires s == Len(k) - Len(c.kids)
    ensures Adjusts(a, b, c.kids, t, s, true)
    ensures Offsets(b, k, off + |c.text| + |c.stag|, lvl + 1) ==> Offsets(b, Elem(c.text, c.id, c.stag, k, c.etag, c.rest), off, lvl)
  {
    hide Placed, Adjusts;
    AdjustsKids(a, b, c, t, s, off, lvl);
    PlacedMoved(a[c.id], b[c.id], c, k, s, off, lvl);
  }

  lemma RemovesBehind(a: Elems, b: Elems, c: Content, t: nat, s: int, r: Content, off: int, lvl: int)
    requires c.Elem? && t != c.id && t in Ids(c.rest) && Offsets(a, c, off, lvl) && Distinct(c) && Adjusts(a, b, c, t, s, true)
    ensures Adjusts(a, b, c.rest, t, s, true)
    ensures Offsets(b, r, off + |c.text| + |c.stag| + Len(c.kids) + |c.etag|, lvl) ==>
              Offsets(b, Elem(c.text, c.id, c.stag, c.kids, c.etag, r), off, lvl)
  {
    hide Placed, Adjusts;
    AdjustsNext(a, b, c, t, s, off, lvl);
    PlacedRest(b[c.id], c, r, off, lvl);
  }

  lemma PlacedMoved(a: ElemPos, b: ElemPos, c: Content, k: Content, s: int, off: int, lvl: int)
    requires c.Elem? && Placed(a, c, off, lvl) && b == Moved(a, 0, s) && s == Len(k) - Len(c.kids)
    ensures Placed(b, Elem(c.text, c.id, c.stag, k, c.etag, c.rest), off, lvl)
  {
  }

  lemma AdjustsKids(a: Elems, b: Elems, c: Content, t: nat, s: int, off: int, lvl: int)
    requires c.Elem? && t != c.id && t in Ids(c.kids) && Offsets(a, c, off, lvl) && Distinct(c) && Adjusts(a, b, c, t, s, true)
    ensures Adjusts(a, b, c.kids, t, s, true) && c.id < |a| == |b| && b[c.id] == Moved(a[c.id], 0, s)
    ensures Offsets(b, c.rest, off + |c.text| + |c.stag| + Len(c.kids) + |c.etag| + s, lvl)
  {
    AroundFollowing(c, t, true);
    AroundFollowing(c.kids, t, true);
    assert c.id in Ids(c);
    OffsetsMove(a, b, c.rest, off + |c.text| + |c.stag| + Len(c.kids) + |c.etag|, lvl, s);
  }

  lemma AdjustsNext(a: Elems, b: Elems, c: Content, t: nat, s: int, off: int, lvl: int)
    requires c.Elem? && t != c.id && t in Ids(c.rest) && Offsets(a, c, off, lvl) && Distinct(c) && Adjusts(a, b, c, t, s, true)
    ensures Adjusts(a, b, c.rest, t, s, true) && c.id < |a| == |b| && b[c.id] == a[c.id]
    ensures Offsets(b, c.kids, off + |c.text| + |c.stag|, lvl + 1)
  {
    AroundFollowing(c, t, true);
    AroundFollowing(c.rest, t, true);
    assert c.id in Ids(c) && b[c.id] == Moved(a[c.id], 0, 0) == a[c.id];
    OffsetsMove(a, b, c.kids, off + |c.text| + |c.stag|, lvl + 1, 0);
  }
}
