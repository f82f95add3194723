/** `x_InsertNew` and `x_AddElem` as an edit of the content, and why the index stays in step. */
module AddElem {
  import opened Chars
  import opened Content
  import opened Index
  import opened Edit
  import opened Links
  import opened Effect
  import opened Represent
  import opened Position
  import opened Cursor
  import opened Tags

  /** The start tag of an element that is given content: `<a/>` is split, other tags stay. */
  function Opened(n: Content): (s: string)
    requires n.Elem?
    ensures 2 <= |n.stag| ==> |s| == |n.stag| - (if n.etag == "" then 1 else 0)
  {
    if n.etag == "" && 2 <= |n.stag| then SplitTag(n.stag) else n.stag
  }

  /** The end tag of an element that is given content. */
  function Closed(n: Content): string
    requires n.Elem?
  {
    if n.etag == "" then "</" + WordOf(n.stag) + ">" else n.etag
  }

  /** The name `x_GetTagName` finds in a start tag. */
  function WordOf(stag: string): string {
    if stag == "" then "" else NameFrom(stag, 1)
  }

  /** Where the new element goes below `p`: next to `rel`, or at one end of the list. */
  function WhereFor(c: Content, p: nat, rel: nat, insert: bool): Where {
    if rel != 0 then (if insert then InFront(rel) else Behind(rel))
    else if p != 0 && Below(c, p) == End("") then Only
    else if insert then Head
    else Last
  }

  /** The document with the new element in it. */
  function Added(c: Content, p: nat, w: Where, id: nat, s: string, n: Content, e: string): Content {
    if p != 0 && p in Ids(c) then
      var x := Subtree(c, p);
      With(c, p, Opened(x), Insert(x.kids, w, id, s, n, e), Closed(x))
    else
      Insert(c, w, id, s, n, e)
  }

  /** What `x_AddElem` is called with: a place in the list below `p` and an element without
      children, in a fresh slot. */
  predicate CanAdd(c: Content, p: nat, w: Where, id: nat, s: string, n: Content, e: string) {
    && Shape(c) && Distinct(c) && IsParent(c, p) && CanInsert(Below(c, p), w)
    && (w.Only? <==> p != 0 && Below(c, p) == End(""))
    && ShapedTags(s, n, e) && Shape(n) && Ids(n) == {} && id != 0 && id !in Ids(c)
  }

  // ---- Shape and slots ----

  lemma ShapeSetText(k: Content, t: string)
    requires Shape(k) && NoLt(t)
    ensures Shape(SetText(k, t))
  {
  }

  lemma {:induction false} ShapeInsert(k: Content, w: Where, id: nat, s: string, n: Content, e: string)
    requires Shape(k) && ShapedTags(s, n, e) && Shape(n)
    ensures Shape(Insert(k, w, id, s, n, e))
    decreases k
  {
    hide ShapedTags, NoLt;
    assert NoLt(EOL) && NoLt("") by { EolFacts(); }
    NoLtConcat(EOL, k.text);
    ShapeSetText(k, EOL);
    ShapeSetText(k, EOL + k.text);
    match w
    case Only =>
    case Head =>
    case Last =>
      match k {
        case End(_) =>
        case Mark(_, _, r) => ShapeInsert(r, w, id, s, n, e);
        case Elem(_, _, _, _, _, r) => ShapeInsert(r, w, id, s, n, e);
      }
    case Behind(rel) =>
      match k {
        case End(_) =>
        case Mark(_, _, r) => ShapeInsert(r, w, id, s, n, e);
        case Elem(_, i, _, _, _, r) => ShapeInsert(r, if i == rel then Head else w, id, s, n, e);
      }
    case InFront(rel) =>
      match k {
        case End(_) =>
        case Mark(_, _, r) => ShapeInsert(r, w, id, s, n, e);
        case Elem(_, i, _, _, _, r) => if i != rel { ShapeInsert(r, w, id, s, n, e); }
      }
  }

  lemma EolFacts()
    ensures NoLt(EOL) && NoLt("") && |EOL| == 2 && AllWhite(EOL)
  {
  }

  lemma SplitShape(n: Content, k: Content)
    requires n.Elem? && ShapedTags(n.stag, n.kids, n.etag)
    ensures ShapedTags(Opened(n), k, Closed(n)) && Closed(n) != ""
  {
  }

  lemma AddedShape(c: Content, p: nat, w: Where, id: nat, s: string, n: Content, e: string)
    requires CanAdd(c, p, w, id, s, n, e)
    ensures Shape(Added(c, p, w, id, s, n, e))
  {
    hide ShapedTags, Insert, Opened, Closed;
    if p != 0 {
      var x := Subtree(c, p);
      SubtreeShape(c, p);
      ShapeInsert(x.kids, w, id, s, n, e);
      SplitShape(x, Insert(x.kids, w, id, s, n, e));
      ShapeWith(c, p, Opened(x), Insert(x.kids, w, id, s, n, e), Closed(x));
    } else {
      NoZero(c);
      ShapeInsert(c, w, id, s, n, e);
    }
  }

  lemma SlotSets(all: set<nat>, kids: set<nat>, id: nat)
    requires kids <= all && id !in all
    ensures (kids + {id}) !! (all - kids) && (all - kids) + (kids + {id}) == all + {id}
  {
  }

  /** The new slot is the only one that is new, and it has its place in the list below `p`. */
  lemma AddedSlots(c: Content, p: nat, w: Where, id: nat, s: string, n: Content, e: string)
    requires CanAdd(c, p, w, id, s, n, e)
    ensures var c' := Added(c, p, w, id, s, n, e); Distinct(c') && Ids(c') == Ids(c) + {id}
    ensures Inserted(Below(c, p), Insert(Below(c, p), w, id, s, n, e), id, PlaceOf(Below(c, p), w))
  {
    NoZero(c);
    NoIds(n);
    var k := Below(c, p);
    hide Insert, Opened, Closed, Shape, ShapedTags, CanInsert, PlaceOf, Distinct, Ids;
    if p != 0 {
      SubtreeIds(c, p);
      DistinctKids(c, p);
      InsertSlots(k, w, id, s, n, e);
      SlotSets(Ids(c), Ids(k), id);
      WithSlots(c, p, Opened(Subtree(c, p)), Insert(k, w, id, s, n, e), Closed(Subtree(c, p)));
    } else {
      InsertSlots(c, w, id, s, n, e);
    }
  }

  lemma DistinctKids(c: Content, p: nat)
    requires Distinct(c) && p in Ids(c)
    ensures var k := Subtree(c, p).kids; Distinct(k) && Ids(k) <= Ids(c)
  {
    SubtreeIds(c, p);
  }

  lemma {:induction false} NoIds(n: Content)
    requires Ids(n) == {}
    ensures Distinct(n) && TopSeq(n) == [] && forall elem: Elems :: Deep(elem, n)
  {
    match n
    case End(_) =>
    case Mark(_, _, r) => NoIds(r);
    case Elem(_, _, _, _, _, _) =>
  }

  // ---- The records before x_Adjust ----

  /** The records after the new element is written and linked in: the parent has its new tags, the
      children their new sibling links, and the new element is where it belongs. */
  ghost predicate Entered(a: Elems, b: Elems, c: Content, p: nat, w: Where, id: nat, s: string, n: Content, e: string) {
    && |a| == |b| && p < |a| && id < |a|
    && (forall i :: 0 <= i < |a| && i != p && i != id && i !in Top(Below(c, p)) ==> b[i] == a[i])
    && (forall i :: 0 <= i < |a| && i in Top(Below(c, p)) ==> SiblingLinksOnly(a[i], b[i]))
    && EnteredParent(a[p], b[p], c, p)
    && PlaceOf(Below(c, p), w) <= |TopSeq(Below(c, p))|
    && ListOk(b, p, InsertAt(TopSeq(Below(c, p)), PlaceOf(Below(c, p), w), id))
    && b[id].child == 0 && Placed(b[id], Elem("", id, s, n, e, End("")), Opening(c, p) + InsertOffset(Below(c, p), w), ListLevel(c, p))
  }

  predicate EnteredParent(a: ElemPos, b: ElemPos, c: Content, p: nat) {
    b == if p != 0 && p in Ids(c)
         then a.(child := b.child, startTagLen := |Opened(Subtree(c, p))|, endTagLen := |Closed(Subtree(c, p))|)
         else a.(child := b.child)
  }

  /** Where the list below `p` begins once `p` has its new start tag. */
  function Opening(c: Content, p: nat): nat {
    if p != 0 && p in Ids(c) then |Before(c, p)| + |Opened(Subtree(c, p))| else 0
  }

  lemma EnteredKids(a: Elems, b: Elems, c: Content, p: nat, w: Where, id: nat, s: string, n: Content, e: string)
    requires CanAdd(c, p, w, id, s, n, e) && Entered(a, b, c, p, w, id, s, n, e) && Linked(a, c)
    ensures var k := Insert(Below(c, p), w, id, s, n, e); ListOk(b, p, TopSeq(k)) && Deep(b, k)
  {
    NoIds(n);
    hide Insert, Shape, ShapedTags, CanInsert, PlaceOf, Deep, ListOk, DistinctSlots, Inserted, EnteredParent;
    ListLinks(a, c, p);
    EnteredDeep(a, b, c, p, w, id, s, n, e);
    EnteredList(a, b, c, p, w, id, s, n, e);
    DeepInsert(b, Below(c, p), w, id, s, n, e);
  }

  lemma EnteredDeep(a: Elems, b: Elems, c: Content, p: nat, w: Where, id: nat, s: string, n: Content, e: string)
    requires CanAdd(c, p, w, id, s, n, e) && Entered(a, b, c, p, w, id, s, n, e)
    requires Deep(a, Below(c, p)) && Distinct(Below(c, p)) && p !in Ids(Below(c, p)) && Ids(Below(c, p)) <= Ids(c)
    ensures Deep(b, Below(c, p))
  {
    hide Insert, Shape, ShapedTags, CanInsert, PlaceOf, Deep, ListOk, EnteredParent, Placed, Below;
    TopSeqFacts(Below(c, p));
    DeepTop(a, b, Below(c, p));
  }

  lemma EnteredList(a: Elems, b: Elems, c: Content, p: nat, w: Where, id: nat, s: string, n: Content, e: string)
    requires CanAdd(c, p, w, id, s, n, e) && Entered(a, b, c, p, w, id, s, n, e)
    ensures ListOk(b, p, TopSeq(Insert(Below(c, p), w, id, s, n, e))) && ListOk(b, id, []) && 0 < b[id].startTagLen
  {
    hide Insert, Shape, CanInsert, PlaceOf, EnteredParent, Below, InsertOffset;
    AddedSlots(c, p, w, id, s, n, e);
  }

  lemma AddedLinked(a: Elems, b: Elems, c: Content, p: nat, w: Where, id: nat, s: string, n: Content, e: string)
    requires CanAdd(c, p, w, id, s, n, e) && Entered(a, b, c, p, w, id, s, n, e) && Linked(a, c)
    ensures Linked(b, Added(c, p, w, id, s, n, e))
  {
    hide Insert, Opened, Closed, Shape, CanInsert, PlaceOf;
    NoZero(c);
    EnteredKids(a, b, c, p, w, id, s, n, e);
    if p != 0 {
      var x := Subtree(c, p);
      var k := Insert(x.kids, w, id, s, n, e);
      SubtreeShape(c, p);
      KidsApart(c, p);
      TopSeqFacts(x.kids);
      TopSeqFacts(c);
      DeepWith(a, b, c, p, Opened(x), k, Closed(x));
      WithTop(c, p, Opened(x), k, Closed(x));
      ListFrame(a, b, 0, TopSeq(c));
    }
  }

  // ---- Offsets ----

  lemma OpeningIs(c: Content, p: nat)
    requires Shape(c) && IsParent(c, p)
    ensures Opening(c, p) == |Ahead(c, p)| - (if p != 0 && p in Ids(c) && Subtree(c, p).etag == "" then 1 else 0)
    ensures p != 0 && p in Ids(c) && Subtree(c, p).etag == "" ==> Below(c, p) == End("")
  {
    if p != 0 && p in Ids(c) {
      SubtreeShape(c, p);
    }
  }

  /** The list below `p`, with the new element in it, is stale. */
  lemma EnteredStale(doc: string, a: Elems, b: Elems, free: nat, c: Content, p: nat, w: Where, id: nat, s: string, n: Content, e: string, d: int)
    requires Represents(doc, a, free, c) && CanAdd(c, p, w, id, s, n, e) && Entered(a, b, c, p, w, id, s, n, e)
    requires w.Only? || d == |s| + Len(n) + |e| + |EOL|
    ensures Stale(b, Insert(Below(c, p), w, id, s, n, e), id, d, Opening(c, p), ListLevel(c, p))
  {
    hide Insert, Opened, Closed, Shape, ShapedTags, CanInsert, PlaceOf, Offsets, Placed, ListOk, EnteredParent, Linked, InsertOffset, Stale;
    OpeningIs(c, p);
    if w.Only? {
      OnlyIs(id, s, n, e);
      InsertEndStale(b, EOL, EOL, id, s, n, e, d, Opening(c, p), ListLevel(c, p));
    } else {
      ListRecord(doc, a, free, c, p);
      EnteredOffsets(a, b, c, p, w, id, s, n, e);
      InsertStale(b, Below(c, p), w, id, s, n, e, Opening(c, p), ListLevel(c, p));
    }
  }

  lemma OnlyIs(id: nat, s: string, n: Content, e: string)
    ensures Insert(End(""), Only, id, s, n, e) == Elem(EOL, id, s, n, e, End(EOL)) && InsertOffset(End(""), Only) == |EOL|
  {
  }

  lemma EnteredOffsets(a: Elems, b: Elems, c: Content, p: nat, w: Where, id: nat, s: string, n: Content, e: string)
    requires CanAdd(c, p, w, id, s, n, e) && Entered(a, b, c, p, w, id, s, n, e)
    requires Offsets(a, Below(c, p), |Ahead(c, p)|, ListLevel(c, p))
    ensures Offsets(b, Below(c, p), |Ahead(c, p)|, ListLevel(c, p)) && id !in Ids(Below(c, p))
  {
    hide Insert, Shape, ShapedTags, CanInsert, PlaceOf, ListOk, EnteredParent, Placed;
    TopSeqFacts(Below(c, p));
    BelowIds(c, p);
    OffsetsMove(a, b, Below(c, p), |Ahead(c, p)|, ListLevel(c, p), 0);
  }

  /** How much longer the document becomes. */
  lemma AddedLen(c: Content, p: nat, w: Where, id: nat, s: string, n: Content, e: string)
    requires CanAdd(c, p, w, id, s, n, e)
    ensures var k := Insert(Below(c, p), w, id, s, n, e);
            && Len(k) == Len(Below(c, p)) + |s| + Len(n) + |e| + (if w.Only? then 2 else 1) * |EOL|
            && Len(Added(c, p, w, id, s, n, e)) - Len(c) ==
               if p == 0 then Len(k) - Len(c) else Growth(c, p, Opened(Subtree(c, p)), k, Closed(Subtree(c, p)))
  {
    hide Insert, Opened, Closed, Shape, ShapedTags, CanInsert, InsertOffset;
    NoZero(c);
    if p != 0 {
      var x := Subtree(c, p);
      LenWith(c, p, Opened(x), Insert(x.kids, w, id, s, n, e), Closed(x));
    }
    InsertLen(Below(c, p), w, id, s, n, e);
  }

  lemma InsertLen(k: Content, w: Where, id: nat, s: string, n: Content, e: string)
    requires CanInsert(k, w)
    ensures Len(Insert(k, w, id, s, n, e)) == Len(k) + |s| + Len(n) + |e| + (if w.Only? then 2 else 1) * |EOL|
  {
    if w.Only? {
      OnlyIs(id, s, n, e);
    } else {
      RenderInsert(k, w, id, s, n, e);
    }
  }

  lemma AddedStale(doc: string, a: Elems, b: Elems, free: nat, c: Content, p: nat, w: Where, id: nat, s: string, n: Content, e: string, d: int)
    requires Represents(doc, a, free, c) && CanAdd(c, p, w, id, s, n, e) && Entered(a, b, c, p, w, id, s, n, e)
    requires d == Len(Added(c, p, w, id, s, n, e)) - Len(c)
    ensures Stale(b, Added(c, p, w, id, s, n, e), id, d, 0, 0)
  {
    hide Insert, Opened, Closed, Shape, ShapedTags, CanInsert, PlaceOf, Offsets, Placed, ListOk, Linked, InsertOffset, Stale, Growth;
    NoZero(c);
    AddedLen(c, p, w, id, s, n, e);
    if p == 0 {
      EnteredStale(doc, a, b, free, c, p, w, id, s, n, e, d);
    } else {
      ParentBelow(doc, a, b, free, c, p, w, id, s, n, e, d);
      StaleWith(a, b, c, p, Opened(Subtree(c, p)), Insert(Below(c, p), w, id, s, n, e), Closed(Subtree(c, p)), id, d, 0, 0);
    }
  }

  lemma GrowthNotOnly(c: Content, p: nat, k: Content)
    requires Shape(c) && p in Ids(c) && Subtree(c, p).kids != End("")
    ensures Growth(c, p, Opened(Subtree(c, p)), k, Closed(Subtree(c, p))) == Len(k) - Len(Subtree(c, p).kids)
    ensures Subtree(c, p).etag != ""
  {
    hide Opened, Closed, Subtree, Shape;
    SubtreeShape(c, p);
    OpenedSame(Subtree(c, p));
  }

  lemma OpenedSame(n: Content)
    requires n.Elem? && n.etag != ""
    ensures Opened(n) == n.stag && Closed(n) == n.etag
  {
  }

  lemma EnteredKeeps(a: Elems, b: Elems, c: Content, p: nat, w: Where, id: nat, s: string, n: Content, e: string)
    requires CanAdd(c, p, w, id, s, n, e) && Entered(a, b, c, p, w, id, s, n, e)
    ensures KeepsPlaces(a, b, Ids(c) - {p}, 0)
  {
    hide Insert, Shape, ShapedTags, CanInsert, PlaceOf, ListOk, EnteredParent, Placed, Below, InsertOffset;
  }

  lemma EnteredRetagged(doc: string, a: Elems, b: Elems, free: nat, c: Content, p: nat)
    requires Represents(doc, a, free, c) && p in Ids(c) && p != 0 && p < |a| && p < |b| && EnteredParent(a[p], b[p], c, p)
    ensures Retagged(a[p], b[p], Opened(Subtree(c, p)), Closed(Subtree(c, p))) && b[p].nLength == a[p].nLength
  {
    hide Opened, Closed, Shape, Offsets, Linked;
    ElementAt(doc, a, free, c, p);
  }

  lemma ParentBelow(doc: string, a: Elems, b: Elems, free: nat, c: Content, p: nat, w: Where, id: nat, s: string, n: Content, e: string, d: int)
    requires Represents(doc, a, free, c) && CanAdd(c, p, w, id, s, n, e) && Entered(a, b, c, p, w, id, s, n, e) && p in Ids(c) && p != 0
    requires d == Growth(c, p, Opened(Subtree(c, p)), Insert(Below(c, p), w, id, s, n, e), Closed(Subtree(c, p)))
    ensures StaleBelow(a, b, c, p, Opened(Subtree(c, p)), Insert(Below(c, p), w, id, s, n, e), Closed(Subtree(c, p)), id, d, 0, 0)
  {
    hide Insert, Opened, Closed, Shape, ShapedTags, CanInsert, PlaceOf, Offsets, ListOk, Linked, InsertOffset, Stale, Growth;
    hide Subtree, KeepsPlaces, Retagged, EnteredParent, Placed, Distinct, Ids, Inserted;
    if !w.Only? {
      GrowthNotOnly(c, p, Insert(Below(c, p), w, id, s, n, e));
      InsertLen(Below(c, p), w, id, s, n, e);
    }
    EnteredStale(doc, a, b, free, c, p, w, id, s, n, e, d);
    InsertedHas(c, p, w, id, s, n, e);
    EnteredKeeps(a, b, c, p, w, id, s, n, e);
    EnteredRetagged(doc, a, b, free, c, p);
  }

  lemma InsertedHas(c: Content, p: nat, w: Where, id: nat, s: string, n: Content, e: string)
    requires CanAdd(c, p, w, id, s, n, e)
    ensures id in Ids(Insert(Below(c, p), w, id, s, n, e))
  {
    hide Insert;
    AddedSlots(c, p, w, id, s, n, e);
  }

  // ---- The whole edit ----

  lemma EnteredRoot(doc: string, a: Elems, b: Elems, free: nat, c: Content, p: nat, w: Where, id: nat, s: string, n: Content, e: string)
    requires Represents(doc, a, free, c) && CanAdd(c, p, w, id, s, n, e) && Entered(a, b, c, p, w, id, s, n, e)
    ensures RootOk(b, Len(c))
  {
    hide Insert, Opened, Closed, Shape, CanInsert, PlaceOf, Offsets, Linked, ListOk, InsertOffset, Placed;
    NoZero(c);
    TopSeqFacts(Below(c, p));
    BelowIds(c, p);
  }

  /** After `x_Adjust` the index represents the document with the new element in it. */
  lemma AddedRepresents(doc: string, a: Elems, b: Elems, free: nat, c: Content, p: nat, w: Where, id: nat, s: string, n: Content, e: string, d: int)
    requires Represents(doc, a, free, c) && CanAdd(c, p, w, id, s, n, e) && Entered(a, b, c, p, w, id, s, n, e) && id < free
    requires d == Len(Added(c, p, w, id, s, n, e)) - Len(c)
    ensures var c' := Added(c, p, w, id, s, n, e);
            && Chain(b, c', 0) && InRange(c', |b|) && Distinct(c') && id in Ids(c') && 0 < |b| && b[0].startTagLen == 0
            && Represents(Render(c'), Adjusted(b, c', id, d, false), free, c')
  {
    hide Insert, Opened, Closed, Shape, ShapedTags, CanInsert, PlaceOf, Offsets, Linked, ListOk, InsertOffset, Placed, Stale;
    hide Adjusted, Distinct, Ids, Inserted, Chain, InRange, EnteredParent, Added;
    AddedShape(c, p, w, id, s, n, e);
    AddedSlots(c, p, w, id, s, n, e);
    AddedLinked(a, b, c, p, w, id, s, n, e);
    AddedStale(doc, a, b, free, c, p, w, id, s, n, e, d);
    EnteredRoot(doc, a, b, free, c, p, w, id, s, n, e);
    AdjustDone(b, Added(c, p, w, id, s, n, e), id, d);
  }

  // ---- The text ----

  lemma ParentText(c: Content, p: nat, k: Content)
    requires Shape(c) && p in Ids(c)
    ensures var x := Subtree(c, p);
            && Render(c) == Before(c, p) + (x.stag + Render(x.kids) + x.etag) + After(c, p)
            && Render(With(c, p, Opened(x), k, Closed(x))) == Before(c, p) + (Opened(x) + Render(k) + Closed(x)) + After(c, p)
  {
    var x := Subtree(c, p);
    WithSelf(c, p);
    RenderWith(c, p, x.stag, x.kids, x.etag);
    RenderWith(c, p, Opened(x), k, Closed(x));
  }

  lemma SplitText(s: string, k: string, name: string)
    requires |s| >= 2 && s[|s| - 1] == '>'
    ensures SplitTag(s) + k + ("</" + name + ">") == Splice(s, |s| - 2, 1, ">" + k + ("</" + name))
  {
    var a := s[..|s| - 2];
    assert s[|s| - 1..] == ">";
    assert (a + ">") + k + ("</" + name + ">") == a + (">" + k + ("</" + name)) + ">";
  }

  /** Giving content to an element without an end tag. */
  lemma FilledText(c: Content, p: nat, k: Content)
    requires Shape(c) && p in Ids(c) && Subtree(c, p).etag == ""
    ensures var x := Subtree(c, p); var at := |Before(c, p)| + |x.stag| - 2;
            && 2 <= |x.stag| && at + 1 <= |Render(c)|
            && Render(With(c, p, Opened(x), k, Closed(x))) == Splice(Render(c), at, 1, ">" + Render(k) + ("</" + WordOf(x.stag)))
  {
    var x := Subtree(c, p);
    hide Render, Splice, WordOf;
    SubtreeShape(c, p);
    ParentText(c, p, k);
    SplitText(x.stag, Render(k), WordOf(x.stag));
    assert x.stag + Render(x.kids) + x.etag == x.stag by { RenderNothing(); }
    SpliceInside(Before(c, p), x.stag, After(c, p), |x.stag| - 2, 1, ">" + Render(k) + ("</" + WordOf(x.stag)));
  }

  lemma RenderNothing()
    ensures Render(End("")) == ""
  {
  }

  /** Giving other content to an element with an end tag, or to the document. */
  lemma ReplacedText(c: Content, p: nat, k: Content, at: nat, r: nat, y: string)
    requires Shape(c) && IsParent(c, p) && (p != 0 ==> Subtree(c, p).etag != "")
    requires at + r <= Len(Below(c, p)) && Render(k) == Splice(Render(Below(c, p)), at, r, y)
    ensures |Ahead(c, p)| + at + r <= |Render(c)|
    ensures Render(if p != 0 && p in Ids(c) then With(c, p, Opened(Subtree(c, p)), k, Closed(Subtree(c, p))) else k)
            == Splice(Render(c), |Ahead(c, p)| + at, r, y)
  {
    hide Render, Splice, Opened, Closed, Subtree;
    var z := Render(Below(c, p));
    SpliceInside(Ahead(c, p), z, Beyond(c, p), at, r, y);
    ListText(c, p);
    if p != 0 && p in Ids(c) {
      ParentText(c, p, k);
      OpenedSame(Subtree(c, p));
      WrapAssoc(Before(c, p), Subtree(c, p).stag, Render(k), Subtree(c, p).etag, After(c, p));
    } else {
      assert "" + Render(k) + "" == Render(k);
    }
  }

  lemma WrapAssoc(b: string, s: string, k: string, e: string, a: string)
    ensures (b + s) + k + (e + a) == b + (s + k + e) + a
  {
  }

  /** The text after `x_InsertNew` has put `x` and a line end into it. */
  function NewText(c: Content, p: nat, w: Where, x: string): string {
    var doc, meta := Render(c), x + EOL;
    if w.Only? && Subtree(c, p).Elem? && Subtree(c, p).etag == "" then
      SpliceAt(doc, |Before(c, p)| + |Subtree(c, p).stag| - 2, 1, ((">" + EOL) + meta) + "</" + WordOf(Subtree(c, p).stag))
    else if w.Only? then SpliceAt(doc, |Ahead(c, p)|, 0, EOL + meta)
    else SpliceAt(doc, |Ahead(c, p)| + InsertOffset(Below(c, p), w), 0, meta)
  }

  /** `x_StrInsertReplace`: nothing is replaced behind the end of the text. */
  function SpliceAt(a: string, n: int, r: nat, x: string): string {
    if 0 <= n && n + r <= |a| then Splice(a, n, r, x) else if 0 <= n <= |a| then a[..n] + x else a
  }

  lemma AddedText(c: Content, p: nat, w: Where, id: nat, s: string, n: Content, e: string)
    requires CanAdd(c, p, w, id, s, n, e)
    ensures Render(Added(c, p, w, id, s, n, e)) == NewText(c, p, w, s + Render(n) + e)
  {
    hide Render, Splice, Opened, Closed, Insert, InsertOffset, Shape, ShapedTags, Distinct, WordOf;
    assert Shape(c);
    if w.Only? {
      OnlyText(id, s, n, e);
      if Subtree(c, p).etag == "" {
        FilledText(c, p, Insert(End(""), Only, id, s, n, e));
        OnlyAssoc((s + Render(n) + e), WordOf(Subtree(c, p).stag));
      } else {
        RenderNothing();
        ReplacedText(c, p, Insert(End(""), Only, id, s, n, e), 0, 0, EOL + ((s + Render(n) + e) + EOL));
      }
    } else {
      NotOnlyEtag(c, p);
      RenderInsert(Below(c, p), w, id, s, n, e);
      ReplacedText(c, p, Insert(Below(c, p), w, id, s, n, e), InsertOffset(Below(c, p), w), 0, (s + Render(n) + e) + EOL);
    }
  }

  lemma NotOnlyEtag(c: Content, p: nat)
    requires Shape(c) && IsParent(c, p) && !(p != 0 && Below(c, p) == End(""))
    ensures p != 0 ==> Subtree(c, p).etag != ""
  {
    if p != 0 {
      SubtreeShape(c, p);
    }
  }

  lemma OnlyText(id: nat, s: string, n: Content, e: string)
    ensures var x := s + Render(n) + e;
            Render(Insert(End(""), Only, id, s, n, e)) == EOL + (x + EOL) && EOL + (x + EOL) == Splice("", 0, 0, EOL + (x + EOL))
  {
    var x := s + Render(n) + e;
    assert EOL + x + EOL == EOL + (x + EOL);
    assert "" + (EOL + (x + EOL)) + "" == EOL + (x + EOL);
  }

  lemma OnlyAssoc(x: string, name: string)
    ensures ((">" + EOL) + (x + EOL)) + "</" + name == ">" + (EOL + (x + EOL)) + ("</" + name)
  {
  }

  // ---- The name for the new end tag ----

  /** White space and words of a text inside a longer one, when they end in the text. */
  lemma {:induction false} SkipInside(doc: string, n: nat, s: string, i: nat)
    requires At(doc, n, s) && i <= |s| && s != "" && !White(s[|s| - 1])
    ensures i < |s| ==> SkipWhite(s, i) < |s| && SkipWhite(doc, n + i) == n + SkipWhite(s, i)
    decreases |s| - i
  {
    if i < |s| {
      assert s[i] == doc[n + i];
      if White(s[i]) { SkipInside(doc, n, s, i + 1); }
    }
  }

  lemma {:induction false} NameEndInside(doc: string, n: nat, s: string, i: nat)
    requires At(doc, n, s) && i < |s| && EndAnyName(s[|s| - 1])
    ensures NameEnd(s, i) < |s| && NameEnd(doc, n + i) == n + NameEnd(s, i)
    decreases |s| - i
  {
    assert s[i] == doc[n + i];
    if !EndAnyName(s[i]) { NameEndInside(doc, n, s, i + 1); }
  }

  lemma EndsAtGt()
    ensures EndAnyName('>') && !White('>')
  {
  }

  lemma SameSlice(doc: string, n: nat, s: string, a: nat, b: nat)
    requires At(doc, n, s) && a <= b <= |s|
    ensures doc[n + a..n + b] == s[a..b]
  {
    assert forall i :: a <= i < b ==> doc[n..n + |s|][i] == doc[n + i] == s[i];
  }

  lemma NameSame(doc: string, n: nat, s: string, a: nat, b: nat)
    requires At(doc, n, s) && 1 <= |s| && SkipWhite(s, 1) == a < |s| && NameEnd(s, a) == b
    requires n + 1 <= |doc| && SkipWhite(doc, n + 1) == n + a < |doc| && NameEnd(doc, n + a) == n + b
    ensures NameFrom(doc, n + 1) == NameFrom(s, 1)
  {
    hide SkipWhite, NameEnd, At;
    if b == a {
      SameSlice(doc, n, s, a, a + 1);
    } else {
      SameSlice(doc, n, s, a, b);
    }
  }

  /** `x_GetTagName` looks no further than the end of the start tag. */
  lemma NameInside(doc: string, n: nat, s: string)
    requires At(doc, n, s) && |s| >= 2 && s[|s| - 1] == '>'
    ensures n + 1 <= |doc| && NameFrom(doc, n + 1) == WordOf(s)
  {
    assert n + |s| <= |doc|;
    hide SkipWhite, NameEnd, EndAnyName, AllWhite, At, White, NameFrom;
    EndsAtGt();
    SkipInside(doc, n, s, 1);
    var a := SkipWhite(s, 1);
    NameEndInside(doc, n, s, a);
    NameSame(doc, n, s, a, NameEnd(s, a));
  }

  // ---- Where x_InsertNew puts the element ----

  /** The place in the text before white space is skipped. */
  function RawStart(c: Content, p: nat, w: Where): int {
    match w
    case Only => Opening(c, p)
    case Head => |Ahead(c, p)|
    case Last => |Ahead(c, p)| + Len(Below(c, p))
    case Behind(t) => |Ahead(c, p)| + |Before(Below(c, p), t)| + SubtreeLen(Below(c, p), t)
    case InFront(t) => |Ahead(c, p)| + |Before(Below(c, p), t)|
  }

  function SubtreeLen(k: Content, t: nat): nat {
    var n := Subtree(k, t);
    if n.Elem? then |n.stag| + Len(n.kids) + |n.etag| else 0
  }

  /** The record of a child of `p`. */
  lemma ChildRecord(doc: string, elem: Elems, free: nat, c: Content, p: nat, t: nat)
    requires Represents(doc, elem, free, c) && IsParent(c, p) && t in Top(Below(c, p))
    ensures t < |elem| && t in Ids(Below(c, p))
    ensures elem[t].nStart == RawStart(c, p, InFront(t)) && elem[t].StartAfter() == RawStart(c, p, Behind(t))
  {
    hide Offsets, Shape, Linked;
    ListRecord(doc, elem, free, c, p);
    TopSeqFacts(Below(c, p));
    PlacedAt(elem, Below(c, p), t, |Ahead(c, p)|, ListLevel(c, p));
  }

  /** White space up to the next tag is skipped, from the place the records give. */
  lemma StartIs(doc: string, elem: Elems, free: nat, c: Content, p: nat, w: Where)
    requires Represents(doc, elem, free, c) && IsParent(c, p) && CanInsert(Below(c, p), w)
    requires w.Only? <==> p != 0 && Below(c, p) == End("")
    ensures var n := RawStart(c, p, w);
            && 0 <= n <= |doc|
            && (if w.Only? && Subtree(c, p).Elem? && Subtree(c, p).etag == "" then n else TagAfter(doc, n))
               + (if w.Only? then |EOL| else 0) == Opening(c, p) + InsertOffset(Below(c, p), w)
  {
    hide Render, Opened, Closed, Subtree, Shape, Linked, Offsets, TagAfter, Before, After;
    OpeningIs(c, p);
    ListText(c, p);
    match w
    case Only => OnlyStart(doc, c, p);
    case Head =>
      NotOnlyEtag(c, p);
      BeyondIsTag(c, p);
      ListRecord(doc, elem, free, c, p);
      TagAfterList(doc, Ahead(c, p), Below(c, p), Beyond(c, p));
    case Last =>
      NotOnlyEtag(c, p);
      BeyondIsTag(c, p);
      LastStart(doc, Ahead(c, p) + Render(Below(c, p)), Beyond(c, p));
    case Behind(t) => BehindStart(doc, elem, free, c, p, t);
    case InFront(t) => InFrontStart(doc, elem, free, c, p, t);
  }

  lemma LastStart(doc: string, a: string, b: string)
    requires doc == a + b && TagNext(b)
    ensures |a| <= |doc| && TagAfter(doc, |a|) == |a|
  {
    TagAfterTag(doc, |a|);
  }

  lemma OnlyStart(doc: string, c: Content, p: nat)
    requires doc == Render(c) && Shape(c) && p in Ids(c) && p != 0 && Below(c, p) == End("")
    ensures Opening(c, p) <= |doc| && (Subtree(c, p).etag != "" ==> TagAfter(doc, Opening(c, p)) == Opening(c, p))
  {
    hide Opened, Closed, Shape, TagAfter;
    OpeningIs(c, p);
    ListText(c, p);
    if Subtree(c, p).etag != "" {
      BeyondIsTag(c, p);
      LastStart(doc, Ahead(c, p) + Render(Below(c, p)), Beyond(c, p));
    }
  }

  lemma ChildText(doc: string, c: Content, p: nat, t: nat)
    requires doc == Render(c) && Distinct(c) && IsParent(c, p) && t in Top(Below(c, p))
    ensures t in Ids(c) && |Before(c, t)| == RawStart(c, p, InFront(t)) && Subtree(c, t) == Subtree(Below(c, p), t)
  {
    NoZero(c);
    TopSeqFacts(Below(c, p));
    if p != 0 {
      BeforeBelow(c, p, t);
    }
  }

  lemma BehindStart(doc: string, elem: Elems, free: nat, c: Content, p: nat, t: nat)
    requires Represents(doc, elem, free, c) && IsParent(c, p) && t in Top(Below(c, p))
    ensures var n := RawStart(c, p, Behind(t)); 0 <= n <= |doc| && TagAfter(doc, n) == |Ahead(c, p)| + InsertOffset(Below(c, p), Behind(t))
  {
    hide Shape, Linked, Offsets, TagAfter, Before, Subtree, Below, Ahead, InsertOffset;
    ChildText(doc, c, p, t);
    TagAfterElement(c, t);
    BelowDistinct(c, p);
    OffsetBehind(Below(c, p), t);
  }

  lemma InFrontStart(doc: string, elem: Elems, free: nat, c: Content, p: nat, t: nat)
    requires Represents(doc, elem, free, c) && IsParent(c, p) && t in Top(Below(c, p))
    ensures var n := RawStart(c, p, InFront(t)); 0 <= n <= |doc| && TagAfter(doc, n) == n == |Ahead(c, p)| + InsertOffset(Below(c, p), InFront(t))
  {
    hide Shape, Linked, Offsets, TagAfter, Before, Below, Ahead, InsertOffset;
    ChildText(doc, c, p, t);
    BelowDistinct(c, p);
    OffsetBehind(Below(c, p), t);
    ElementAt(doc, elem, free, c, t);
    var n := Subtree(c, t);
    StagThere(doc, Before(c, t), n.stag, Render(n.kids), n.etag, After(c, t));
    TagAfterTag(doc, |Before(c, t)|);
  }

  lemma StagThere(doc: string, b: string, s: string, k: string, e: string, a: string)
    requires doc == b + (s + k + e) + a && s != ""
    ensures |b| < |doc| && doc[|b|] == s[0]
  {
  }

  /** What the record of the parent says about its tags. */
  lemma ParentFacts(doc: string, elem: Elems, free: nat, c: Content, p: nat)
    requires Represents(doc, elem, free, c) && IsParent(c, p)
    ensures p < |elem| && !(p != 0 && elem[p].nonEnded)
    ensures elem[p].StartContent() == |Ahead(c, p)| && elem[p].StartAfter() - elem[p].endTagLen == |Ahead(c, p)| + Len(Below(c, p))
    ensures p != 0 ==> Subtree(c, p).Elem? && (elem[p].IsEmptyElement() <==> Subtree(c, p).etag == "")
    ensures p != 0 && Subtree(c, p).etag == "" ==> Below(c, p) == End("") && Opening(c, p) == |Ahead(c, p)| - 1
    ensures p == 0 || Subtree(c, p).etag != "" ==> Opening(c, p) == |Ahead(c, p)|
    ensures elem[p].ContentLen() == Len(Below(c, p)) && (elem[p].ContentLen() == 0 <==> Below(c, p) == End(""))
  {
    hide Opened, Closed, Offsets, Linked, Shape;
    ListRecord(doc, elem, free, c, p);
    OpeningIs(c, p);
    LenZero(Below(c, p));
    if p != 0 {
      ElementAt(doc, elem, free, c, p);
    }
  }

  lemma LenZero(k: Content)
    requires Shape(k)
    ensures Len(k) == 0 <==> k == End("")
  {
  }

  /** The place the code starts from. */
  lemma RawStartIs(doc: string, elem: Elems, free: nat, c: Content, p: nat, rel: nat, insert: bool)
    requires Represents(doc, elem, free, c) && IsParent(c, p) && (rel != 0 ==> rel in Top(Below(c, p)))
    ensures p < |elem| && (rel != 0 ==> rel < |elem| && !(p != 0 && elem[p].IsEmptyElement()))
    ensures CanInsert(Below(c, p), WhereFor(c, p, rel, insert)) && (WhereFor(c, p, rel, insert).Only? <==> p != 0 && Below(c, p) == End(""))
    ensures RawStart(c, p, WhereFor(c, p, rel, insert)) ==
            if rel != 0 then (if insert then elem[rel].nStart else elem[rel].StartAfter())
            else if p != 0 && elem[p].IsEmptyElement() then elem[p].StartContent() - 1
            else if insert then elem[p].StartContent()
            else elem[p].StartAfter() - elem[p].endTagLen
  {
    hide Represents, Opened, Closed, Before, After, Subtree, InsertOffset, Opening, Ahead;
    ParentFacts(doc, elem, free, c, p);
    if rel != 0 {
      ChildRecord(doc, elem, free, c, p, rel);
    }
  }

  /** The sibling the new element is linked in after. */
  lemma PredecessorIs(elem: Elems, c: Content, p: nat, rel: nat, insert: bool)
    requires Linked(elem, c) && Distinct(c) && IsParent(c, p) && (rel != 0 ==> rel in Top(Below(c, p)))
    ensures p < |elem| && (rel != 0 ==> rel < |elem|) && elem[p].child < |elem|
    ensures var s, j := TopSeq(Below(c, p)), PlaceOf(Below(c, p), WhereFor(c, p, rel, insert));
            j <= |s| &&
            (if j == 0 then 0 else s[j - 1]) ==
            if rel != 0 then (if !insert then rel else if elem[rel].first then 0 else elem[rel].prev)
            else if !insert && elem[p].child != 0 then elem[elem[p].child].prev
            else 0
  {
    hide Linked, ListOk, Deep, DistinctSlots, Distinct, Ids;
    var k := Below(c, p);
    var s, j := TopSeq(k), PlaceOf(k, WhereFor(c, p, rel, insert));
    ListLinks(elem, c, p);
    TopSeqFacts(k);
    ListChild(elem, p, s);
    if s != [] { ListOkAt(elem, p, s, 0); }
    if rel != 0 {
      ListOkAt(elem, p, s, IndexOf(s, rel));
    }
  }

  /** The record of an element whose empty-element tag is split. */
  lemma SplitRecord(doc: string, elem: Elems, free: nat, c: Content, p: nat)
    requires Represents(doc, elem, free, c) && p in Ids(c) && Subtree(c, p).Elem? && Subtree(c, p).etag == ""
    ensures var n := Subtree(c, p);
            && p != 0 && p < |elem| && elem[p].nStart == |Before(c, p)| && 0 <= elem[p].nStart < |doc|
            && elem[p].startTagLen == |n.stag| && elem[p].StartAfter() == |Before(c, p)| + |n.stag| <= |doc| && 3 <= |n.stag|
            && |Opened(n)| == |n.stag| - 1 && |Closed(n)| == 3 + |WordOf(n.stag)|
            && NameFrom(doc, elem[p].nStart + 1) == WordOf(n.stag) && !elem[p].nonEnded
            && elem[p].(nonEnded := false) == elem[p]
  {
    hide Offsets, Linked, Shape, WordOf, NameFrom, At, Before, After, Subtree, Render, Ids;
    ElementAt(doc, elem, free, c, p);
    var n := Subtree(c, p);
    assert n.kids == End("") && n.stag + Render(n.kids) + n.etag == n.stag by { RenderNothing(); }
    MidAt(Before(c, p), n.stag, After(c, p));
    NameInside(doc, |Before(c, p)|, n.stag);
  }

  lemma MidAt(a: string, x: string, b: string)
    ensures At(a + x + b, |a|, x)
  {
  }

  /** The records when the parent of a new element has been given its new tags. */
  function WithTags(elem: Elems, c: Content, p: nat): (r: Elems)
    ensures |r| == |elem|
  {
    var n := Subtree(c, p);
    if p != 0 && p < |elem| && n.Elem? && n.etag == ""
    then elem[p := elem[p].(startTagLen := |Opened(n)|, endTagLen := |Closed(n)|)]
    else elem
  }

  /** The places where `x_InsertNew` puts text are in the text. */
  lemma InsertInside(doc: string, elem: Elems, free: nat, c: Content, p: nat, w: Where)
    requires Represents(doc, elem, free, c) && IsParent(c, p) && CanInsert(Below(c, p), w)
    requires w.Only? <==> p != 0 && Below(c, p) == End("")
    ensures |Ahead(c, p)| <= |doc| && doc == Render(c) && (!w.Only? ==> |Ahead(c, p)| + InsertOffset(Below(c, p), w) <= |doc|)
  {
    hide Insert, Render;
    ListText(c, p);
    if !w.Only? {
      RenderInsert(Below(c, p), w, 0, "", End(""), "");
    }
  }

  lemma SpliceLen(doc: string, n: int, r: nat, y: string)
    requires 0 <= n && n + r <= |doc|
    ensures |SpliceAt(doc, n, r, y)| == |doc| - r + |y|
  {
  }

  /** The text after `x_InsertNew`, by the cases the code tells apart. */
  lemma NewTextIs(doc: string, elem: Elems, free: nat, c: Content, p: nat, w: Where, x: string)
    requires Represents(doc, elem, free, c) && IsParent(c, p) && (w.Only? <==> p != 0 && Below(c, p) == End(""))
    ensures p < |elem|
    ensures w.Only? <==> p != 0 && (elem[p].IsEmptyElement() || elem[p].ContentLen() == 0)
    ensures p != 0 && elem[p].IsEmptyElement() ==>
              Subtree(c, p).Elem? && p in Ids(c) && Subtree(c, p).etag == "" &&
              NewText(c, p, w, x) == SpliceAt(doc, |Before(c, p)| + |Subtree(c, p).stag| - 2, 1, ((">" + EOL) + (x + EOL)) + "</" + WordOf(Subtree(c, p).stag))
    ensures !(p != 0 && elem[p].IsEmptyElement()) ==>
              WithTags(elem, c, p) == elem &&
              NewText(c, p, w, x) == if w.Only? then SpliceAt(doc, elem[p].StartContent(), 0, EOL + (x + EOL))
                                     else SpliceAt(doc, Opening(c, p) + InsertOffset(Below(c, p), w), 0, x + EOL)
  {
    hide Opened, Closed, Offsets, Linked, Shape, Splice, WordOf, Before, After, InsertOffset, Opening, Render, Ahead, Subtree, SpliceAt;
    ParentFacts(doc, elem, free, c, p);
    SubtreeOf0(c, p);
  }

  lemma SubtreeOf0(c: Content, p: nat)
    requires Distinct(c) && IsParent(c, p)
    ensures p == 0 ==> Ahead(c, p) == "" && Opening(c, p) == 0
  {
    NoZero(c);
  }

  // ---- From x_InsertNew to x_Adjust ----

  /** The record of a new element before it is linked in. */
  predicate NewRecord(e: ElemPos, s: string, n: Content, et: string, start: int) {
    && e.nStart == start && e.nLength == |s| + Len(n) + |et| && e.startTagLen == |s| && e.endTagLen == |et|
    && e.child == 0 && e.level == 0 && !e.nonEnded && !e.deleted
  }

  /** What `x_LinkElem` does to the record of the new element. */
  predicate LinkedRecord(e: ElemPos, f: ElemPos, p: nat, lvl: int) {
    f == e.(parent := p, next := f.next, prev := f.prev, first := f.first, level := if p == 0 then e.level else lvl + 1)
  }

  /** The records when the new element is written but not linked in. */
  ghost predicate Written(a: Elems, m: Elems, c: Content, p: nat, id: nat) {
    |a| == |m| && p < |a| && forall i :: 0 <= i < |a| && i != id ==> m[i] == WithTags(a, c, p)[i]
  }

  lemma WithTagsAt(a: Elems, c: Content, p: nat, i: nat)
    requires i < |a|
    ensures i != p ==> WithTags(a, c, p)[i] == a[i]
    ensures var e := WithTags(a, c, p)[i]; e == a[i].(startTagLen := e.startTagLen, endTagLen := e.endTagLen)
  {
  }

  /** The parent of the new element is ready for `x_LinkElem`. */
  lemma ReadyToLink(a: Elems, m: Elems, c: Content, p: nat, id: nat, j: nat)
    requires Linked(a, c) && Distinct(c) && IsParent(c, p) && id != 0 && id !in Ids(c) && id < |a| && Written(a, m, c, p, id)
    requires j <= |TopSeq(Below(c, p))|
    ensures CanLink(m, p, TopSeq(Below(c, p)), j, id)
  {
    hide Linked, Deep, DistinctSlots, WithTags, Distinct, Ids;
    var k := Below(c, p);
    ListLinks(a, c, p);
    TopSeqFacts(k);
    forall i | 0 <= i < |a| && i != id ensures SameSiblings(a[i], m[i]) && m[i].child == a[i].child {
      WithTagsAt(a, c, p, i);
    }
    ListFrame(a, m, p, TopSeq(k));
  }

  lemma EnteredParentIs(doc: string, a: Elems, m: ElemPos, b: ElemPos, free: nat, c: Content, p: nat)
    requires Represents(doc, a, free, c) && IsParent(c, p) && p < |a| && m == WithTags(a, c, p)[p] && b == m.(child := b.child)
    ensures EnteredParent(a[p], b, c, p) && (p != 0 ==> m.level + 1 == ListLevel(c, p))
    ensures p == 0 ==> ListLevel(c, p) == 0
  {
    hide Offsets, Linked, Shape, Before, After;
    NoZero(c);
    if p != 0 {
      ElementAt(doc, a, free, c, p);
      if Subtree(c, p).etag != "" { OpenedSame(Subtree(c, p)); }
    }
  }

  lemma EnteredBy(doc: string, a: Elems, m: Elems, b: Elems, free: nat, c: Content, p: nat, w: Where, id: nat, s: string, n: Content, e: string)
    requires Represents(doc, a, free, c) && CanAdd(c, p, w, id, s, n, e) && id < |a| && Written(a, m, c, p, id)
    requires NewRecord(m[id], s, n, e, Opening(c, p) + InsertOffset(Below(c, p), w))
    requires PlaceOf(Below(c, p), w) <= |TopSeq(Below(c, p))| && ListOk(b, p, InsertAt(TopSeq(Below(c, p)), PlaceOf(Below(c, p), w), id))
    requires Relinked(m, b, p, TopSeq(Below(c, p)), id) && LinkedRecord(m[id], b[id], p, m[p].level)
    ensures Entered(a, b, c, p, w, id, s, n, e)
  {
    hide Represents, Shape, ShapedTags, Distinct, CanInsert, PlaceOf, ListOk, WithTags, InsertOffset, Opening, Below, EnteredParent, ListLevel, Ids;
    assert id != p by { NotParent(c, p, id); }
    EnteredParentIs(doc, a, m[p], b[p], free, c, p);
    TopSeqFacts(Below(c, p));
    forall i | 0 <= i < |a| && i != p && i != id ensures m[i] == a[i] { WithTagsAt(a, c, p, i); }
    NotInList(c, p, id);
  }

  lemma NotParent(c: Content, p: nat, id: nat)
    requires IsParent(c, p) && id != 0 && id !in Ids(c)
    ensures id != p
  {
  }

  lemma NotInList(c: Content, p: nat, id: nat)
    requires Distinct(c) && id !in Ids(c)
    ensures p !in Top(Below(c, p)) && id !in Top(Below(c, p))
  {
    BelowIds(c, p);
    TopSeqFacts(Below(c, p));
  }

  // ---- The cursor after x_AddElem ----

  lemma InsertTop(k: Content, w: Where, id: nat, s: string, n: Content, e: string)
    requires CanInsert(k, w) && Distinct(k) && id !in Ids(k) && id != 0 && Ids(n) == {}
    ensures id in Top(Insert(k, w, id, s, n, e))
  {
    hide Insert, CanInsert, PlaceOf;
    NoIds(n);
    InsertSlots(k, w, id, s, n, e);
    TopSeqFacts(Insert(k, w, id, s, n, e));
    assert InsertAt(TopSeq(k), PlaceOf(k, w), id)[PlaceOf(k, w)] == id;
  }

  lemma SameTop(a: Content, b: Content)
    requires TopSeq(a) == TopSeq(b)
    ensures Top(a) == Top(b)
  {
    TopSeqFacts(a);
    TopSeqFacts(b);
    assert forall i :: i in Top(a) <==> i in Top(b);
  }

  /** The new element is a child of `p`, and the children of the parent of `p` are as before. */
  lemma CursorAdded(c: Content, parent: nat, main: nat, child: nat, below: bool, w: Where, id: nat, s: string, n: Content, e: string)
    requires CursorOk(c, parent, main, child) && (below ==> main != 0)
    requires CanAdd(c, if below then main else parent, w, id, s, n, e)
    ensures var c' := Added(c, if below then main else parent, w, id, s, n, e);
            if below then CursorOk(c', parent, main, id) else CursorOk(c', parent, id, 0)
  {
    hide Insert, Shape, ShapedTags, CanInsert, Opened, Closed, PlaceOf, Distinct, Ids, Top;
    var p := if below then main else parent;
    NoZero(c);
    AddedSlots(c, p, w, id, s, n, e);
    BelowDistinct(c, p);
    BelowIds(c, p);
    InsertTop(Below(c, p), w, id, s, n, e);
    if p != 0 {
      var x, k := Subtree(c, p), Insert(Below(c, p), w, id, s, n, e);
      SlotSets(Ids(c), Ids(Below(c, p)), id);
      WithBelow(c, p, Opened(x), k, Closed(x));
      if below {
        TopOfParent(c, parent, main, Opened(x), k, Closed(x));
      }
    }
  }

  /** Changing an element changes no list of elements but its own. */
  lemma TopOfParent(c: Content, parent: nat, main: nat, s: string, k: Content, e: string)
    requires IsParent(c, parent) && main in Top(Below(c, parent)) && main in Ids(c) && Distinct(c) && Distinct(k)
    requires Ids(k) !! (Ids(c) - Ids(Subtree(c, main).kids))
    ensures main in Top(Below(With(c, main, s, k, e), parent)) && IsParent(With(c, main, s, k, e), parent)
  {
    var c' := With(c, main, s, k, e);
    NoZero(c);
    WithSlots(c, main, s, k, e);
    TopSeqFacts(Below(c, parent));
    if parent == 0 {
      NoZero(c');
      SameTop(c', c);
    } else {
      ParentOutside(c, parent, main);
      WithOther(c, main, parent, s, k, e);
      SameTop(Below(c', parent), Below(c, parent));
    }
  }

  // ---- Writing the record of the new element ----

  /** What `x_AddElem` stores in the record once it knows where the element starts. */
  function Started(e: ElemPos, start: int): ElemPos {
    e.(nStart := start, child := 0, first := false, illFormed := false, illData := false, nonEnded := false, deleted := false, level := 0)
  }

  lemma WrittenIs(a: Elems, c: Content, p: nat, id: nat, s: string, n: Content, e: string, start: int)
    requires IsParent(c, p) && id != 0 && id !in Ids(c) && id < |a| && p < |a|
    requires a[id].nLength == |s + Render(n) + e| && a[id].startTagLen == |s| && a[id].endTagLen == |e|
    ensures var t := WithTags(a, c, p); var m := t[id := Started(t[id], start)];
            Written(a, m, c, p, id) && NewRecord(m[id], s, n, e, start)
  {
    hide WithTags;
    NotParent(c, p, id);
    WithTagsAt(a, c, p, id);
  }

  lemma LinkedRecordIs(e: ElemPos, f: ElemPos, p: nat, lvl: int)
    requires f == e.(parent := p, next := f.next, prev := f.prev, first := f.first, level := if p == 0 then e.level else lvl + 1)
    ensures LinkedRecord(e, f, p, lvl)
  {
  }

  lemma EnteredMarks(a: Elems, b: Elems, c: Content, p: nat, w: Where, id: nat, s: string, n: Content, e: string)
    requires Entered(a, b, c, p, w, id, s, n, e)
    ensures SameMarks(a, b, id)
  {
    hide ListOk, Placed, PlaceOf, InsertAt, Opening, InsertOffset, Below;
    forall i | 0 <= i < |a| && i != id ensures SameMark(a[i], b[i]) {
      if i == p {
        assert EnteredParent(a[p], b[p], c, p);
      }
    }
  }

  /** The marks after `x_AddElem`: `o` are the records before, `a` those with room for the new element, `b` those in which
      it has been entered. */
  lemma AddedMarks(o: Elems, a: Elems, b: Elems, c: Content, p: nat, w: Where, id: nat, s: string, n: Content, e: string, d: int)
    requires Marked(o, id, c) && 0 < id <= |o| <= |a| && (forall i :: 0 <= i < |o| && i != id ==> a[i] == o[i])
    requires CanAdd(c, p, w, id, s, n, e) && Entered(a, b, c, p, w, id, s, n, e) && InRange(Added(c, p, w, id, s, n, e), |b|)
    ensures var c' := Added(c, p, w, id, s, n, e); Distinct(c') && id in Ids(c') && Marked(Adjusted(b, c', id, d, false), id + 1, c')
  {
    hide Entered, Added, CanAdd, InRange, Distinct, Adjusted;
    var c' := Added(c, p, w, id, s, n, e);
    AddedSlots(c, p, w, id, s, n, e);
    EnteredMarks(a, b, c, p, w, id, s, n, e);
    AdjustedMarks(b, c', id, d, false);
    MarksKept(o, Adjusted(b, c', id, d, false), id, id + 1, c, c', id);
  }
}
