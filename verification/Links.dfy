/** Links between records: inserting into and removing from a list of children, seen from the
    list and from the tree. */
module Links {
  import opened Content
  import opened Index
  import opened Edit

  predicate DistinctSlots(s: seq<nat>) {
    (forall i, j :: 0 <= i < j < |s| ==> s[i] != s[j]) && 0 !in s
  }

  lemma {:induction false} TopSeqFacts(c: Content)
    ensures (forall i :: i in TopSeq(c) <==> i in Top(c)) && Top(c) <= Ids(c)
    ensures Distinct(c) ==> DistinctSlots(TopSeq(c))
    ensures FirstId(c) == if TopSeq(c) == [] then 0 else TopSeq(c)[0]
  {
    match c
    case End(_) =>
    case Mark(_, _, r) => TopSeqFacts(r);
    case Elem(_, id, _, _, _, r) => TopSeqFacts(r);
  }

  /** A linked tree has the parent, child and next links the walks rely on. */
  lemma {:induction false} LinkedChain(elem: Elems, c: Content, p: nat, s: seq<nat>, n: nat)
    requires ListOk(elem, p, s) && n <= |s| && s[n..] == TopSeq(c) && Deep(elem, c) && Distinct(c)
    ensures Chain(elem, c, p)
    decreases c
  {
    match c
    case End(_) =>
    case Mark(_, _, r) => LinkedChain(elem, r, p, s, n);
    case Elem(_, id, _, k, _, r) =>
      assert s[n..][0] == id && s[n..][1..] == s[n + 1..];
      assert LinksOk(elem[s[n]], p, s, n);
      TopSeqFacts(k);
      TopSeqFacts(r);
      assert TopSeq(c)[1..] == TopSeq(r);
      if n + 1 < |s| { assert s[n + 1..][0] == s[n + 1]; }
      LinkedChain(elem, k, id, TopSeq(k), 0);
      LinkedChain(elem, r, p, s, n + 1);
  }

  // ---- x_ReleaseSubDoc ----

  /** `x_ReleasePos`: the slot goes to the front of the list of deleted slots. */
  function Released(elem: Elems, deleted: nat, i: nat): (r: Elems)
    requires i < |elem|
    ensures |r| == |elem|
  {
    elem[i := elem[i].(next := deleted, level := 0, first := false, illFormed := false, illData := false,
                       nonEnded := false, deleted := true)]
  }

  datatype Pool = Pool(elem: Elems, deleted: nat)

  /** Releases every element of a sibling list, descendants first. */
  function ReleaseList(p: Pool, c: Content): (r: Pool)
    requires InRange(c, |p.elem|)
    ensures |r.elem| == |p.elem|
    decreases c
  {
    match c
    case End(_) => p
    case Mark(_, _, r) => ReleaseList(p, r)
    case Elem(_, id, _, k, _, r) =>
      var q := ReleaseList(p, k);
      ReleaseList(Pool(Released(q.elem, q.deleted, id), id), r)
  }

  /** The descendants of the first element of `c`, then the element itself. */
  function ReleaseNode(p: Pool, c: Content): (r: Pool)
    requires c.Elem? && InRange(c, |p.elem|)
    ensures |r.elem| == |p.elem|
  {
    var q := ReleaseList(p, c.kids);
    Pool(Released(q.elem, q.deleted, c.id), c.id)
  }

  /** The slots in the order in which they are released. */
  function PostOrder(c: Content): seq<nat> {
    match c
    case End(_) => []
    case Mark(_, _, r) => PostOrder(r)
    case Elem(_, id, _, k, _, r) => PostOrder(k) + [id] + PostOrder(r)
  }

  /** What is left to release once the descendants of `c` are released; `Root` stands above the
      element the walk started from. */
  ghost function ReleaseUp(p: Pool, c: Content, up: Path): (r: Pool)
    requires InPath(c, up, |p.elem|)
    ensures |r.elem| == |p.elem|
    decreases up
  {
    var q := Pool(Released(p.elem, p.deleted, c.id), c.id);
    if up.Root? then q else ReleaseUp(ReleaseList(q, c.rest), up.node, up.up)
  }

  /** No element still to be visited has been released. */
  ghost predicate Fresh(gone: set<nat>, c: Content, up: Path)
    decreases up
  {
    c.Elem? && c.id !in gone && Ids(c.rest) !! gone && (up.Under? ==> Fresh(gone, up.node, up.up))
  }

  lemma {:induction false} StayFresh(gone: set<nat>, x: nat, c: Content, up: Path)
    requires Fresh(gone, c, up) && Tight(c, up) && x in Ids(c.kids)
    ensures Fresh(gone + {x}, c, up)
    decreases up
  {
    if up.Under? {
      StayFresh(gone, x, up.node, up.up);
    }
  }

  /** The elements whose descendants are released keep their links until they are released. */
  ghost predicate Intact(elem: Elems, links: Elems, gone: set<nat>) {
    |elem| == |links| && forall j :: 0 <= j < |elem| ==>
      elem[j].parent == links[j].parent && elem[j].child == links[j].child && (j !in gone ==> elem[j] == links[j])
  }

  /** The element the walk started from. */
  ghost function Outermost(c: Content, up: Path): nat
    requires c.Elem?
    decreases up
  {
    if up.Under? && up.node.Elem? then Outermost(up.node, up.up) else c.id
  }

  ghost predicate Releasing(links: Elems, elem: Elems, gone: set<nat>, c: Content, up: Path, top: nat) {
    && c.Elem? && OnPath(links, c, up) && InPath(c, up, |elem|) && Tight(c, up)
    && Intact(elem, links, gone) && Fresh(gone, c, up) && Outermost(c, up) == top
  }

  lemma {:induction false} OutermostAbove(c: Content, up: Path)
    requires Tight(c, up)
    ensures (up.Under? ==> Outermost(c, up) !in Ids(c))
    decreases up
  {
    if up.Under? {
      OutermostAbove(up.node, up.up);
    }
  }

  lemma ReleasingLinks(links: Elems, elem: Elems, gone: set<nat>, c: Content, up: Path, top: nat)
    requires Releasing(links, elem, gone, c, up, top)
    ensures c.id != 0 && c.id < |elem| && elem[c.id].child == FirstId(c.kids) && elem[c.id].next == FirstId(c.rest)
    ensures elem[c.id].parent == ParentOf(up) && (up.Root? <==> c.id == top)
    ensures InRange(c.kids, |elem|) && InPath(c, up, |elem|)
    ensures up.Under? ==> up.node.Elem? && ParentOf(up) == up.node.id
    ensures |elem| == |links| && elem[c.id] == links[c.id] && Distinct(c.kids)
  {
    OutermostAbove(c, up);
    ChainInRange(links, c, ParentOf(up));
  }

  lemma ReleaseStart(elem: Elems, deleted: nat, c: Content, parent: nat)
    requires c.Elem? && Distinct(c) && parent !in Ids(c) && parent < |elem| && Chain(elem, c, parent)
    ensures InRange(c, |elem|) && Releasing(elem, elem, {}, c, Root(parent), c.id) && InPath(c, Root(parent), |elem|)
    ensures ReleaseNode(Pool(elem, deleted), c) == ReleaseUp(ReleaseList(Pool(elem, deleted), c.kids), c, Root(parent))
  {
    ChainInRange(elem, c, parent);
  }

  /** One step of the walk down: from an element to its first child. */
  lemma ReleaseDown(links: Elems, p: Pool, gone: set<nat>, c: Content, up: Path, top: nat)
    requires Releasing(links, p.elem, gone, c, up, top) && Ids(c.kids) !! gone && FirstId(c.kids) != 0
    ensures var k := Skip(c.kids);
            && k.Elem? && k.id == FirstId(c.kids) && Releasing(links, p.elem, gone, k, Under(c, up), top) && Ids(k.kids) !! gone
            && InRange(c.kids, |p.elem|) && InRange(k.kids, |p.elem|) && InPath(c, up, |p.elem|) && InPath(k, Under(c, up), |p.elem|)
            && ReleaseUp(ReleaseList(p, c.kids), c, up) == ReleaseUp(ReleaseList(p, k.kids), k, Under(c, up))
            && Weight(c.kids) + Left(c, up) > Weight(k.kids) + Left(k, Under(c, up))
  {
    SkipFacts(links, c.kids, c.id, p.elem, 0);
    SkipTight(c.kids);
    SkipRelease(p, c.kids);
  }

  /** An element without children has no descendants to release. */
  lemma NoRelease(p: Pool, c: Content)
    requires InRange(c, |p.elem|) && FirstId(c) == 0 && Distinct(c)
    ensures ReleaseList(p, c) == p
  {
    SkipRelease(p, c);
  }

  lemma {:induction false} SkipRelease(p: Pool, c: Content)
    requires InRange(c, |p.elem|)
    ensures InRange(Skip(c), |p.elem|) && ReleaseList(p, Skip(c)) == ReleaseList(p, c)
    ensures FirstId(c) == 0 && Distinct(c) ==> ReleaseList(p, c) == p
  {
    match c
    case Mark(_, _, r) => SkipRelease(p, r);
    case _ =>
  }

  /** One round of the inner loop: an element is released after its descendants, and the walk goes
      on to the element around it when it has no next sibling. */
  lemma ReleaseStep(links: Elems, p: Pool, gone: set<nat>, c: Content, up: Path, top: nat, q: Pool)
    requires Releasing(links, p.elem, gone, c, up, top) && c.id < |p.elem| && q == Pool(Released(p.elem, p.deleted, c.id), c.id)
    ensures InPath(c, up, |p.elem|) && |q.elem| == |p.elem|
    ensures up.Root? ==> ReleaseUp(p, c, up) == q
    ensures up.Under? && FirstId(c.rest) == 0 ==>
              && Releasing(links, q.elem, gone + {c.id}, up.node, up.up, top) && InPath(up.node, up.up, |q.elem|)
              && ReleaseUp(p, c, up) == ReleaseUp(q, up.node, up.up) && Left(c, up) > Left(up.node, up.up)
  {
    ReleaseStepFacts(links, p, gone, c, up, top);
    SkipFacts(links, c.rest, ParentOf(up), q.elem, 0);
    SkipRelease(q, c.rest);
  }

  /** And to the next sibling, `k`, when it has one. */
  lemma ReleaseNext(links: Elems, p: Pool, gone: set<nat>, c: Content, up: Path, top: nat, q: Pool, k: Content)
    requires Releasing(links, p.elem, gone, c, up, top) && c.id < |p.elem| && q == Pool(Released(p.elem, p.deleted, c.id), c.id)
    requires up.Under? && FirstId(c.rest) != 0 && k == Skip(c.rest)
    ensures InPath(c, up, |p.elem|) && |q.elem| == |p.elem| && k.Elem? && k.id == FirstId(c.rest)
    ensures Releasing(links, q.elem, gone + {c.id}, k, up, top) && Ids(k.kids) !! (gone + {c.id})
    ensures InRange(k.kids, |q.elem|) && InPath(k, up, |q.elem|)
    ensures ReleaseUp(p, c, up) == ReleaseUp(ReleaseList(q, k.kids), k, up) && Left(c, up) > Weight(k.kids) + Left(k, up)
  {
    hide Skip;
    ReleaseStepFacts(links, p, gone, c, up, top);
    SkipFacts(links, c.rest, ParentOf(up), q.elem, 0);
    SkipTight(c.rest);
    SkipRelease(q, c.rest);
  }

  lemma ReleaseStepFacts(links: Elems, p: Pool, gone: set<nat>, c: Content, up: Path, top: nat)
    requires Releasing(links, p.elem, gone, c, up, top) && c.id < |p.elem|
    ensures Intact(Released(p.elem, p.deleted, c.id), links, gone + {c.id})
    ensures Ids(c.rest) !! (gone + {c.id})
    ensures up.Under? ==> up.node.Elem? && Fresh(gone + {c.id}, up.node, up.up)
  {
    if up.Under? {
      StayFresh(gone, c.id, up.node, up.up);
    }
  }

  // ---- What a release does ----

  /** The list of deleted slots that starts at `d`: the slots of `s` in order, then `tail`. */
  predicate DeletedList(elem: Elems, d: nat, s: seq<nat>, tail: nat)
    decreases |s|
  {
    if s == [] then d == tail
    else d == s[0] && d < |elem| && elem[d].deleted && DeletedList(elem, elem[d].next, s[1..], tail)
  }

  function Reverse(s: seq<nat>): (r: seq<nat>)
    ensures |r| == |s| && forall i :: 0 <= i < |s| ==> r[i] == s[|s| - 1 - i]
  {
    seq(|s|, i requires 0 <= i < |s| => s[|s| - 1 - i])
  }

  lemma {:induction false} FreeListFrame(a: Elems, b: Elems, d: nat, s: seq<nat>, tail: nat)
    requires DeletedList(a, d, s, tail) && |a| == |b| && forall i :: i in s && i < |a| ==> b[i] == a[i]
    ensures DeletedList(b, d, s, tail)
    decreases |s|
  {
    if s != [] {
      assert s[0] in s;
      FreeListFrame(a, b, a[d].next, s[1..], tail);
    }
  }

  lemma {:induction false} FreeListConcat(elem: Elems, d: nat, s: seq<nat>, m: nat, u: seq<nat>, tail: nat)
    requires DeletedList(elem, d, s, m) && DeletedList(elem, m, u, tail)
    ensures DeletedList(elem, d, s + u, tail)
    decreases |s|
  {
    if s == [] {
      assert s + u == u;
    } else {
      FreeListConcat(elem, elem[d].next, s[1..], m, u, tail);
      assert (s + u)[1..] == s[1..] + u;
    }
  }

  lemma {:induction false} PostOrderIds(c: Content)
    ensures forall i :: i in PostOrder(c) <==> i in Ids(c)
  {
    match c
    case End(_) =>
    case Mark(_, _, r) => PostOrderIds(r);
    case Elem(_, _, _, k, _, r) => PostOrderIds(k); PostOrderIds(r);
  }

  /** Releasing a list marks exactly its slots and leaves all others alone. */
  lemma {:induction false} ReleaseListAt(p: Pool, c: Content, i: nat)
    requires InRange(c, |p.elem|) && Distinct(c) && i < |p.elem|
    ensures var e := ReleaseList(p, c).elem[i];
            if i in Ids(c) then e == Released(p.elem, e.next, i)[i] else e == p.elem[i]
    decreases c
  {
    match c
    case End(_) =>
    case Mark(_, _, r) => ReleaseListAt(p, r, i);
    case Elem(_, id, _, k, _, r) =>
      var q := ReleaseList(p, k);
      ReleaseListAt(p, k, i);
      ReleaseListAt(Pool(Released(q.elem, q.deleted, id), id), r, i);
  }

  lemma FreeNone(p: Pool)
    ensures DeletedList(p.elem, p.deleted, Reverse([]), p.deleted)
  {
  }

  lemma FreeFirst(q: Pool, id: nat, s: seq<nat>, tail: nat)
    requires DeletedList(q.elem, q.deleted, s, tail) && id < |q.elem| && id !in s
    ensures DeletedList(Released(q.elem, q.deleted, id), id, [id] + s, tail)
  {
    var e := Released(q.elem, q.deleted, id);
    FreeListFrame(q.elem, e, q.deleted, s, tail);
    assert ([id] + s)[1..] == s;
  }

  lemma FreeListKept(m: Pool, r: Content, s: seq<nat>, tail: nat)
    requires InRange(r, |m.elem|) && Distinct(r) && DeletedList(m.elem, m.deleted, s, tail) && forall i :: i in s ==> i !in Ids(r)
    ensures DeletedList(ReleaseList(m, r).elem, m.deleted, s, tail)
  {
    hide DeletedList;
    var z := ReleaseList(m, r);
    forall i | i in s && i < |m.elem| ensures z.elem[i] == m.elem[i] {
      ReleaseListAt(m, r, i);
    }
    FreeListFrame(m.elem, z.elem, m.deleted, s, tail);
  }

  /** The released slots stand in front of the older ones in the reverse of the release order. */
  lemma {:induction false} ReleaseListOrder(p: Pool, c: Content)
    requires InRange(c, |p.elem|) && Distinct(c)
    ensures DeletedList(ReleaseList(p, c).elem, ReleaseList(p, c).deleted, Reverse(PostOrder(c)), p.deleted)
    decreases c
  {
    hide DeletedList, Released;
    match c
    case End(_) => FreeNone(p);
    case Mark(_, _, r) => ReleaseListOrder(p, r);
    case Elem(_, id, _, k, _, r) =>
      var q := ReleaseList(p, k);
      var m := Pool(Released(q.elem, q.deleted, id), id);
      var z := ReleaseList(m, r);
      ReleaseListOrder(p, k);
      ReleaseListOrder(m, r);
      var s := [id] + Reverse(PostOrder(k));
      PostOrderIds(k);
      FreeFirst(q, id, Reverse(PostOrder(k)), p.deleted);
      FreeListKept(m, r, s, p.deleted);
      FreeListConcat(z.elem, z.deleted, Reverse(PostOrder(r)), id, s, p.deleted);
      assert Reverse(PostOrder(c)) == Reverse(PostOrder(r)) + s;
  }

  // ---- Inserting into and removing from a list of children ----

  function InsertAt(s: seq<nat>, j: nat, i: nat): seq<nat>
    requires j <= |s|
  {
    s[..j] + [i] + s[j..]
  }

  function RemoveAt(s: seq<nat>, j: nat): seq<nat>
    requires j < |s|
  {
    s[..j] + s[j + 1..]
  }

  /** A record in which only the sibling links may have changed. */
  predicate SiblingLinksOnly(a: ElemPos, b: ElemPos) {
    b == a.(next := b.next, prev := b.prev, first := b.first)
  }

  /** Outside the children of `p` and the slot `i` nothing changed, `p` itself changed its
      first-child link only, and its children their sibling links only. */
  ghost predicate Relinked(a: Elems, b: Elems, p: nat, s: seq<nat>, i: nat) {
    && |a| == |b| && p < |a|
    && (forall j :: 0 <= j < |a| && j != p && j != i && j !in s ==> b[j] == a[j])
    && b[p] == a[p].(child := b[p].child)
    && (forall j :: 0 <= j < |a| && j in s && j != i ==> SiblingLinksOnly(a[j], b[j]))
  }

  /** `x_LinkElem` behind `b`, slot by slot: `b` points forward to `id`, and back to it points the
      next sibling, or the first child when `b` was the last. */
  function LinkedAfter(elem: Elems, p: nat, b: nat, id: nat, i: nat): ElemPos
    requires p < |elem| && b < |elem| && i < |elem|
  {
    var x := if elem[b].next != 0 then elem[b].next else elem[p].child;
    if i == id then elem[id].(parent := p, first := false, next := elem[b].next, prev := b)
    else elem[i].(next := if i == b then id else elem[i].next, prev := if i == x then id else elem[i].prev)
  }

  /** The same as the four updates the code makes. */
  function LinkSteps(elem: Elems, p: nat, b: nat, id: nat): Elems
    requires p < |elem| && b < |elem| && id < |elem| && elem[b].next < |elem| && elem[p].child < |elem|
  {
    var x := if elem[b].next != 0 then elem[b].next else elem[p].child;
    var e1 := elem[id := elem[id].(parent := p, first := false, next := elem[b].next)];
    var e2 := e1[x := e1[x].(prev := id)];
    var e3 := e2[b := e2[b].(next := id)];
    e3[id := e3[id].(prev := b)]
  }

  lemma LinkStepsAt(elem: Elems, p: nat, b: nat, id: nat, i: nat)
    requires p < |elem| && b < |elem| && id < |elem| && elem[b].next < |elem| && elem[p].child < |elem|
    requires id != p && id != b && id != elem[b].next && id != elem[p].child && i < |elem|
    ensures LinkSteps(elem, p, b, id)[i] == LinkedAfter(elem, p, b, id, i)
  {
    if i == id { LinkStepsNew(elem, p, b, id); } else { LinkStepsOld(elem, p, b, id, i); }
  }

  lemma LinkStepsNew(elem: Elems, p: nat, b: nat, id: nat)
    requires p < |elem| && b < |elem| && id < |elem| && elem[b].next < |elem| && elem[p].child < |elem|
    requires id != p && id != b && id != elem[b].next && id != elem[p].child
    ensures LinkSteps(elem, p, b, id)[id] == LinkedAfter(elem, p, b, id, id)
  {
  }

  lemma LinkStepsOld(elem: Elems, p: nat, b: nat, id: nat, i: nat)
    requires p < |elem| && b < |elem| && id < |elem| && elem[b].next < |elem| && elem[p].child < |elem|
    requires id != p && id != b && id != elem[b].next && id != elem[p].child && i < |elem| && i != id
    ensures LinkSteps(elem, p, b, id)[i] == LinkedAfter(elem, p, b, id, i)
  {
    var x := if elem[b].next != 0 then elem[b].next else elem[p].child;
    var e1 := elem[id := elem[id].(parent := p, first := false, next := elem[b].next)];
    var e2 := e1[x := e1[x].(prev := id)];
    assert e2[i] == if i == x then elem[i].(prev := id) else elem[i];
  }

  lemma LinkStepsAll(elem: Elems, p: nat, b: nat, id: nat)
    requires p < |elem| && b < |elem| && id < |elem| && elem[b].next < |elem| && elem[p].child < |elem|
    requires id != p && id != b && id != elem[b].next && id != elem[p].child
    ensures var e := LinkSteps(elem, p, b, id); |e| == |elem| && forall i :: 0 <= i < |elem| ==> e[i] == LinkedAfter(elem, p, b, id, i)
  {
    hide LinkedAfter;
    forall i | 0 <= i < |elem| ensures LinkSteps(elem, p, b, id)[i] == LinkedAfter(elem, p, b, id, i) {
      LinkStepsAt(elem, p, b, id, i);
    }
  }

  /** `x_LinkElem` as first child, slot by slot. */
  function LinkedFirst(elem: Elems, p: nat, id: nat, i: nat): ElemPos
    requires p < |elem| && elem[p].child < |elem| && i < |elem|
  {
    var x := elem[p].child;
    if i == id then elem[id].(parent := p, first := true, next := x, prev := if x == 0 then id else elem[x].prev)
    else if i == p then elem[p].(child := id)
    else if i == x && x != 0 then elem[x].(prev := id, first := !elem[x].first)
    else elem[i]
  }

  lemma NoDupAt(s: seq<nat>, i: nat, j: nat)
    requires DistinctSlots(s) && i < |s| && j < |s|
    ensures s[i] == s[j] <==> i == j
    ensures s[i] != 0 && s[j] != 0
  {
  }

  /** The conditions under which `id` is linked in below `p` at place `j`. */
  ghost predicate CanLink(elem: Elems, p: nat, s: seq<nat>, j: nat, id: nat) {
    ListOk(elem, p, s) && DistinctSlots(s) && p !in s && id !in s && id != 0 && id != p && id < |elem| && j <= |s|
  }

  lemma LinkAfterAt(elem: Elems, p: nat, s: seq<nat>, j: nat, id: nat, k: nat)
    requires CanLink(elem, p, s, j, id) && 0 < j && s[j - 1] < |elem| && k <= |s|
    ensures var s' := InsertAt(s, j, id);
            s'[k] < |elem| && LinksOk(LinkedAfter(elem, p, s[j - 1], id, s'[k]), p, s', k)
  {
    hide ListOk, DistinctSlots;
    ListOkAt(elem, p, s, j - 1);
    NoDupAt(s, 0, j - 1);
    if j < |s| { NoDupAt(s, j, j); }
    if k != j {
      var h := if k < j then k else k - 1;
      ListOkAt(elem, p, s, h);
      NoDupAt(s, h, j - 1);
      NoDupAt(s, h, if j < |s| then j else 0);
    }
  }

  lemma ListOkAt(elem: Elems, p: nat, s: seq<nat>, j: nat)
    requires ListOk(elem, p, s) && j < |s|
    ensures s[j] < |elem| && LinksOk(elem[s[j]], p, s, j) && p < |elem| && elem[p].child == s[0]
  {
  }

  lemma LinkAfterOk(elem: Elems, elem': Elems, p: nat, s: seq<nat>, j: nat, id: nat)
    requires CanLink(elem, p, s, j, id) && |elem'| == |elem| && 0 < j && s[j - 1] < |elem|
    requires forall i :: 0 <= i < |elem| ==> elem'[i] == LinkedAfter(elem, p, s[j - 1], id, i)
    ensures ListOk(elem', p, InsertAt(s, j, id)) && Relinked(elem, elem', p, s, id)
  {
    hide LinksOk;
    var s' := InsertAt(s, j, id);
    forall k | 0 <= k < |s'| ensures s'[k] < |elem'| && LinksOk(elem'[s'[k]], p, s', k) {
      LinkAfterAt(elem, p, s, j, id, k);
    }
    LinkAfterFrame(elem, p, s, j, id);
  }

  lemma LinkAfterFrame(elem: Elems, p: nat, s: seq<nat>, j: nat, id: nat)
    requires CanLink(elem, p, s, j, id) && 0 < j && s[j - 1] < |elem|
    ensures forall i :: 0 <= i < |elem| && i != id && i !in s ==> LinkedAfter(elem, p, s[j - 1], id, i) == elem[i]
  {
    ListOkAt(elem, p, s, j - 1);
    ListOkAt(elem, p, s, 0);
  }

  lemma ListChild(elem: Elems, p: nat, s: seq<nat>)
    requires ListOk(elem, p, s)
    ensures p < |elem| && elem[p].child == if s == [] then 0 else s[0]
  {
  }

  lemma LinkFirstAt(elem: Elems, p: nat, s: seq<nat>, id: nat, k: nat)
    requires CanLink(elem, p, s, 0, id) && elem[p].child < |elem| && k <= |s|
    ensures var s' := InsertAt(s, 0, id);
            s'[k] < |elem| && LinksOk(LinkedFirst(elem, p, id, s'[k]), p, s', k)
  {
    hide ListOk, DistinctSlots;
    ListChild(elem, p, s);
    if s != [] {
      ListOkAt(elem, p, s, 0);
      NoDupAt(s, 0, 0);
    }
    if k > 0 {
      ListOkAt(elem, p, s, k - 1);
      NoDupAt(s, 0, k - 1);
      assert s[k - 1] in s;
    }
  }

  lemma LinkFirstOk(elem: Elems, elem': Elems, p: nat, s: seq<nat>, id: nat)
    requires CanLink(elem, p, s, 0, id) && |elem'| == |elem| && elem[p].child < |elem|
    requires forall i :: 0 <= i < |elem| ==> elem'[i] == LinkedFirst(elem, p, id, i)
    ensures ListOk(elem', p, InsertAt(s, 0, id)) && Relinked(elem, elem', p, s, id)
  {
    hide LinksOk, DistinctSlots;
    var s' := InsertAt(s, 0, id);
    forall k | 0 <= k < |s'| ensures s'[k] < |elem'| && LinksOk(elem'[s'[k]], p, s', k) {
      LinkFirstAt(elem, p, s, id, k);
    }
  }

  /** `x_UnlinkElem` without the release, slot by slot. */
  function Bypassed(elem: Elems, t: nat, i: nat): ElemPos
    requires t < |elem| && i < |elem| && elem[t].parent < |elem|
  {
    var e := elem[t];
    var f := elem[e.parent].child;
    if e.first then
      if i == e.parent then elem[i].(child := e.next)
      else if i == e.next && e.next != 0 then elem[i].(prev := e.prev, first := true)
      else elem[i]
    else
      elem[i].(next := if i == e.prev then e.next else elem[i].next,
               prev := if i == (if e.next != 0 then e.next else f) then e.prev else elem[i].prev)
  }

  lemma BypassAt(elem: Elems, p: nat, s: seq<nat>, j: nat, k: nat)
    requires ListOk(elem, p, s) && DistinctSlots(s) && p !in s && j < |s| && k + 1 < |s|
    requires s[j] < |elem| && elem[s[j]].parent < |elem|
    ensures var s' := RemoveAt(s, j);
            s'[k] < |elem| && LinksOk(Bypassed(elem, s[j], s'[k]), p, s', k)
  {
    hide ListOk, DistinctSlots;
    ListOkAt(elem, p, s, j);
    var h := if k < j then k else k + 1;
    ListOkAt(elem, p, s, h);
    NoDupAt(s, h, j);
    NoDupAt(s, h, 0);
    if j > 0 { NoDupAt(s, h, j - 1); }
    if j + 1 < |s| { NoDupAt(s, j, j + 1); NoDupAt(s, h, j + 1); }
    var s' := RemoveAt(s, j);
    assert s'[k] == s[h] && s[h] in s;
    assert s'[|s'| - 1] == s[if j + 1 < |s| then |s| - 1 else |s| - 2];
    if k > 0 { assert s'[k - 1] == s[if k - 1 < j then k - 1 else k]; }
    if k + 1 < |s'| { assert s'[k + 1] == s[if k + 1 < j then k + 1 else k + 2]; }
  }

  lemma BypassOk(elem: Elems, elem': Elems, p: nat, s: seq<nat>, j: nat)
    requires ListOk(elem, p, s) && DistinctSlots(s) && p !in s && j < |s| && |elem'| == |elem|
    requires s[j] < |elem| && elem[s[j]].parent < |elem|
    requires forall i :: 0 <= i < |elem| ==> elem'[i] == Bypassed(elem, s[j], i)
    ensures ListOk(elem', p, RemoveAt(s, j)) && Relinked(elem, elem', p, s, s[j]) && elem'[s[j]] == elem[s[j]]
  {
    hide LinksOk;
    var s' := RemoveAt(s, j);
    forall k | 0 <= k < |s'| ensures s'[k] < |elem'| && LinksOk(elem'[s'[k]], p, s', k) {
      BypassAt(elem, p, s, j, k);
    }
    BypassFrame(elem, p, s, j);
  }

  lemma BypassFrame(elem: Elems, p: nat, s: seq<nat>, j: nat)
    requires ListOk(elem, p, s) && DistinctSlots(s) && p !in s && j < |s|
    requires s[j] < |elem| && elem[s[j]].parent < |elem|
    ensures elem[s[j]].parent == p && Bypassed(elem, s[j], p) == elem[p].(child := if j > 0 then s[0] else if |s| > 1 then s[1] else 0)
    ensures Bypassed(elem, s[j], s[j]) == elem[s[j]]
    ensures forall i :: 0 <= i < |elem| && i != p && i !in s ==> Bypassed(elem, s[j], i) == elem[i]
  {
    hide DistinctSlots;
    BypassTwo(elem, p, s, j);
    forall i | 0 <= i < |elem| && i != p && i !in s ensures Bypassed(elem, s[j], i) == elem[i] {
      BypassOther(elem, p, s, j, i);
    }
  }

  lemma BypassTwo(elem: Elems, p: nat, s: seq<nat>, j: nat)
    requires ListOk(elem, p, s) && DistinctSlots(s) && p !in s && j < |s|
    requires s[j] < |elem| && elem[s[j]].parent < |elem|
    ensures elem[s[j]].parent == p && Bypassed(elem, s[j], p) == elem[p].(child := if j > 0 then s[0] else if |s| > 1 then s[1] else 0)
    ensures Bypassed(elem, s[j], s[j]) == elem[s[j]]
  {
    hide DistinctSlots, ListOk;
    ListOkAt(elem, p, s, j);
    ListOkAt(elem, p, s, 0);
    assert elem[p].child == s[0] by { ListFirst(elem, p, s); }
    NoDupAt(s, 0, j);
    if j > 0 { NoDupAt(s, j - 1, j); }
    if j + 1 < |s| { NoDupAt(s, j, j + 1); }
  }

  lemma ListFirst(elem: Elems, p: nat, s: seq<nat>)
    requires ListOk(elem, p, s) && s != []
    ensures p < |elem| && elem[p].child == s[0]
  {
  }

  lemma BypassOther(elem: Elems, p: nat, s: seq<nat>, j: nat, i: nat)
    requires ListOk(elem, p, s) && DistinctSlots(s) && j < |s| && i < |elem| && i != p && i !in s
    requires s[j] < |elem| && elem[s[j]].parent < |elem|
    ensures Bypassed(elem, s[j], i) == elem[i]
  {
    hide DistinctSlots, ListOk;
    ListOkAt(elem, p, s, j);
    assert elem[p].child == s[0] by { ListFirst(elem, p, s); }
  }

  /** Setting the level of the new element changes no list. */
  lemma LinkLevel(a: Elems, elem: Elems, p: nat, s': seq<nat>, s: seq<nat>, id: nat)
    requires ListOk(elem, p, s') && id < |elem| && p < |elem| && Relinked(a, elem, p, s, id) && id != p
    ensures var e := elem[id := elem[id].(level := elem[p].level + 1)];
            ListOk(e, p, s') && Relinked(a, e, p, s, id) && elem[p].level == a[p].level
  {
    var e := elem[id := elem[id].(level := elem[p].level + 1)];
    forall j | 0 <= j < |s'| ensures s'[j] < |e| && LinksOk(e[s'[j]], p, s', j) {
      assert LinksOk(elem[s'[j]], p, s', j);
    }
  }

  /** The record of the new element. */
  lemma LinkAfterNew(elem: Elems, p: nat, b: nat, id: nat)
    requires p < |elem| && b < |elem| && id < |elem|
    ensures var f := LinkedAfter(elem, p, b, id, id); f == elem[id].(parent := p, next := f.next, prev := f.prev, first := f.first)
  {
  }

  lemma LinkFirstNew(elem: Elems, p: nat, id: nat)
    requires p < |elem| && id < |elem| && elem[p].child < |elem|
    ensures var f := LinkedFirst(elem, p, id, id); f == elem[id].(parent := p, next := f.next, prev := f.prev, first := f.first)
  {
  }

  lemma LinkReady(elem: Elems, p: nat, s: seq<nat>, j: nat, id: nat)
    requires CanLink(elem, p, s, j, id)
    ensures p < |elem| && elem[p].child < |elem| && id != elem[p].child && (elem[p].child != 0 ==> p != elem[p].child)
    ensures s != [] ==> s[0] < |elem|
    ensures id != p && id < |elem| && j <= |s|
    ensures j > 0 ==> s[j - 1] != 0 && s[j - 1] < |elem| && id != s[j - 1] && elem[s[j - 1]].next < |elem| && id != elem[s[j - 1]].next
  {
    if s != [] { ListOkAt(elem, p, s, 0); }
    if j > 0 { ListOkAt(elem, p, s, j - 1); }
    if 0 < j < |s| { ListOkAt(elem, p, s, j); }
  }

  lemma UnlinkReady(elem: Elems, p: nat, s: seq<nat>, j: nat)
    requires ListOk(elem, p, s) && DistinctSlots(s) && p !in s && j < |s|
    ensures s[j] < |elem| && p < |elem| && elem[s[j]].parent == p && elem[s[j]].next < |elem| && elem[s[j]].prev < |elem|
    ensures elem[p].child < |elem| && s[j] != p && elem[s[j]].next != s[j] && (elem[s[j]].next != 0 ==> elem[s[j]].next != p)
    ensures if elem[s[j]].first then j == 0 else j > 0 && elem[s[j]].prev == s[j - 1] && elem[s[j]].prev != s[j] && elem[p].child != s[j] && elem[s[j]].prev != p
  {
    hide ListOk, DistinctSlots;
    ListOkAt(elem, p, s, 0);
    ListOkAt(elem, p, s, j);
    NoDupAt(s, 0, j);
    if j > 0 { ListOkAt(elem, p, s, j - 1); NoDupAt(s, j - 1, j); }
    if j + 1 < |s| { ListOkAt(elem, p, s, j + 1); NoDupAt(s, j, j + 1); }
    ListOkAt(elem, p, s, |s| - 1);
    assert s[0] in s && s[j] in s;
  }

  lemma {:induction false} ChainFrame(a: Elems, b: Elems, c: Content, p: nat)
    requires Chain(a, c, p) && |a| == |b|
    requires forall i :: i in Ids(c) && i < |a| ==>
               b[i].parent == a[i].parent && b[i].child == a[i].child && b[i].next == a[i].next && b[i].startTagLen == a[i].startTagLen
    ensures Chain(b, c, p)
  {
    match c
    case End(_) =>
    case Mark(_, _, r) => ChainFrame(a, b, r, p);
    case Elem(_, id, _, k, _, r) =>
      assert id in Ids(c);
      ChainFrame(a, b, k, id);
      ChainFrame(a, b, r, p);
  }

  /** The list from `t` on keeps its links while `t` is linked around. */
  lemma BypassChain(elem: Elems, elem': Elems, p: nat, c: Content)
    requires c.Elem? && Chain(elem, c, p) && p !in Ids(c) && |elem'| == |elem| && p < |elem|
    requires !elem[c.id].first ==> elem[c.id].prev !in Ids(c)
    requires forall i :: 0 <= i < |elem| ==> elem'[i] == Bypassed(elem, c.id, i)
    ensures Chain(elem', c, p)
  {
    ChainFrame(elem, elem', c, p);
  }

  // ---- Appending ----

  /** The record of `x` without flags and level. */
  function Unmarked(elem: Elems, x: nat): (r: Elems)
    requires x < |elem|
    ensures |r| == |elem|
  {
    elem[x := elem[x].(first := false, illFormed := false, illData := false, nonEnded := false, deleted := false, level := 0)]
  }

  lemma InsertEnd(s: seq<nat>, x: nat)
    ensures InsertAt(s, |s|, x) == s + [x]
  {
  }

  /** The last element of a list, as the code finds it. */
  lemma LastLink(elem: Elems, p: nat, s: seq<nat>, x: nat)
    requires CanLink(elem, p, s, |s|, x)
    ensures elem[p].child == (if s == [] then 0 else s[0]) && CanLink(Unmarked(elem, x), p, s, |s|, x)
    ensures s != [] ==> elem[p].child < |elem| && elem[elem[p].child].prev == s[|s| - 1] && s[|s| - 1] < |elem|
    ensures s != [] ==> elem[p].child != 0 && elem[s[|s| - 1]].next == 0 && x != s[0] && x != s[|s| - 1] && p != s[0] && p != s[|s| - 1]
  {
    hide DistinctSlots;
    ListFrameAt(elem, p, s, x);
    ListChild(elem, p, s);
    if s != [] {
      ListOkAt(elem, p, s, 0);
      ListOkAt(elem, p, s, |s| - 1);
      NoDupAt(s, 0, |s| - 1);
      assert s[0] in s && s[|s| - 1] in s;
    }
  }

  lemma ListFrameAt(elem: Elems, p: nat, s: seq<nat>, x: nat)
    requires CanLink(elem, p, s, |s|, x)
    ensures ListOk(Unmarked(elem, x), p, s)
  {
    forall j | 0 <= j < |s| ensures s[j] < |elem| && LinksOk(Unmarked(elem, x)[s[j]], p, s, j) {
      assert s[j] in s && LinksOk(elem[s[j]], p, s, j);
    }
  }

  lemma UnmarkedRelinked(a: Elems, m: Elems, b: Elems, p: nat, s: seq<nat>, x: nat)
    requires x < |a| && m == Unmarked(a, x) && Relinked(m, b, p, s, x) && x != p
    ensures Relinked(a, b, p, s, x) && |b| == |a|
  {
  }

  lemma UnmarkedIs(elem: Elems, x: nat, p: nat, s: seq<nat>)
    requires x < |elem| && p < |elem| && x != p
    ensures var e := Unmarked(elem, x)[x]; e.level == 0 && !e.nonEnded && !e.deleted
    ensures Unmarked(elem, x)[p] == elem[p]
  {
  }
}
