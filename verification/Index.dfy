/** The element index: `ElemPos` records in a flat array, the links and offsets in them, and what
    it means that they describe a piece of content. */
module Index {
  import opened Content

  /** `ElemPos`.  The flags and the level share one word in C++; here each has its own field. */
  datatype ElemPos = ElemPos(
    nStart: int, nLength: int, startTagLen: int, endTagLen: int, level: int,
    first: bool, illFormed: bool, illData: bool, nonEnded: bool, deleted: bool,
    parent: nat, child: nat, next: nat, prev: nat)
  {
    function StartContent(): int { nStart + startTagLen }
    function ContentLen(): int { nLength - startTagLen - endTagLen }
    function StartAfter(): int { nStart + nLength }
    predicate IsEmptyElement() { startTagLen == nLength }
  }

  const BLANK := ElemPos(0, 0, 0, 0, 0, false, false, false, false, false, 0, 0, 0, 0)

  type Elems = seq<ElemPos>

  // ---- The slots of a piece of content ----

  function FirstId(c: Content): nat {
    match c
    case End(_) => 0
    case Mark(_, _, r) => FirstId(r)
    case Elem(_, id, _, _, _, _) => id
  }

  /** The slot of the last element of a sibling list, or `d` when it has none. */
  function LastId(c: Content, d: nat): nat {
    match c
    case End(_) => d
    case Mark(_, _, r) => LastId(r, d)
    case Elem(_, id, _, _, _, r) => LastId(r, id)
  }

  /** The slots of all elements, at every depth. */
  function Ids(c: Content): set<nat> {
    match c
    case End(_) => {}
    case Mark(_, _, r) => Ids(r)
    case Elem(_, id, _, k, _, r) => {id} + Ids(k) + Ids(r)
  }

  /** No slot is used twice, and slot 0 is left to the virtual parent. */
  predicate Distinct(c: Content) {
    match c
    case End(_) => true
    case Mark(_, _, r) => Distinct(r)
    case Elem(_, id, _, k, _, r) =>
      id != 0 && id !in Ids(k) && id !in Ids(r) && Ids(k) !! Ids(r) && Distinct(k) && Distinct(r)
  }

  // ---- Links ----

  /** Parent, first-child and next links of a sibling list under `p`, at every depth; every
      element has a start tag. */
  predicate Chain(elem: Elems, c: Content, p: nat) {
    match c
    case End(_) => true
    case Mark(_, _, r) => Chain(elem, r, p)
    case Elem(_, id, _, k, _, r) =>
      && id != 0 && id < |elem| && elem[id].startTagLen != 0
      && elem[id].parent == p && elem[id].child == FirstId(k) && elem[id].next == FirstId(r)
      && Chain(elem, k, id) && Chain(elem, r, p)
  }

  /** The slots of one sibling list in order. */
  function TopSeq(c: Content): seq<nat> {
    match c
    case End(_) => []
    case Mark(_, _, r) => TopSeq(r)
    case Elem(_, id, _, _, _, r) => [id] + TopSeq(r)
  }

  /** The children of `p`, in order, are linked both ways: the previous link of the first child
      points to the last one, and only the first child carries the first mark. */
  predicate ListOk(elem: Elems, p: nat, s: seq<nat>) {
    && p < |elem| && elem[p].child == (if s == [] then 0 else s[0])
    && forall j :: 0 <= j < |s| ==> s[j] < |elem| && LinksOk(elem[s[j]], p, s, j)
  }

  predicate LinksOk(e: ElemPos, p: nat, s: seq<nat>, j: nat)
    requires j < |s|
  {
    && e.parent == p && e.first == (j == 0)
    && e.next == (if j + 1 < |s| then s[j + 1] else 0)
    && e.prev == (if j > 0 then s[j - 1] else s[|s| - 1])
  }

  /** The children of every element of `c` are linked. */
  predicate Deep(elem: Elems, c: Content) {
    match c
    case End(_) => true
    case Mark(_, _, r) => Deep(elem, r)
    case Elem(_, id, _, k, _, r) =>
      id < |elem| && 0 < elem[id].startTagLen && ListOk(elem, id, TopSeq(k)) && Deep(elem, k) && Deep(elem, r)
  }

  /** The links of a whole document. */
  predicate Linked(elem: Elems, c: Content) {
    ListOk(elem, 0, TopSeq(c)) && Deep(elem, c)
  }

  // ---- Offsets ----

  /** The record of one element: where it starts, how long it and its tags are, its level. */
  predicate Placed(e: ElemPos, c: Content, off: int, lvl: int)
    requires c.Elem?
  {
    && e.nStart == off + |c.text| && e.nLength == |c.stag| + Len(c.kids) + |c.etag|
    && e.startTagLen == |c.stag| && e.endTagLen == |c.etag|
    && e.level == lvl && !e.nonEnded && !e.deleted
  }

  /** The records of all elements of content that begins at offset `off`. */
  predicate Offsets(elem: Elems, c: Content, off: int, lvl: int) {
    match c
    case End(_) => true
    case Mark(t, m, r) => Offsets(elem, r, off + |t| + |m|, lvl)
    case Elem(t, id, s, k, e, r) =>
      && id < |elem| && Placed(elem[id], c, off, lvl)
      && Offsets(elem, k, off + |t| + |s|, lvl + 1)
      && Offsets(elem, r, off + |t| + |s| + Len(k) + |e|, lvl)
  }

  // ---- x_Adjust ----

  function AddStart(elem: Elems, i: nat, s: int): (r: Elems)
    requires i < |elem|
    ensures |r| == |elem|
  {
    elem[i := elem[i].(nStart := elem[i].nStart + s)]
  }

  function AddLength(elem: Elems, i: nat, s: int): (r: Elems)
    requires i < |elem|
    ensures |r| == |elem|
  {
    elem[i := elem[i].(nLength := elem[i].nLength + s)]
  }

  predicate InRange(c: Content, n: nat) {
    match c
    case End(_) => true
    case Mark(_, _, r) => InRange(r, n)
    case Elem(_, id, _, k, _, r) => id < n && InRange(k, n) && InRange(r, n)
  }

  /** Every element of `c` starts `s` later. */
  function ShiftAll(elem: Elems, c: Content, s: int): (r: Elems)
    requires InRange(c, |elem|)
    ensures |r| == |elem|
    decreases c
  {
    match c
    case End(_) => elem
    case Mark(_, _, r) => ShiftAll(elem, r, s)
    case Elem(_, id, _, k, _, r) => ShiftAll(ShiftAll(AddStart(elem, id, s), k, s), r, s)
  }

  /** The effect of an edit at element `t` on the index, over the sibling list that leads to `t`:
      what follows `t` starts `s` later (its descendants only when the edit precedes them), and
      the elements around it become `s` longer. */
  function AdjustIn(elem: Elems, c: Content, t: nat, s: int, after: bool): (r: Elems)
    requires InRange(c, |elem|)
    ensures |r| == |elem|
    decreases c
  {
    match c
    case End(_) => elem
    case Mark(_, _, r) => AdjustIn(elem, r, t, s, after)
    case Elem(_, id, _, k, _, r) =>
      if id == t then ShiftAll(if after then elem else ShiftAll(elem, k, s), r, s)
      else if t in Ids(k) then ShiftAll(AddLength(AdjustIn(elem, k, t, s, after), id, s), r, s)
      else AdjustIn(elem, r, t, s, after)
  }

  /** The same for a whole document, whose virtual parent has slot 0. */
  function Adjusted(elem: Elems, c: Content, t: nat, s: int, after: bool): (r: Elems)
    requires InRange(c, |elem|) && 0 < |elem|
    ensures |r| == |elem|
  {
    AddLength(AdjustIn(elem, c, t, s, after), 0, s)
  }

  // ---- The position of the walk in the tree ----

  /** The elements around a position, innermost first, up to some outermost parent; each is given
      by the rest of its sibling list, from the element itself on. */
  datatype Path = Root(parent: nat) | Under(node: Content, up: Path)

  function ParentOf(up: Path): nat {
    match up
    case Root(p) => p
    case Under(c, _) => if c.Elem? then c.id else 0
  }

  function Base(up: Path): nat {
    match up
    case Root(p) => p
    case Under(_, up') => Base(up')
  }

  /** The element at the position and all elements around it are linked as the tree says. */
  ghost predicate OnPath(elem: Elems, c: Content, up: Path)
    decreases up
  {
    c.Elem? && (up.Root? ==> up.parent < |elem|) && Chain(elem, c, ParentOf(up)) && (up.Under? ==> up.node.Elem? && OnPath(elem, up.node, up.up))
  }

  /** What is left to do once the descendants of `c` are dealt with, when the `d` innermost
      elements around it were reached on the way down and so are finished already. */
  ghost function FinishUp(elem: Elems, c: Content, up: Path, d: nat, s: int): (r: Elems)
    requires c.Elem? && InPath(c, up, |elem|)
    ensures |r| == |elem|
    decreases up
  {
    var e := ShiftAll(elem, c.rest, s);
    if up.Root? then AddLength(e, up.parent, s)
    else if d == 0 then FinishUp(AddLength(e, up.node.id, s), up.node, up.up, 0, s)
    else FinishUp(e, up.node, up.up, d - 1, s)
  }

  ghost predicate InPath(c: Content, up: Path, n: nat)
    decreases up
  {
    0 < n && c.Elem? && InRange(c, n) &&
    match up
    case Root(p) => p < n
    case Under(p, up') => p.Elem? && p.id < n && InPath(p, up', n)
  }

  lemma {:induction false} ChainInRange(elem: Elems, c: Content, p: nat)
    requires Chain(elem, c, p)
    ensures InRange(c, |elem|)
  {
    match c
    case End(_) =>
    case Mark(_, _, r) => ChainInRange(elem, r, p);
    case Elem(_, id, _, k, _, r) =>
      ChainInRange(elem, k, id);
      ChainInRange(elem, r, p);
  }

  lemma {:induction false} OnPathInRange(elem: Elems, c: Content, up: Path)
    requires OnPath(elem, c, up)
    ensures InPath(c, up, |elem|)
    decreases up
  {
    ChainInRange(elem, c, ParentOf(up));
    if up.Under? {
      OnPathInRange(elem, up.node, up.up);
    }
  }

  /** The position of element `t` below the list `c`. */
  ghost function Locate(c: Content, up: Path, t: nat): (Content, Path)
  {
    match c
    case End(_) => (c, up)
    case Mark(_, _, r) => Locate(r, up, t)
    case Elem(_, id, _, k, _, r) =>
      if id == t then (c, up) else if t in Ids(k) then Locate(k, Under(c, up), t) else Locate(r, up, t)
  }

  /** What is left to do above a whole sibling list. */
  ghost function FinishList(elem: Elems, up: Path, s: int): Elems
    requires 0 < |elem| && (if up.Root? then up.parent < |elem| else InPath(up.node, up.up, |elem|))
  {
    if up.Root? then AddLength(elem, up.parent, s) else FinishUp(AddLength(elem, up.node.id, s), up.node, up.up, 0, s)
  }

  lemma {:induction false} LocateAdjust(elem: Elems, elem': Elems, c: Content, up: Path, t: nat, s: int, after: bool)
    requires Chain(elem, c, ParentOf(up)) && 0 < |elem| == |elem'| && t in Ids(c) && 0 !in Ids(c)
    requires if up.Root? then up.parent < |elem| else OnPath(elem, up.node, up.up)
    ensures var (n, u) := Locate(c, up, t);
            && OnPath(elem, n, u) && n.id == t && Base(u) == Base(up) && InPath(n, u, |elem'|)
            && InRange(c, |elem'|) && (if up.Root? then up.parent < |elem'| else InPath(up.node, up.up, |elem'|))
            && FinishUp(if after then elem' else ShiftAll(elem', n.kids, s), n, u, 0, s)
               == FinishList(AdjustIn(elem', c, t, s, after), up, s)
    decreases c
  {
    ChainInRange(elem, c, ParentOf(up));
    if up.Under? { OnPathInRange(elem, up.node, up.up); }
    match c
    case End(_) =>
    case Mark(_, _, r) => LocateAdjust(elem, elem', r, up, t, s, after);
    case Elem(_, id, _, k, _, r) =>
      if id == t {
      } else if t in Ids(k) {
        LocateAdjust(elem, elem', k, Under(c, up), t, s, after);
      } else {
        LocateAdjust(elem, elem', r, up, t, s, after);
      }
  }

  // ---- Termination of the walk ----

  ghost function Weight(c: Content): nat {
    match c
    case End(_) => 0
    case Mark(_, _, r) => Weight(r)
    case Elem(_, _, _, k, _, r) => 2 + Weight(k) + Weight(r)
  }

  ghost function Left(c: Content, up: Path): nat
    requires c.Elem?
    decreases up
  {
    Weight(c.rest) + 1 + (if up.Under? && up.node.Elem? then Left(up.node, up.up) else 0)
  }

  /** The list from its first element on. */
  ghost function Skip(c: Content): (r: Content)
    ensures FirstId(c) != 0 ==> r.Elem? && r.id == FirstId(c)
  {
    match c
    case Mark(_, _, r) => Skip(r)
    case _ => c
  }

  lemma {:induction false} SkipFacts(elem: Elems, c: Content, p: nat, elem': Elems, s: int)
    requires Chain(elem, c, p) && |elem'| == |elem|
    ensures InRange(c, |elem'|) && Weight(c) == Weight(Skip(c)) && Chain(elem, Skip(c), p)
    ensures FirstId(c) == 0 ==> ShiftAll(elem', c, s) == elem' && Weight(c) == 0
    ensures FirstId(c) != 0 ==> InRange(Skip(c), |elem'|) && ShiftAll(elem', c, s) == ShiftAll(elem', Skip(c), s)
  {
    ChainInRange(elem, c, p);
    match c
    case Mark(_, _, r) => SkipFacts(elem, r, p, elem', s);
    case _ =>
  }

  /** The element `d` levels above the parent of the position. */
  ghost function Above(up: Path, d: nat): nat
    decreases up
  {
    if d == 0 || up.Root? then ParentOf(up) else Above(up.up, d - 1)
  }

  ghost function Depth(up: Path): nat
    decreases up
  {
    if up.Root? then 0 else 1 + Depth(up.up)
  }

  /** The position lies in the tree: its sibling list is part of the content around it. */
  ghost predicate Tight(c: Content, up: Path)
    decreases up
  {
    c.Elem? && Distinct(c) &&
    match up
    case Root(p) => p !in Ids(c)
    case Under(p, up') => p.Elem? && Ids(c) <= Ids(p.kids) && Tight(p, up')
  }

  lemma {:induction false} TightAbove(c: Content, up: Path, d: nat)
    requires Tight(c, up) && d <= Depth(up)
    ensures Above(up, d) !in Ids(c)
    decreases up
  {
    NoZero(c);
    if up.Under? && d > 0 {
      TightAbove(up.node, up.up, d - 1);
    }
  }

  lemma {:induction false} LocateTight(c: Content, up: Path, t: nat)
    requires t in Ids(c) && Distinct(c) && (up.Root? ==> up.parent !in Ids(c))
    requires up.Under? ==> up.node.Elem? && Ids(c) <= Ids(up.node.kids) && Tight(up.node, up.up)
    ensures Tight(Locate(c, up, t).0, Locate(c, up, t).1)
    decreases c
  {
    match c
    case Mark(_, _, r) => LocateTight(r, up, t);
    case Elem(_, id, _, k, _, r) =>
      if id == t {
      } else if t in Ids(k) {
        LocateTight(k, Under(c, up), t);
      } else {
        LocateTight(r, up, t);
      }
  }

  lemma {:induction false} SkipTight(c: Content)
    requires Distinct(c)
    ensures Distinct(Skip(c)) && Ids(Skip(c)) == Ids(c)
  {
    match c
    case Mark(_, _, r) => SkipTight(r);
    case _ =>
  }

  /** Everything the walk keeps about its position. */
  ghost predicate Walking(links: Elems, c: Content, up: Path, d: nat) {
    c.Elem? && OnPath(links, c, up) && InPath(c, up, |links|) && Tight(c, up) && d <= Depth(up)
  }

  /** The links of the element at the position. */
  lemma LinksAt(links: Elems, elem: Elems, c: Content, up: Path, d: nat)
    requires Walking(links, c, up, d) && SameLinks(elem, links)
    ensures var e := elem[c.id];
            && |elem| == |links| && 0 != c.id < |elem| && e.startTagLen != 0 && InRange(c.kids, |elem|)
            && e.parent == ParentOf(up) && e.child == FirstId(c.kids) && e.next == FirstId(c.rest)
    ensures up.Under? ==> up.node.Elem? && ParentOf(up) == up.node.id != 0
    ensures 0 < Left(c, up) && Above(up, d) != c.id && ParentOf(up) < |elem| && Above(up, 0) == ParentOf(up)
  {
    assert elem[c.id].(nStart := 0, nLength := 0) == links[c.id].(nStart := 0, nLength := 0);
    TightAbove(c, up, d);
    ChainInRange(links, c, ParentOf(up));
    if up.Under? {
      assert OnPath(links, up.node, up.up);
    }
  }

  /** What is left to do at a position, with or without the descendants of its element. */
  ghost function Remaining(elem: Elems, c: Content, up: Path, d: nat, done: bool, s: int): Elems
    requires c.Elem? && InPath(c, up, |elem|)
  {
    FinishUp(if done then elem else ShiftAll(elem, c.kids, s), c, up, d, s)
  }

  /** Where the walk starts. */
  lemma WalkStart(elem: Elems, tree: Content, at: nat, s: int, after: bool)
    requires Chain(elem, tree, 0) && Distinct(tree) && at in Ids(tree) && 0 < |elem|
    ensures InRange(tree, |elem|)
    ensures var (c, up) := Locate(tree, Root(0), at);
            && Walking(elem, c, up, 0) && Base(up) == 0 && c.id == at
            && Adjusted(elem, tree, at, s, after) == Remaining(elem, c, up, 0, after, s)
  {
    NoZero(tree);
    LocateAdjust(elem, elem, tree, Root(0), at, s, after);
    LocateTight(tree, Root(0), at);
  }

  /** An element whose descendants are done, or that has none. */
  lemma NoDescent(links: Elems, elem: Elems, c: Content, up: Path, d: nat, done: bool, s: int)
    requires |elem| == |links| && Walking(links, c, up, d) && (done || FirstId(c.kids) == 0)
    ensures Remaining(elem, c, up, d, done, s) == Remaining(elem, c, up, d, true, s)
  {
    SkipFacts(links, c.kids, c.id, elem, s);
  }

  /** From an element to its first child. */
  lemma StepDown(links: Elems, elem: Elems, c: Content, up: Path, d: nat, s: int)
    requires |elem| == |links| && Walking(links, c, up, d) && FirstId(c.kids) != 0
    ensures var k := Skip(c.kids);
            && k.Elem? && k.id == FirstId(c.kids) && Walking(links, k, Under(c, up), d + 1)
            && Remaining(elem, c, up, d, false, s) == Remaining(AddStart(elem, k.id, s), k, Under(c, up), d + 1, false, s)
            && Weight(c.kids) + Left(c, up) > Weight(k.kids) + Left(k, Under(c, up))
    ensures Above(Under(c, up), d + 1) == Above(up, d)
  {
    SkipFacts(links, c.kids, c.id, elem, s);
    SkipTight(c.kids);
  }

  /** From an element to its next sibling. */
  lemma StepNext(links: Elems, elem: Elems, c: Content, up: Path, d: nat, s: int)
    requires |elem| == |links| && Walking(links, c, up, d) && FirstId(c.rest) != 0
    ensures var k := Skip(c.rest);
            && k.Elem? && k.id == FirstId(c.rest) && Walking(links, k, up, d)
            && Remaining(elem, c, up, d, true, s) == Remaining(AddStart(elem, k.id, s), k, up, d, false, s)
            && Left(c, up) > Weight(k.kids) + Left(k, up)
  {
    SkipFacts(links, c.rest, ParentOf(up), elem, s);
    SkipTight(c.rest);
  }

  /** From the last element of a list to the element around it. */
  lemma StepUp(links: Elems, elem: Elems, c: Content, up: Path, d: nat, s: int)
    requires |elem| == |links| && Walking(links, c, up, d)
    ensures up.Root? && FirstId(c.rest) == 0 ==> Remaining(elem, c, up, d, true, s) == AddLength(elem, up.parent, s)
    ensures up.Under? && d == 0 && FirstId(c.rest) == 0 ==>
              Walking(links, up.node, up.up, 0) &&
              Remaining(elem, c, up, d, true, s) == Remaining(AddLength(elem, up.node.id, s), up.node, up.up, 0, true, s)
    ensures up.Under? && d > 0 && FirstId(c.rest) == 0 ==>
              Walking(links, up.node, up.up, d - 1) && Above(up, d) == Above(up.up, d - 1) &&
              Remaining(elem, c, up, d, true, s) == Remaining(elem, up.node, up.up, d - 1, true, s)
    ensures up.Under? ==> Left(c, up) > Left(up.node, up.up)
    ensures (ParentOf(up) == Above(up, d)) == (d == 0) && (d > 0 ==> up.Under?)
  {
    SkipFacts(links, c.rest, ParentOf(up), elem, s);
    if up.Under? && d > 0 {
      TightAbove(up.node, up.up, d - 1);
    }
  }

  /** Two indexes that differ in starts and lengths only. */
  ghost predicate SameLinks(a: Elems, b: Elems) {
    |a| == |b| && forall j :: 0 <= j < |a| ==> a[j].(nStart := 0, nLength := 0) == b[j].(nStart := 0, nLength := 0)
  }

  lemma SameLinksRefl(a: Elems)
    ensures SameLinks(a, a)
  {
  }

  lemma SameLinksStep(elem: Elems, links: Elems, i: nat, s: int)
    requires SameLinks(elem, links) && i < |elem|
    ensures SameLinks(AddStart(elem, i, s), links) && SameLinks(AddLength(elem, i, s), links)
    ensures elem[0].startTagLen == AddStart(elem, i, s)[0].startTagLen == AddLength(elem, i, s)[0].startTagLen
  {
  }

  // ---- The walk refines the recursive description, which in turn touches exactly the right slots ----

  /** The elements around `t`. */
  function Around(c: Content, t: nat): set<nat> {
    match c
    case End(_) => {}
    case Mark(_, _, r) => Around(r, t)
    case Elem(_, id, _, k, _, r) =>
      if id == t then {} else if t in Ids(k) then {id} + Around(k, t) else Around(r, t)
  }

  /** The elements after `t` in document order, with its descendants unless `after`. */
  function Following(c: Content, t: nat, after: bool): set<nat> {
    match c
    case End(_) => {}
    case Mark(_, _, r) => Following(r, t, after)
    case Elem(_, id, _, k, _, r) =>
      if id == t then (if after then {} else Ids(k)) + Ids(r)
      else if t in Ids(k) then Following(k, t, after) + Ids(r)
      else Following(r, t, after)
  }

  lemma {:induction false} ShiftAllAt(elem: Elems, c: Content, s: int, i: nat)
    requires InRange(c, |elem|) && Distinct(c) && i < |elem|
    ensures ShiftAll(elem, c, s)[i] == if i in Ids(c) then elem[i].(nStart := elem[i].nStart + s) else elem[i]
    decreases c
  {
    match c
    case End(_) =>
    case Mark(_, _, r) => ShiftAllAt(elem, r, s, i);
    case Elem(_, id, _, k, _, r) =>
      ShiftAllAt(AddStart(elem, id, s), k, s, i);
      ShiftAllAt(ShiftAll(AddStart(elem, id, s), k, s), r, s, i);
  }

  /** No element is both around `t` and after it, and `t` itself is neither. */
  lemma {:induction false} AroundFollowing(c: Content, t: nat, after: bool)
    requires Distinct(c) && t in Ids(c)
    ensures Around(c, t) !! Following(c, t, after)
    ensures Around(c, t) <= Ids(c) && Following(c, t, after) <= Ids(c) && t !in Around(c, t) && t !in Following(c, t, after)
  {
    match c
    case Mark(_, _, r) => AroundFollowing(r, t, after);
    case Elem(_, id, _, k, _, r) =>
      if id != t {
        if t in Ids(k) { AroundFollowing(k, t, after); } else { AroundFollowing(r, t, after); }
      }
  }

  /** A record whose element starts `a` later and is `b` longer. */
  function Moved(e: ElemPos, a: int, b: int): ElemPos {
    e.(nStart := e.nStart + a, nLength := e.nLength + b)
  }

  /** What `AdjustIn` does to slot `i`. */
  predicate AdjustsAt(elem: Elems, c: Content, t: nat, s: int, after: bool, i: nat)
    requires InRange(c, |elem|) && i < |elem|
  {
    AdjustIn(elem, c, t, s, after)[i] ==
    Moved(elem[i], if i in Following(c, t, after) then s else 0, if i in Around(c, t) then s else 0)
  }

  lemma AdjustAtSelf(elem: Elems, c: Content, s: int, after: bool, i: nat)
    requires InRange(c, |elem|) && Distinct(c) && i < |elem| && c.Elem?
    ensures AdjustsAt(elem, c, c.id, s, after, i)
  {
    var e := if after then elem else ShiftAll(elem, c.kids, s);
    if !after { ShiftAllAt(elem, c.kids, s, i); }
    ShiftAllAt(e, c.rest, s, i);
    assert AdjustIn(elem, c, c.id, s, after) == ShiftAll(e, c.rest, s);
  }

  lemma AdjustAtKids(elem: Elems, c: Content, t: nat, s: int, after: bool, i: nat)
    requires InRange(c, |elem|) && Distinct(c) && i < |elem| && c.Elem? && t != c.id && t in Ids(c.kids)
    requires AdjustsAt(elem, c.kids, t, s, after, i)
    ensures AdjustsAt(elem, c, t, s, after, i)
  {
    hide Around, Following, AdjustIn, ShiftAll, Distinct, InRange;
    KidsStep(elem, c, t, s, after);
    AroundFollowing(c.kids, t, after);
    var e := AdjustIn(elem, c.kids, t, s, after);
    ShiftAllAt(AddLength(e, c.id, s), c.rest, s, i);
  }

  lemma KidsStep(elem: Elems, c: Content, t: nat, s: int, after: bool)
    requires InRange(c, |elem|) && Distinct(c) && c.Elem? && t != c.id && t in Ids(c.kids)
    ensures InRange(c.kids, |elem|) && InRange(c.rest, |elem|) && c.id < |elem| && Distinct(c.kids) && Distinct(c.rest)
    ensures c.id !in Ids(c.kids) && c.id !in Ids(c.rest) && Ids(c.kids) !! Ids(c.rest)
    ensures Following(c, t, after) == Following(c.kids, t, after) + Ids(c.rest) && Around(c, t) == {c.id} + Around(c.kids, t)
    ensures AdjustIn(elem, c, t, s, after) == ShiftAll(AddLength(AdjustIn(elem, c.kids, t, s, after), c.id, s), c.rest, s)
  {
  }

  lemma {:induction false} AdjustInAt(elem: Elems, c: Content, t: nat, s: int, after: bool, i: nat)
    requires InRange(c, |elem|) && Distinct(c) && i < |elem| && t in Ids(c)
    ensures AdjustsAt(elem, c, t, s, after, i)
    decreases c
  {
    match c
    case Mark(_, _, r) => AdjustInAt(elem, r, t, s, after, i);
    case Elem(_, id, _, k, _, r) =>
      if id == t {
        AdjustAtSelf(elem, c, s, after, i);
      } else if t in Ids(k) {
        AdjustInAt(elem, k, t, s, after, i);
        AdjustAtKids(elem, c, t, s, after, i);
      } else {
        AdjustInAt(elem, r, t, s, after, i);
      }
  }

  /** `x_Adjust`, slot by slot: every element around the edit and the virtual parent become `s`
      longer, every element after it starts `s` later, once each, and nothing else changes. */
  lemma AdjustedAt(elem: Elems, c: Content, t: nat, s: int, after: bool, i: nat)
    requires InRange(c, |elem|) && Distinct(c) && i < |elem| && t in Ids(c) && 0 !in Ids(c)
    ensures Around(c, t) !! Following(c, t, after)
    ensures Adjusted(elem, c, t, s, after)[i] ==
            Moved(elem[i], if i in Following(c, t, after) then s else 0, if i == 0 || i in Around(c, t) then s else 0)
  {
    AroundFollowing(c, t, after);
    AdjustInAt(elem, c, t, s, after, i);
    AdjustInAt(elem, c, t, s, after, 0);
  }

  lemma {:induction false} NoZero(c: Content)
    requires Distinct(c)
    ensures 0 !in Ids(c)
  {
    match c
    case End(_) =>
    case Mark(_, _, r) => NoZero(r);
    case Elem(_, _, _, k, _, r) => NoZero(k); NoZero(r);
  }
}
