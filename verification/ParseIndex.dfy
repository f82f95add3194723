/** What the parser keeps about the index while it reads: every list that is still open is linked, every
    closed element is where its record says, and slots are numbered in document order. */
module ParseIndex {
  import opened Token
  import opened Content
  import opened Index
  import opened Edit
  import opened Links
  import opened Effect
  import opened ParseStack

  // ---- Document order ----

  function Count(c: Content): nat {
    match c
    case End(_) => 0
    case Mark(_, _, r) => Count(r)
    case Elem(_, _, _, k, _, r) => 1 + Count(k) + Count(r)
  }

  /** The slots, in document order, are `lo`, `lo + 1`, and so on. */
  predicate Numbered(c: Content, lo: nat) {
    match c
    case End(_) => true
    case Mark(_, _, r) => Numbered(r, lo)
    case Elem(_, id, _, k, _, r) => id == lo && Numbered(k, lo + 1) && Numbered(r, lo + 1 + Count(k))
  }

  lemma {:induction false} NumberedIds(c: Content, lo: nat)
    requires Numbered(c, lo)
    ensures (forall i :: i in Ids(c) <==> lo <= i < lo + Count(c)) && (0 < lo ==> Distinct(c))
  {
    match c
    case End(_) =>
    case Mark(_, _, r) => NumberedIds(r, lo);
    case Elem(_, id, _, k, _, r) =>
      NumberedIds(k, lo + 1);
      NumberedIds(r, lo + 1 + Count(k));
  }

  lemma {:induction false} NumberedGraft(a: Content, b: Content, lo: nat)
    requires Numbered(a, lo) && Numbered(b, lo + Count(a))
    ensures Numbered(Graft(a, b), lo) && Count(Graft(a, b)) == Count(a) + Count(b)
  {
    match a
    case End(_) =>
    case Mark(_, _, r) => NumberedGraft(r, b, lo);
    case Elem(_, _, _, k, _, r) => NumberedGraft(r, b, lo + 1 + Count(k));
  }

  lemma {:induction false} TopGraft(a: Content, b: Content)
    ensures TopSeq(Graft(a, b)) == TopSeq(a) + TopSeq(b) && Top(Graft(a, b)) == Top(a) + Top(b)
  {
    match a
    case End(_) =>
    case Mark(_, _, r) => TopGraft(r, b);
    case Elem(_, _, _, _, _, r) => TopGraft(r, b);
  }

  // ---- Where elements are ----

  predicate Spanned(e: ElemPos, c: Content, off: int, lvl: int)
    requires c.Elem?
  {
    && e.nStart == off + |c.text| && e.nLength == |c.stag| + Len(c.kids) + |c.etag|
    && e.startTagLen == |c.stag| && e.endTagLen == |c.etag|
    && e.level == lvl && e.nonEnded == NotEnded(c.etag, c.stag) && !e.deleted
  }

  /** Start, length and tag lengths of every element; exactly the elements that are not ended have the mark that says
      so, and the level is that of the start tag: one more behind an element that is not ended. */
  predicate Spans(elem: Elems, c: Content, off: int, lvl: int) {
    match c
    case End(_) => true
    case Mark(t, m, r) => Spans(elem, r, off + |t| + |m|, lvl)
    case Elem(t, id, s, k, e, r) =>
      && id < |elem| && Spanned(elem[id], c, off, lvl)
      && Spans(elem, k, off + |t| + |s|, lvl + 1)
      && Spans(elem, r, off + |t| + |s| + Len(k) + |e|, if NotEnded(e, s) then lvl + 1 else lvl)
  }

  /** The parts of a record that spans and child lists depend on. */
  predicate Alike(a: ElemPos, b: ElemPos) {
    && SamePlace(a, b, 0) && SameSiblings(a, b) && b.child == a.child
  }

  lemma {:induction false} SpansFrame(a: Elems, b: Elems, c: Content, off: int, lvl: int)
    requires Spans(a, c, off, lvl) && KeepsPlaces(a, b, Ids(c), 0)
    ensures Spans(b, c, off, lvl)
    decreases c
  {
    hide NotEnded;
    match c
    case End(_) =>
    case Mark(t, m, r) => SpansFrame(a, b, r, off + |t| + |m|, lvl);
    case Elem(t, id, s, k, e, r) =>
      assert id in Ids(c);
      SpansFrame(a, b, k, off + |t| + |s|, lvl + 1);
      SpansFrame(a, b, r, off + |t| + |s| + Len(k) + |e|, if NotEnded(e, s) then lvl + 1 else lvl);
  }

  lemma {:induction false} SpansGraft(elem: Elems, a: Content, b: Content, off: int, lvl: int)
    requires Bare(a) && Spans(elem, a, off, lvl) && Spans(elem, b, off + Len(a), lvl + |LeftOpen(a)|)
    ensures Spans(elem, Graft(a, b), off, lvl)
    decreases a
  {
    hide NotEnded, NameOf, Spanned, Render, LeftOpen, Len;
    ListParts(a);
    match a
    case End(_) =>
    case Mark(t, m, r) => SpansGraft(elem, r, b, off + |t| + |m|, lvl);
    case Elem(t, id, s, k, e, r) =>
      SpansGraft(elem, r, b, off + |t| + |s| + Len(k) + |e|, if NotEnded(e, s) then lvl + 1 else lvl);
      SpannedRest(elem[id], a, Graft(r, b), off, lvl);
  }

  /** Lengths and elements left open, item by item. */
  lemma ListParts(c: Content)
    ensures c.End? ==> Len(c) == |c.text| && LeftOpen(c) == []
    ensures c.Mark? ==> Len(c) == |c.text| + |c.mark| + Len(c.rest) && LeftOpen(c) == LeftOpen(c.rest)
    ensures c.Elem? ==> Len(c) == |c.text| + |c.stag| + Len(c.kids) + |c.etag| + Len(c.rest)
    ensures c.Elem? ==> |LeftOpen(c)| == (if NotEnded(c.etag, c.stag) then 1 else 0) + |LeftOpen(c.rest)|
  {
    hide NotEnded, NameOf;
  }

  // ---- Rings ----

  /** Where the previous link of the first element of a list points: to the first element that is not ended, which was
      the last one when it was repaired, or else to the last one. */
  function Tail(c: Content, d: nat): nat {
    match c
    case End(_) => d
    case Mark(_, _, r) => Tail(r, d)
    case Elem(_, id, s, _, e, r) => if NotEnded(e, s) then id else Tail(r, id)
  }

  /** Previous links and first marks, at every depth; `w` and `f` are those of the first element of the list.  The
      element behind one that is not ended was a first child, and has kept the mark. */
  predicate Rings(elem: Elems, c: Content, w: nat, f: bool) {
    match c
    case End(_) => true
    case Mark(_, _, r) => Rings(elem, r, w, f)
    case Elem(_, id, s, k, e, r) =>
      && id < |elem| && elem[id].prev == w && elem[id].first == f
      && Rings(elem, k, Tail(k, 0), true) && Rings(elem, r, id, NotEnded(e, s))
  }

  /** The children of `p` and all elements below them are linked. */
  predicate Kin(elem: Elems, c: Content, p: nat) {
    p < |elem| && elem[p].child == FirstId(c) && Chain(elem, c, p) && Rings(elem, c, Tail(c, 0), true)
  }

  lemma {:induction false} RingsFrame(a: Elems, b: Elems, c: Content, w: nat, f: bool)
    requires Rings(a, c, w, f) && |a| <= |b|
    requires forall i :: i in Ids(c) && i < |a| ==> b[i].prev == a[i].prev && b[i].first == a[i].first
    ensures Rings(b, c, w, f)
    decreases c
  {
    hide NotEnded, Tail;
    match c
    case End(_) =>
    case Mark(_, _, r) => RingsFrame(a, b, r, w, f);
    case Elem(_, id, s, k, e, r) =>
      assert id in Ids(c);
      RingsFrame(a, b, k, Tail(k, 0), true);
      RingsFrame(a, b, r, id, NotEnded(e, s));
  }

  lemma KinFrame(a: Elems, b: Elems, c: Content, p: nat)
    requires Kin(a, c, p) && KeepsLinks(a, b, Ids(c)) && b[p].child == a[p].child
    ensures Kin(b, c, p)
  {
    hide Chain, Rings, Tail;
    ChainFrame2(a, b, c, p);
    RingsFrame(a, b, c, Tail(c, 0), true);
  }

  /** The list goes on without elements. */
  lemma {:induction false} RingsEnd(elem: Elems, c: Content, t: string, w: nat, f: bool, d: nat)
    requires Rings(elem, c, w, f)
    ensures Rings(elem, Graft(c, End(t)), w, f) && Tail(Graft(c, End(t)), d) == Tail(c, d)
    decreases c
  {
    hide NotEnded;
    match c
    case End(_) =>
    case Mark(_, _, r) => RingsEnd(elem, r, t, w, f, d);
    case Elem(_, id, s, _, e, r) => RingsEnd(elem, r, t, id, NotEnded(e, s), id);
  }

  /** The elements of a list have their children linked below them. */
  predicate Chains(elem: Elems, c: Content) {
    match c
    case End(_) => true
    case Mark(_, _, r) => Chains(elem, r)
    case Elem(_, id, _, k, _, r) =>
      id < |elem| && 0 < elem[id].startTagLen && Kin(elem, k, id) && Chains(elem, r)
  }

  lemma {:induction false} ChainsGraft(elem: Elems, a: Content, b: Content)
    requires Chains(elem, a) && Chains(elem, b)
    ensures Chains(elem, Graft(a, b))
  {
    match a
    case End(_) =>
    case Mark(_, _, r) => ChainsGraft(elem, r, b);
    case Elem(_, _, _, _, _, r) => ChainsGraft(elem, r, b);
  }

  /** Links below the elements of a list do not depend on the links among them. */
  lemma {:induction false} ChainsFrame(a: Elems, b: Elems, c: Content)
    requires Chains(a, c) && Distinct(c) && KeepsLinks(a, b, Ids(c) - Top(c))
    requires forall i :: i in Top(c) && i < |a| ==> b[i].child == a[i].child && b[i].startTagLen == a[i].startTagLen
    ensures Chains(b, c)
  {
    match c
    case End(_) =>
    case Mark(_, _, r) => ChainsFrame(a, b, r);
    case Elem(_, id, _, k, _, r) =>
      hide Kin, Distinct, KeepsLinks;
      ChainsParts(a, b, c);
      KinFrame(a, b, k, id);
      ChainsFrame(a, b, r);
  }

  lemma ChainsParts(a: Elems, b: Elems, c: Content)
    requires c.Elem? && Distinct(c) && KeepsLinks(a, b, Ids(c) - Top(c))
    ensures KeepsLinks(a, b, Ids(c.kids)) && KeepsLinks(a, b, Ids(c.rest) - Top(c.rest)) && Distinct(c.rest)
    ensures c.id in Top(c) && Top(c.rest) <= Top(c)
  {
    TopSeqFacts(c.kids);
    TopSeqFacts(c.rest);
  }

  lemma {:induction false} ChainFrame2(a: Elems, b: Elems, c: Content, p: nat)
    requires Chain(a, c, p) && KeepsLinks(a, b, Ids(c))
    ensures Chain(b, c, p)
  {
    match c
    case End(_) =>
    case Mark(_, _, r) => ChainFrame2(a, b, r, p);
    case Elem(_, id, _, k, _, r) =>
      assert id in Ids(c);
      ChainFrame2(a, b, k, id);
      ChainFrame2(a, b, r, p);
  }

  /** A list that is linked, with what is below its elements linked, is a chain. */
  lemma {:induction false} ListChain(elem: Elems, c: Content, p: nat, s: seq<nat>, n: nat)
    requires ListOk(elem, p, s) && n <= |s| && s[n..] == TopSeq(c) && Chains(elem, c) && Distinct(c)
    ensures Chain(elem, c, p)
    decreases c
  {
    match c
    case End(_) =>
    case Mark(_, _, r) => ListChain(elem, r, p, s, n);
    case Elem(_, id, _, k, _, r) =>
      assert s[n..][0] == id && s[n..][1..] == s[n + 1..];
      assert LinksOk(elem[s[n]], p, s, n);
      TopSeqFacts(r);
      assert TopSeq(c)[1..] == TopSeq(r);
      if n + 1 < |s| { assert s[n + 1..][0] == s[n + 1]; }
      ListChain(elem, r, p, s, n + 1);
  }

  /** The ring of a list in which all elements are ended. */
  lemma {:induction false} ListRings(elem: Elems, c: Content, p: nat, s: seq<nat>, n: nat, d: nat)
    requires ListOk(elem, p, s) && n <= |s| && s[n..] == TopSeq(c) && Chains(elem, c) && LeftOpen(c) == []
    requires n > 0 ==> d == s[n - 1]
    ensures s != [] ==> Rings(elem, c, if n > 0 then s[n - 1] else s[|s| - 1], n == 0) && Tail(c, d) == s[|s| - 1]
    ensures s == [] ==> Rings(elem, c, Tail(c, 0), true)
    decreases c
  {
    hide NameOf, NotEnded;
    match c
    case End(_) =>
    case Mark(_, _, r) => ListRings(elem, r, p, s, n, d);
    case Elem(_, id, _, k, _, r) =>
      assert s[n..][0] == id && s[n..][1..] == s[n + 1..];
      assert LinksOk(elem[s[n]], p, s, n);
      assert TopSeq(c)[1..] == TopSeq(r);
      ListRings(elem, r, p, s, n + 1, id);
  }

  // ---- The open lists ----

  function OpenCount(st: Stack): nat {
    match st
    case Bottom => 0
    case Push(b, _, _, _, _) => OpenCount(b) + 1
  }

  function TopId(st: Stack): nat {
    match st
    case Bottom => 0
    case Push(_, _, _, id, _) => id
  }

  /** The first slot of the innermost open list. */
  function Lo(st: Stack): nat {
    TopId(st) + 1
  }

  /** The text up to the innermost open list. */
  function Prefix(st: Stack): string {
    match st
    case Bottom => ""
    case Push(b, l, t, _, s) => Prefix(b) + Render(l) + t + s
  }

  /** A list under construction: all its elements are ended, they are numbered, linked below, and where they should be. */
  predicate PartOk(elem: Elems, l: Content, lo: nat, off: int, lvl: int) {
    Numbered(l, lo) && Bare(l) && LeftOpen(l) == [] && Chains(elem, l) && Spans(elem, l, off, lvl)
  }

  predicate OpenOk(elem: Elems, st: Stack) {
    match st
    case Bottom => 0 < |elem|
    case Push(b, l, t, id, s) =>
      && PartOk(elem, l, Lo(b), |Prefix(b)|, OpenCount(b)) && id == Lo(b) + Count(l) && id < |elem|
      && ListOk(elem, TopId(b), TopSeq(l) + [id])
      && StartStored(elem[id], |Prefix(b)| + Len(l) + |t|, s, OpenCount(b))
      && OpenOk(elem, b)
  }

  /** The record of an element that is open. */
  predicate StartStored(e: ElemPos, start: int, stag: string, lvl: int) {
    && e.nStart == start && e.startTagLen == |stag| && 0 < |stag| && !NodeAt(stag, 1).empty
    && e.level == lvl && !e.nonEnded && !e.deleted
  }

  /** Between two nodes. */
  ghost predicate Parsing(elem: Elems, free: nat, st: Stack, left: Content) {
    && OpenOk(elem, st) && PartOk(elem, left, Lo(st), |Prefix(st)|, OpenCount(st)) && Lo(st) + Count(left) == free <= |elem|
    && ListOk(elem, TopId(st), TopSeq(left))
  }

  /** While elements without end tags are repaired: the innermost list may hold elements that are not ended. */
  ghost predicate Repairing(elem: Elems, free: nat, st: Stack, left: Content) {
    && OpenOk(elem, st) && Numbered(left, Lo(st)) && Bare(left) && Spans(elem, left, |Prefix(st)|, OpenCount(st))
    && Lo(st) + Count(left) == free <= |elem| && Kin(elem, left, TopId(st))
  }

  lemma ParsingRepairing(elem: Elems, free: nat, st: Stack, left: Content)
    requires Parsing(elem, free, st, left)
    ensures Repairing(elem, free, st, left)
  {
    hide OpenOk, Spans, Chains, Chain, Rings, ListOk, Bare, LeftOpen, Tail;
    NumberedIds(left, Lo(st));
    TopSeqFacts(left);
    ListChild(elem, TopId(st), TopSeq(left));
    assert TopSeq(left)[0..] == TopSeq(left);
    ListChain(elem, left, TopId(st), TopSeq(left), 0);
    PartParts(elem, left, Lo(st), |Prefix(st)|, OpenCount(st));
    ListRings(elem, left, TopId(st), TopSeq(left), 0, 0);
  }

  lemma StartParsing(elem: Elems)
    requires 0 < |elem| && elem[0].child == 0
    ensures Parsing(elem, 1, Bottom, End(""))
  {
  }

  // ---- Changes that leave the open lists alone ----

  /** Two indexes that agree, but for marks of bad content, on all records below `n`; the record of `p`
      may have another first child. */
  ghost predicate AgreeBelow(a: Elems, b: Elems, n: nat, p: nat) {
    && |a| <= |b|
    && forall i :: 0 <= i < |a| && i < n ==> SamePlace(a[i], b[i], 0) && SameSiblings(a[i], b[i]) && (i != p ==> b[i].child == a[i].child)
  }

  lemma PartFrame(a: Elems, b: Elems, l: Content, lo: nat, off: int, lvl: int, n: nat)
    requires PartOk(a, l, lo, off, lvl) && 0 < lo && lo + Count(l) <= n && |a| <= |b|
    requires forall i :: lo <= i < n && i < |a| ==> SamePlace(a[i], b[i], 0) && b[i].child == a[i].child && (i !in Top(l) ==> SameSiblings(a[i], b[i]))
    ensures PartOk(b, l, lo, off, lvl)
  {
    hide Chains, Spans, Bare, Distinct, LeftOpen;
    NumberedIds(l, lo);
    TopSeqFacts(l);
    ChainsFrame(a, b, l);
    SpansFrame(a, b, l, off, lvl);
  }

  lemma {:induction false} OpenFrame(a: Elems, b: Elems, st: Stack)
    requires OpenOk(a, st) && AgreeBelow(a, b, Lo(st), TopId(st))
    ensures OpenOk(b, st)
    decreases st
  {
    hide PartOk, ListOk;
    match st
    case Bottom =>
    case Push(below, l, t, id, s) =>
      PartFrame(a, b, l, Lo(below), |Prefix(below)|, OpenCount(below), id);
      PartTop(a, l, Lo(below), |Prefix(below)|, OpenCount(below), TopId(below), id);
      ListFrame(a, b, TopId(below), TopSeq(l) + [id]);
      OpenFrame(a, b, below);
  }

  /** The elements of a part have slots of their own, before the one that follows. */
  lemma PartTop(elem: Elems, l: Content, lo: nat, off: int, lvl: int, p: nat, id: nat)
    requires PartOk(elem, l, lo, off, lvl) && 0 < lo && id == lo + Count(l) && ListOk(elem, p, TopSeq(l) + [id])
    ensures Distinct(l) && (forall i :: i in TopSeq(l) + [id] ==> lo <= i <= id) && p < |elem|
    ensures forall i :: i in Ids(l) ==> lo <= i < id
  {
    NumberedIds(l, lo);
    TopSeqFacts(l);
  }

  /** Taking a slot may lengthen the index. */
  lemma ParsingGrows(a: Elems, b: Elems, free: nat, st: Stack, left: Content)
    requires Parsing(a, free, st, left) && |a| <= |b|
    requires forall i :: 0 <= i < |a| && i < free ==> Alike(a[i], b[i])
    ensures Parsing(b, free, st, left)
  {
    hide OpenOk, PartOk, ListOk;
    OpenFrame(a, b, st);
    PartFrame(a, b, left, Lo(st), |Prefix(st)|, OpenCount(st), free);
    LeftTop(a, left, Lo(st), |Prefix(st)|, OpenCount(st), free, TopId(st));
    ListFrame(a, b, TopId(st), TopSeq(left));
  }

  lemma LeftTop(elem: Elems, l: Content, lo: nat, off: int, lvl: int, free: nat, p: nat)
    requires PartOk(elem, l, lo, off, lvl) && 0 < lo && free == lo + Count(l) && ListOk(elem, p, TopSeq(l))
    ensures Distinct(l) && DistinctSlots(TopSeq(l)) && (forall i :: i in TopSeq(l) ==> lo <= i < free) && p < |elem|
    ensures forall i :: i in Ids(l) <==> lo <= i < free
    ensures Top(l) <= Ids(l) && forall i :: i in TopSeq(l) <==> i in Top(l)
  {
    NumberedIds(l, lo);
    TopSeqFacts(l);
  }

  // ---- A start tag ----

  /** The records when slot `x` is linked in at the end of the innermost open list. */
  ghost predicate Appended(a: Elems, b: Elems, st: Stack, left: Content, x: nat) {
    && |a| == |b| && x < |b| && ListOk(b, TopId(st), TopSeq(left) + [x]) && Relinked(a, b, TopId(st), TopSeq(left), x)
  }

  lemma AppendedFrame(a: Elems, b: Elems, free: nat, st: Stack, left: Content)
    requires Parsing(a, free, st, left) && Appended(a, b, st, left, free)
    ensures OpenOk(b, st) && PartOk(b, left, Lo(st), |Prefix(st)|, OpenCount(st))
  {
    hide OpenOk, PartOk, ListOk;
    LeftTop(a, left, Lo(st), |Prefix(st)|, OpenCount(st), free, TopId(st));
    OpenFrame(a, b, st);
    PartFrame(a, b, left, Lo(st), |Prefix(st)|, OpenCount(st), free);
  }

  /** An element without content: `<a/>`, or one whose end tag is missing. */
  function Single(text: string, id: nat, stag: string): Content {
    Elem(text, id, stag, End(""), "", End(""))
  }

  lemma PartGraft(elem: Elems, l: Content, x: Content, lo: nat, off: int, lvl: int)
    requires PartOk(elem, l, lo, off, lvl) && PartOk(elem, x, lo + Count(l), off + Len(l), lvl)
    ensures PartOk(elem, Graft(l, x), lo, off, lvl) && Count(Graft(l, x)) == Count(l) + Count(x)
  {
    hide Numbered, Bare, Chains, Spans, LeftOpen;
    NumberedGraft(l, x, lo);
    BareGraft(l, x);
    OpenGraft(l, x);
    ChainsGraft(elem, l, x);
    SpansGraft(elem, l, x, off, lvl);
  }

  lemma SinglePart(elem: Elems, text: string, id: nat, stag: string, off: int, lvl: int)
    requires id < |elem| && elem[id].child == 0 && 0 < |stag| && Spanned(elem[id], Single(text, id, stag), off, lvl) && NodeAt(stag, 1).empty
    ensures PartOk(elem, Single(text, id, stag), id, off, lvl) && Count(Single(text, id, stag)) == 1 && TopSeq(Single(text, id, stag)) == [id]
  {
  }

  lemma AppendEmpty(elem: Elems, free: nat, st: Stack, left: Content, text: string, stag: string)
    requires OpenOk(elem, st) && PartOk(elem, left, Lo(st), |Prefix(st)|, OpenCount(st)) && Lo(st) + Count(left) == free < |elem|
    requires ListOk(elem, TopId(st), TopSeq(left) + [free]) && elem[free].child == 0 && 0 < |stag|
    requires Spanned(elem[free], Single(text, free, stag), |Prefix(st)| + Len(left), OpenCount(st)) && NodeAt(stag, 1).empty
    ensures Parsing(elem, free + 1, st, Graft(left, Single(text, free, stag)))
  {
    hide PartOk, ListOk, OpenOk, Single, Spanned, NodeAt, Graft, Prefix, TopSeq, Render;
    SinglePart(elem, text, free, stag, |Prefix(st)| + Len(left), OpenCount(st));
    PartGraft(elem, left, Single(text, free, stag), Lo(st), |Prefix(st)|, OpenCount(st));
    TopGraft(left, Single(text, free, stag));
  }

  lemma AppendOpen(elem: Elems, free: nat, st: Stack, left: Content, text: string, stag: string)
    requires OpenOk(elem, st) && PartOk(elem, left, Lo(st), |Prefix(st)|, OpenCount(st)) && Lo(st) + Count(left) == free < |elem|
    requires ListOk(elem, TopId(st), TopSeq(left) + [free]) && elem[free].child == 0
    requires StartStored(elem[free], |Prefix(st)| + Len(left) + |text|, stag, OpenCount(st))
    ensures Parsing(elem, free + 1, Push(st, left, text, free, stag), End(""))
  {
    hide NodeAt, StartStored, PartOk, ListOk, OpenOk, Prefix, Render;
    OpenStep(elem, free, st, left, text, stag);
    NothingYet(elem, free, free + 1, |Prefix(Push(st, left, text, free, stag))|, OpenCount(st) + 1);
  }

  lemma OpenStep(elem: Elems, free: nat, st: Stack, left: Content, text: string, stag: string)
    requires OpenOk(elem, st) && PartOk(elem, left, Lo(st), |Prefix(st)|, OpenCount(st)) && Lo(st) + Count(left) == free < |elem|
    requires ListOk(elem, TopId(st), TopSeq(left) + [free]) && StartStored(elem[free], |Prefix(st)| + Len(left) + |text|, stag, OpenCount(st))
    ensures OpenOk(elem, Push(st, left, text, free, stag))
  {
    hide NodeAt, StartStored, PartOk, ListOk;
  }

  /** The content of an element that has just been opened. */
  lemma NothingYet(elem: Elems, p: nat, lo: nat, off: int, lvl: int)
    requires p < |elem| && elem[p].child == 0
    ensures PartOk(elem, End(""), lo, off, lvl) && ListOk(elem, p, TopSeq(End("")))
  {
  }

  // ---- Comments and the like ----

  lemma AppendMark(elem: Elems, free: nat, st: Stack, left: Content, text: string, mark: string)
    requires Parsing(elem, free, st, left)
    ensures Parsing(elem, free, st, Graft(left, Mark(text, mark, End(""))))
  {
    hide ListOk, OpenOk, PartOk;
    var x := Mark(text, mark, End(""));
    MarkPart(elem, text, mark, Lo(st) + Count(left), |Prefix(st)| + Len(left), OpenCount(st));
    PartGraft(elem, left, x, Lo(st), |Prefix(st)|, OpenCount(st));
    TopGraft(left, x);
    assert TopSeq(left) + [] == TopSeq(left);
  }

  lemma MarkPart(elem: Elems, text: string, mark: string, lo: nat, off: int, lvl: int)
    ensures var x := Mark(text, mark, End("")); PartOk(elem, x, lo, off, lvl) && Count(x) == 0 && TopSeq(x) == []
  {
  }

  // ---- An end tag ----

  /** Two indexes in which only the record of `id` differs in links or places. */
  ghost predicate OnlyAt(a: Elems, b: Elems, id: nat) {
    |a| == |b| && forall i :: 0 <= i < |a| && i != id ==> Alike(a[i], b[i])
  }

  /** What the end tag stores in the record. */
  predicate EndStored(a: ElemPos, b: ElemPos, etagLen: nat, len: int) {
    b == a.(endTagLen := etagLen, nLength := len, illData := b.illData)
  }

  lemma {:induction false} CloseNumbers(l: Content, t: string, lo: nat)
    requires Numbered(l, lo) && Bare(l)
    ensures Numbered(Graft(l, End(t)), lo) && Count(Graft(l, End(t))) == Count(l)
    ensures FirstId(Graft(l, End(t))) == FirstId(l) && TopSeq(Graft(l, End(t))) == TopSeq(l) && Len(Graft(l, End(t))) == Len(l) + |t|
  {
    match l
    case End(_) =>
    case Mark(_, _, r) => CloseNumbers(r, t, lo);
    case Elem(_, _, _, k, _, r) => CloseNumbers(r, t, lo + 1 + Count(k));
  }

  lemma {:induction false} CloseChain(elem: Elems, l: Content, t: string, p: nat)
    requires Chain(elem, l, p)
    ensures Chain(elem, Graft(l, End(t)), p) && FirstId(Graft(l, End(t))) == FirstId(l)
  {
    match l
    case End(_) =>
    case Mark(_, _, r) => CloseChain(elem, r, t, p);
    case Elem(_, _, _, _, _, r) => CloseChain(elem, r, t, p);
  }

  lemma {:induction false} CloseSpans(elem: Elems, l: Content, t: string, off: int, lvl: int)
    requires Spans(elem, l, off, lvl)
    ensures Spans(elem, Graft(l, End(t)), off, lvl)
    decreases l
  {
    hide Spanned, NotEnded;
    match l
    case End(_) =>
    case Mark(x, m, r) => CloseSpans(elem, r, t, off + |x| + |m|, lvl);
    case Elem(x, i, s, k, e, r) =>
      CloseSpans(elem, r, t, off + |x| + |s| + Len(k) + |e|, if NotEnded(e, s) then lvl + 1 else lvl);
      SpannedRest(elem[i], l, Graft(r, End(t)), off, lvl);
  }

  lemma SpannedRest(e: ElemPos, c: Content, r: Content, off: int, lvl: int)
    requires c.Elem? && Spanned(e, c, off, lvl)
    ensures Spanned(e, Elem(c.text, c.id, c.stag, c.kids, c.etag, r), off, lvl)
  {
    hide NotEnded;
  }

  lemma CloseText(elem: Elems, l: Content, t: string, lo: nat, p: nat, off: int, lvl: int)
    requires Numbered(l, lo) && Bare(l)
    ensures Numbered(Graft(l, End(t)), lo) && Count(Graft(l, End(t))) == Count(l)
    ensures FirstId(Graft(l, End(t))) == FirstId(l) && TopSeq(Graft(l, End(t))) == TopSeq(l) && Len(Graft(l, End(t))) == Len(l) + |t|
    ensures Kin(elem, l, p) ==> Kin(elem, Graft(l, End(t)), p)
    ensures Spans(elem, l, off, lvl) ==> Spans(elem, Graft(l, End(t)), off, lvl)
  {
    hide Numbered, Bare, Graft, FirstId, TopSeq, Chain, Spans, Count, Rings, Tail;
    CloseNumbers(l, t, lo);
    if Kin(elem, l, p) {
      CloseChain(elem, l, t, p);
      RingsEnd(elem, l, t, Tail(l, 0), true, 0);
    }
    if Spans(elem, l, off, lvl) { CloseSpans(elem, l, t, off, lvl); }
  }

  /** The element that an end tag closes, as the last one of its list. */
  function Closing(st: Stack, left: Content, text: string, etag: string): Content
    requires st.Push?
  {
    Elem(st.text, st.id, st.stag, Graft(left, End(text)), etag, End(""))
  }

  /** The end tag of the innermost open element, whose content may have been repaired. */
  lemma CloseTop(a: Elems, b: Elems, free: nat, st: Stack, left: Content, text: string, etag: string)
    requires Repairing(a, free, st, left) && st.Push? && OnlyAt(a, b, st.id) && etag != ""
    requires st.id < |a| && st.id < |b| && EndStored(a[st.id], b[st.id], |etag|, |st.stag| + Len(left) + |text| + |etag|)
    ensures Parsing(b, free, st.below, Graft(st.left, Closing(st, left, text, etag)))
  {
    hide OpenOk, PartOk, ListOk, Numbered, Kin, Spans, Bare, Chains;
    var below, l, id := st.below, st.left, st.id;
    OpenParts(a, st);
    PartTop(a, l, Lo(below), |Prefix(below)|, OpenCount(below), TopId(below), id);
    OpenFrame(a, b, below);
    PartFrame(a, b, l, Lo(below), |Prefix(below)|, OpenCount(below), id);
    ListFrame(a, b, TopId(below), TopSeq(l) + [id]);
    ClosedPart(a, b, free, st, left, text, etag);
    PartGraft(b, l, Closing(st, left, text, etag), Lo(below), |Prefix(below)|, OpenCount(below));
    TopGraft(l, Closing(st, left, text, etag));
  }

  lemma OpenParts(elem: Elems, st: Stack)
    requires OpenOk(elem, st) && st.Push?
    ensures PartOk(elem, st.left, Lo(st.below), |Prefix(st.below)|, OpenCount(st.below)) && st.id == Lo(st.below) + Count(st.left) && st.id < |elem|
    ensures ListOk(elem, TopId(st.below), TopSeq(st.left) + [st.id]) && OpenOk(elem, st.below)
    ensures StartStored(elem[st.id], |Prefix(st.below)| + Len(st.left) + |st.text|, st.stag, OpenCount(st.below)) && 0 < |st.stag|
    ensures elem[st.id].nStart == |Prefix(st.below)| + Len(st.left) + |st.text| && elem[st.id].startTagLen == |st.stag|
    ensures |Prefix(st)| == |Prefix(st.below)| + Len(st.left) + |st.text| + |st.stag| && OpenCount(st) == OpenCount(st.below) + 1
  {
    hide PartOk, ListOk, NodeAt;
  }

  lemma ClosedPart(a: Elems, b: Elems, free: nat, st: Stack, left: Content, text: string, etag: string)
    requires Repairing(a, free, st, left) && st.Push? && OnlyAt(a, b, st.id) && etag != ""
    requires st.id < |a| && st.id < |b| && EndStored(a[st.id], b[st.id], |etag|, |st.stag| + Len(left) + |text| + |etag|)
    ensures PartOk(b, Closing(st, left, text, etag), st.id, |Prefix(st.below)| + Len(st.left), OpenCount(st.below))
    ensures Count(Closing(st, left, text, etag)) == 1 + Count(left) && TopSeq(Closing(st, left, text, etag)) == [st.id]
  {
    hide OpenOk, PartOk, ListOk, Bare, Kin, Spans, NodeAt, Graft;
    OpenParts(a, st);
    NumberedIds(left, Lo(st));
    KinFrame(a, b, left, st.id);
    SpansFrame(a, b, left, |Prefix(st)|, OpenCount(st));
    CloseText(b, left, text, Lo(st), st.id, |Prefix(st)|, OpenCount(st));
    OneElement(b, st.text, st.id, st.stag, Graft(left, End(text)), etag, |Prefix(st.below)| + Len(st.left), OpenCount(st.below));
  }

  lemma OneElement(elem: Elems, t: string, id: nat, s: string, k: Content, e: string, off: int, lvl: int)
    requires Numbered(k, id + 1) && Kin(elem, k, id) && Spans(elem, k, off + |t| + |s|, lvl + 1) && 0 < |s| && e != ""
    requires Spanned(elem[id], Elem(t, id, s, k, e, End("")), off, lvl)
    ensures PartOk(elem, Elem(t, id, s, k, e, End("")), id, off, lvl)
  {
    hide Kin, NodeAt;
    KinBound(elem, k, id);
    assert Bare(End("")) && Chains(elem, End("")) && LeftOpen(End("")) == [];
    var c := Elem(t, id, s, k, e, End(""));
    assert !NotEnded(e, s);
    assert LeftOpen(c) == [];
    assert Chains(elem, c);
    assert Spans(elem, c, off, lvl);
    assert Numbered(c, id);
  }

  lemma KinBound(elem: Elems, k: Content, id: nat)
    requires Kin(elem, k, id)
    ensures id < |elem| && elem[id].child == FirstId(k)
  {
  }

  lemma PartBare(elem: Elems, l: Content, lo: nat, off: int, lvl: int)
    requires PartOk(elem, l, lo, off, lvl)
    ensures Bare(l)
  {
  }

  /** What a list under construction keeps, part by part. */
  lemma PartParts(elem: Elems, l: Content, lo: nat, off: int, lvl: int)
    requires PartOk(elem, l, lo, off, lvl)
    ensures Numbered(l, lo) && Bare(l) && LeftOpen(l) == [] && Chains(elem, l) && Spans(elem, l, off, lvl)
  {
  }

  // ---- An element without an end tag ----

  /** A child `e` of `x` moves up into the list of `q`; the first child gets `x` for its previous sibling. */
  function MovedChild(e: ElemPos, q: nat, first: bool, x: nat): ElemPos {
    e.(parent := q, prev := if first then x else e.prev)
  }

  /** The children of `x` move up into the list of `q`, behind `x`. */
  ghost predicate Adopted(a: Elems, b: Elems, x: nat, q: nat, left: Content) {
    && |a| == |b| && x < |a| && b[x] == a[x].(next := FirstId(left))
    && forall i :: 0 <= i < |a| && i != x ==> b[i] == if i in Top(left) then MovedChild(a[i], q, i == FirstId(left), x) else a[i]
  }

  /** The repair of the innermost open element, record by record. */
  ghost predicate Unended(a: Elems, b: Elems, st: Stack, left: Content) {
    && st.Push? && |a| == |b| && st.id < |a|
    && b[st.id] == a[st.id].(next := FirstId(left), child := 0, endTagLen := 0, nLength := a[st.id].startTagLen, nonEnded := true, illData := b[st.id].illData)
    && (forall i :: 0 <= i < |a| && i in Top(left) && i != st.id ==> b[i] == MovedChild(a[i], TopId(st.below), i == FirstId(left), st.id))
    && (forall i :: 0 <= i < |a| && i !in Top(left) && i != st.id ==> b[i] == a[i].(illData := b[i].illData))
  }

  lemma {:induction false} ChainMoved(a: Elems, b: Elems, c: Content, x: nat, q: nat)
    requires Chain(a, c, x) && Distinct(c) && |a| == |b|
    requires forall i :: 0 <= i < |a| && i in Top(c) ==> b[i] == a[i].(parent := q, prev := b[i].prev)
    requires forall i :: 0 <= i < |a| && i in Ids(c) - Top(c) ==> Alike(a[i], b[i])
    ensures Chain(b, c, q)
  {
    match c
    case End(_) =>
    case Mark(_, _, r) => ChainMoved(a, b, r, x, q);
    case Elem(_, id, _, k, _, r) =>
      assert id in Top(c);
      TopSeqFacts(r);
      ChainFrame2(a, b, k, id);
      ChainMoved(a, b, r, x, q);
  }

  lemma {:induction false} RingsMoved(a: Elems, b: Elems, c: Content, w: nat, f: bool, x: nat)
    requires Rings(a, c, w, f) && Distinct(c) && |a| <= |b|
    requires forall i :: i in Ids(c) && i < |a| ==> b[i].first == a[i].first && b[i].prev == if i == FirstId(c) then x else a[i].prev
    ensures Rings(b, c, x, f)
  {
    hide NotEnded, Tail;
    match c
    case End(_) =>
    case Mark(_, _, r) => RingsMoved(a, b, r, w, f, x);
    case Elem(_, id, s, k, e, r) =>
      assert id in Ids(c);
      RingsFrame(a, b, k, Tail(k, 0), true);
      RingsFrame(a, b, r, id, NotEnded(e, s));
  }

  /** All but the last of `s` are children of `q`, each linked to the next. */
  ghost predicate NextLinked(elem: Elems, s: seq<nat>, q: nat) {
    forall j :: 0 <= j < |s| - 1 ==> s[j] < |elem| && elem[s[j]].parent == q && elem[s[j]].next == s[j + 1]
  }

  /** A list followed by a chain. */
  lemma {:induction false} ChainGraft(elem: Elems, l: Content, x: Content, q: nat, lo: nat, s: seq<nat>, n: nat)
    requires x.Elem? && Chain(elem, x, q) && Chains(elem, l) && Numbered(l, lo) && 0 < lo
    requires NextLinked(elem, s, q) && n < |s| && s[n..] == TopSeq(l) + [x.id]
    ensures Chain(elem, Graft(l, x), q) && FirstId(Graft(l, x)) == s[n]
  {
    assert s[n] == (TopSeq(l) + [x.id])[0];
    match l
    case End(_) =>
    case Mark(_, _, r) => ChainGraft(elem, r, x, q, lo, s, n);
    case Elem(_, id, _, k, _, r) =>
      assert s[n + 1..] == s[n..][1..] == TopSeq(r) + [x.id];
      ChainGraft(elem, r, x, q, lo + 1 + Count(k), s, n + 1);
  }

  /** Previous links and first marks of the children `s`. */
  ghost predicate BackLinked(elem: Elems, s: seq<nat>) {
    forall j :: 0 <= j < |s| ==> s[j] < |elem| && BackOk(elem[s[j]], s, j)
  }

  predicate BackOk(e: ElemPos, s: seq<nat>, j: nat)
    requires j < |s|
  {
    e.first == (j == 0) && e.prev == if j > 0 then s[j - 1] else s[|s| - 1]
  }

  /** The ring of a list whose last element has just been repaired. */
  lemma {:induction false} RingGraft(elem: Elems, l: Content, x: Content, s: seq<nat>, n: nat, d: nat)
    requires x.Elem? && x.kids == End("") && NotEnded(x.etag, x.stag) && Rings(elem, x.rest, x.id, true)
    requires Chains(elem, l) && LeftOpen(l) == [] && BackLinked(elem, s) && n < |s| && s[n..] == TopSeq(l) + [x.id]
    ensures Rings(elem, Graft(l, x), if n > 0 then s[n - 1] else s[|s| - 1], n == 0) && Tail(Graft(l, x), d) == x.id
  {
    hide NotEnded, NameOf;
    assert s[n] == (TopSeq(l) + [x.id])[0];
    match l
    case End(_) =>
      assert |s[n..]| == 1 && x.id == s[n];
      assert Rings(elem, x.kids, Tail(x.kids, 0), true);
      assert Rings(elem, x, if n > 0 then s[n - 1] else s[|s| - 1], n == 0);
    case Mark(_, _, r) => RingGraft(elem, r, x, s, n, d);
    case Elem(_, id, _, k, _, r) =>
      assert s[n + 1..] == s[n..][1..] == TopSeq(r) + [x.id];
      RingGraft(elem, r, x, s, n + 1, id);
  }

  /** The repaired element with its former children behind it. */
  function Flattened(st: Stack, left: Content): Content
    requires st.Push?
  {
    Elem(st.text, st.id, st.stag, End(""), "", left)
  }

  lemma UnendedAlike(a: Elems, b: Elems, st: Stack, left: Content)
    requires Unended(a, b, st, left)
    ensures forall i :: 0 <= i < |a| && i !in Top(left) && i != st.id ==> Alike(a[i], b[i])
  {
  }

  lemma UnendedKids(a: Elems, b: Elems, st: Stack, left: Content)
    requires Unended(a, b, st, left) && Numbered(left, Lo(st)) && Kin(a, left, st.id)
    ensures Chain(b, left, TopId(st.below)) && Rings(b, left, st.id, true) && forall i :: i in Top(left) ==> st.id < i
  {
    hide Chain, Rings, Alike, Tail;
    UnendedAlike(a, b, st, left);
    NumberedIds(left, Lo(st));
    TopSeqFacts(left);
    FirstInTop(left);
    ChainMoved(a, b, left, st.id, TopId(st.below));
    RingsMoved(a, b, left, Tail(left, 0), true, st.id);
  }

  lemma {:induction false} FirstInTop(c: Content)
    ensures FirstId(c) == 0 || FirstId(c) in Top(c)
  {
    match c
    case End(_) =>
    case Mark(_, _, r) => FirstInTop(r);
    case Elem(_, _, _, _, _, _) =>
  }

  lemma UnendedPart(a: Elems, b: Elems, st: Stack, left: Content)
    requires Unended(a, b, st, left) && OpenOk(a, st) && forall i :: i in Top(left) ==> st.id < i
    ensures PartOk(b, st.left, Lo(st.below), |Prefix(st.below)|, OpenCount(st.below)) && AgreeBelow(a, b, st.id, TopId(st.below))
  {
    hide OpenOk, PartOk, ListOk, Unended, Prefix;
    UnendedPush(a, b, st, left);
    UnendedAlike(a, b, st, left);
    OpenParts(a, st);
    PartFrame(a, b, st.left, Lo(st.below), |Prefix(st.below)|, OpenCount(st.below), st.id);
  }

  lemma UnendedChain(a: Elems, b: Elems, free: nat, st: Stack, left: Content)
    requires Repairing(a, free, st, left) && Unended(a, b, st, left)
    ensures Kin(b, Graft(st.left, Flattened(st, left)), TopId(st.below)) && PartOk(b, st.left, Lo(st.below), |Prefix(st.below)|, OpenCount(st.below))
    ensures AgreeBelow(a, b, st.id, TopId(st.below))
  {
    UnendedPush(a, b, st, left);
    OpenParts(a, st);
    assert Kin(a, left, st.id);
    hide Kin;
    UnendedKids(a, b, st, left);
    UnendedPart(a, b, st, left);
    hide OpenOk, PartOk, ListOk, Spans, Bare, Chains, Numbered, Unended, Chain, Rings, NodeAt;
    var below, l := st.below, st.left;
    PartParts(b, l, Lo(below), |Prefix(below)|, OpenCount(below));
    FlatKin(a, b, st, left);
  }

  lemma UnendedPush(a: Elems, b: Elems, st: Stack, left: Content)
    requires Unended(a, b, st, left)
    ensures st.Push? && |a| == |b|
  {
  }

  lemma FlatKin(a: Elems, b: Elems, st: Stack, left: Content)
    requires Unended(a, b, st, left) && Chain(b, left, TopId(st.below)) && Rings(b, left, st.id, true)
    requires Chains(b, st.left) && Numbered(st.left, Lo(st.below)) && LeftOpen(st.left) == []
    requires ListOk(a, TopId(st.below), TopSeq(st.left) + [st.id]) && st.id == Lo(st.below) + Count(st.left)
    requires 0 < a[st.id].startTagLen && !NodeAt(st.stag, 1).empty && forall i :: i in Top(left) ==> st.id < i
    ensures Kin(b, Graft(st.left, Flattened(st, left)), TopId(st.below))
  {
    hide Numbered, Chains, ListOk, Rings, NodeAt, LeftOpen, Tail;
    var l, q, x := st.left, TopId(st.below), Flattened(st, left);
    var s := TopSeq(l) + [st.id];
    FlatLinks(a, b, st, left, s);
    assert s[0..] == s && s[|s| - 1] == st.id;
    ListChild(a, q, s);
    ChainGraft(b, l, x, q, Lo(st.below), s, 0);
    RingGraft(b, l, x, s, 0, 0);
  }

  /** The list that the repaired element is the last one of has kept its links. */
  lemma FlatLinks(a: Elems, b: Elems, st: Stack, left: Content, s: seq<nat>)
    requires Unended(a, b, st, left) && Numbered(st.left, Lo(st.below)) && s == TopSeq(st.left) + [st.id]
    requires ListOk(a, TopId(st.below), s) && st.id == Lo(st.below) + Count(st.left) && forall i :: i in Top(left) ==> st.id < i
    ensures NextLinked(b, s, TopId(st.below)) && BackLinked(b, s) && st.id < |b| && b[st.id].parent == TopId(st.below)
    ensures TopId(st.below) < |b| && b[TopId(st.below)].child == a[TopId(st.below)].child
  {
    hide Numbered, ListOk;
    var l, q := st.left, TopId(st.below);
    NumberedIds(l, Lo(st.below));
    TopSeqFacts(l);
    ListChild(a, q, s);
    forall j | 0 <= j < |s| - 1 ensures s[j] < |b| && b[s[j]].parent == q && b[s[j]].next == s[j + 1] {
      ListOkAt(a, q, s, j);
      assert s[j] in TopSeq(l);
    }
    forall j | 0 <= j < |s| ensures s[j] < |b| && BackOk(b[s[j]], s, j) {
      ListOkAt(a, q, s, j);
      if j < |s| - 1 { assert s[j] in TopSeq(l); }
    }
    ListOkAt(a, q, s, |s| - 1);
    assert s[|s| - 1] == st.id;
  }

  /** Repairing the innermost open element leaves a list below the next one. */
  lemma RepairTop(a: Elems, b: Elems, free: nat, st: Stack, left: Content)
    requires Repairing(a, free, st, left) && Unended(a, b, st, left)
    ensures Repairing(b, free, st.below, Graft(st.left, Flattened(st, left)))
  {
    hide OpenOk, PartOk, ListOk, Bare, Chains, Kin, Spans, Unended, Numbered, Flattened, Graft, AgreeBelow, FirstId, Count, Prefix, LeftOpen, NodeAt;
    UnendedPush(a, b, st, left);
    UnendedSpans(a, b, free, st, left);
    UnendedChain(a, b, free, st, left);
    OpenParts(a, st);
    var below, l, x := st.below, st.left, Flattened(st, left);
    AgreeLess(a, b, st.id, Lo(below), TopId(below));
    OpenFrame(a, b, below);
    PartParts(b, l, Lo(below), |Prefix(below)|, OpenCount(below));
    BareGraft(l, x);
    FlatNumbered(st, left);
    NumberedGraft(l, x, Lo(below));
    SpansGraft(b, l, x, |Prefix(below)|, OpenCount(below));
  }

  lemma AgreeLess(a: Elems, b: Elems, n: nat, m: nat, p: nat)
    requires AgreeBelow(a, b, n, p) && m <= n
    ensures AgreeBelow(a, b, m, p)
  {
  }

  lemma FlatNumbered(st: Stack, left: Content)
    requires st.Push? && Numbered(left, Lo(st))
    ensures Numbered(Flattened(st, left), st.id) && Count(Flattened(st, left)) == 1 + Count(left)
  {
  }

  lemma UnendedSpans(a: Elems, b: Elems, free: nat, st: Stack, left: Content)
    requires Repairing(a, free, st, left) && Unended(a, b, st, left)
    ensures Spans(b, Flattened(st, left), |Prefix(st.below)| + Len(st.left), OpenCount(st.below)) && Bare(Flattened(st, left))
  {
    hide OpenOk, PartOk, ListOk, Bare, Chains, Kin, NodeAt;
    OpenParts(a, st);
    NumberedIds(left, Lo(st));
    SpansFrame(a, b, left, |Prefix(st)|, OpenCount(st));
    FlatSpans(b, st, left);
  }

  lemma FlatSpans(elem: Elems, st: Stack, left: Content)
    requires st.Push? && st.id < |elem| && Spans(elem, left, |Prefix(st)|, OpenCount(st)) && Bare(left) && !NodeAt(st.stag, 1).empty
    requires Spanned(elem[st.id], Single(st.text, st.id, st.stag), |Prefix(st.below)| + Len(st.left), OpenCount(st.below))
    ensures Spans(elem, Flattened(st, left), |Prefix(st.below)| + Len(st.left), OpenCount(st.below)) && Bare(Flattened(st, left))
  {
    hide NodeAt;
  }

  // ---- The inner loop of the repair ----

  /** The elements of `all` but those of `rest` are moved; `at` is the last one that was, or `x`. */
  ghost predicate MovedUp(a: Elems, b: Elems, x: nat, q: nat, all: set<nat>, rest: set<nat>, at: nat, first: nat) {
    && |a| == |b| && x < |a| && x !in all && rest <= all
    && (at == x || (at in all && at !in rest && at < |a| && first !in rest))
    && (forall i :: 0 <= i < |a| && i != x ==> b[i] == if i in all && i !in rest then MovedChild(a[i], q, i == first, x) else a[i])
    && b[x] == if at == x then a[x] else a[x].(next := first)
  }

  lemma MovedUpStep(a: Elems, b: Elems, x: nat, q: nat, all: set<nat>, rest: set<nat>, at: nat, first: nat, child: nat)
    requires MovedUp(a, b, x, q, all, rest, at, first) && child in rest && child < |a|
    requires if at == x then child == first else a[at].next == child && a[child].prev == at
    ensures at < |b| && child != at
    ensures var e := b[child := b[child].(parent := q, prev := at)];
            MovedUp(a, e[at := e[at].(next := child)], x, q, all, rest - {child}, child, first)
  {
    var e := b[child := b[child].(parent := q, prev := at)];
    var f := e[at := e[at].(next := child)];
    forall i | 0 <= i < |a| && i != x
      ensures f[i] == if i in all && i !in rest - {child} then MovedChild(a[i], q, i == first, x) else a[i]
    {
      if i == at {
        assert f[i] == b[at].(next := child);
      } else if i == child {
        assert f[i] == MovedChild(a[child], q, child == first, x);
      } else {
        assert f[i] == b[i];
      }
    }
  }

  /** The previous links of one list; `w` is that of its first element. */
  predicate Backed(elem: Elems, c: Content, w: nat) {
    match c
    case End(_) => true
    case Mark(_, _, r) => Backed(elem, r, w)
    case Elem(_, id, _, _, _, r) => id < |elem| && elem[id].prev == w && Backed(elem, r, id)
  }

  lemma {:induction false} RingsBacked(elem: Elems, c: Content, w: nat, f: bool)
    requires Rings(elem, c, w, f)
    ensures Backed(elem, c, w) && (FirstId(c) < |elem| && FirstId(c) != 0 ==> elem[FirstId(c)].prev == w)
    decreases c
  {
    hide NotEnded, Tail;
    match c
    case End(_) =>
    case Mark(_, _, r) => RingsBacked(elem, r, w, f);
    case Elem(_, id, s, k, e, r) => RingsBacked(elem, r, id, NotEnded(e, s));
  }

  lemma {:induction false} SkipBacked(elem: Elems, c: Content, w: nat, v: nat)
    requires Backed(elem, c, w) && Distinct(c)
    ensures Backed(elem, Skip(c), w) && (FirstId(c) == 0 ==> Backed(elem, Skip(c), v))
  {
    match c
    case Mark(_, _, r) => SkipBacked(elem, r, w, v);
    case _ =>
  }

  /** The children from `r` on are still to be moved. */
  ghost predicate Adopting(a: Elems, b: Elems, x: nat, q: nat, left: Content, r: Content, at: nat, child: nat) {
    && MovedUp(a, b, x, q, Top(left), Top(r), at, FirstId(left))
    && Chain(a, r, x) && Distinct(r) && (r.Elem? || Top(r) == {}) && child == FirstId(r)
    && x < |a| && Backed(a, r, if at != x then at else if child < |a| then a[child].prev else 0)
    && if at == x then child == FirstId(left) else a[at].next == child
  }

  lemma {:induction false} SkipTop(c: Content)
    ensures Top(Skip(c)) == Top(c) && FirstId(Skip(c)) == FirstId(c) && Weight(Skip(c)) == Weight(c)
    ensures Skip(c).Elem? || Top(c) == {}
  {
    match c
    case Mark(_, _, r) => SkipTop(r);
    case _ =>
  }

  lemma {:induction false} SkipChain(elem: Elems, c: Content, p: nat)
    requires Chain(elem, c, p) && Distinct(c)
    ensures Chain(elem, Skip(c), p) && Distinct(Skip(c))
  {
    match c
    case Mark(_, _, r) => SkipChain(elem, r, p);
    case _ =>
  }

  lemma AdoptStart(a: Elems, x: nat, q: nat, left: Content)
    requires x < |a| && Distinct(left) && x !in Ids(left) && Chain(a, left, x) && Rings(a, left, Tail(left, 0), true)
    ensures Adopting(a, a, x, q, left, Skip(left), x, FirstId(left))
  {
    hide Tail;
    RingsBacked(a, left, Tail(left, 0), true);
    SkipBacked(a, left, Tail(left, 0), if FirstId(left) < |a| then a[FirstId(left)].prev else 0);
    TopSeqFacts(left);
    SkipTop(left);
    SkipChain(a, left, x);
  }

  lemma AdoptNext(a: Elems, b: Elems, x: nat, q: nat, left: Content, r: Content, at: nat, child: nat)
    requires Adopting(a, b, x, q, left, r, at, child) && child != 0
    ensures r.Elem? && child == r.id && child < |b| == |a| && a[child].next == FirstId(r.rest) && Top(r) - {child} == Top(r.rest)
    ensures b[child] == a[child] && child in Top(r) && Distinct(r.rest) && Chain(a, r.rest, x) && Weight(r.rest) < Weight(r)
    ensures Backed(a, r.rest, child) && (at != x ==> a[child].prev == at) && x < |a| && child != x
  {
    TopSeqFacts(r.rest);
    if !r.Elem? { NoFirst(r); }
  }

  lemma {:induction false} NoFirst(c: Content)
    requires Top(c) == {}
    ensures FirstId(c) == 0
  {
    match c
    case End(_) =>
    case Mark(_, _, r) => NoFirst(r);
    case Elem(_, _, _, _, _, _) =>
  }

  lemma AdoptStep(a: Elems, b: Elems, x: nat, q: nat, left: Content, r: Content, at: nat, child: nat)
    requires Adopting(a, b, x, q, left, r, at, child) && child != 0
    ensures r.Elem? && child < |b| && at < |b| && child != at && b[child].next == FirstId(Skip(r.rest))
    ensures Weight(Skip(r.rest)) < Weight(r)
    ensures var e := b[child := b[child].(parent := q, prev := at)];
            Adopting(a, e[at := e[at].(next := child)], x, q, left, Skip(r.rest), child, FirstId(Skip(r.rest)))
  {
    hide MovedUp, Chain, Distinct, Top, FirstId, Weight, Skip, Backed;
    AdoptNext(a, b, x, q, left, r, at, child);
    MovedUpStep(a, b, x, q, Top(left), Top(r), at, FirstId(left), child);
    SkipTop(r.rest);
    SkipChain(a, r.rest, x);
    SkipBacked(a, r.rest, child, 0);
  }

  lemma AdoptEnd(a: Elems, b: Elems, x: nat, q: nat, left: Content, r: Content, at: nat)
    requires Adopting(a, b, x, q, left, r, at, 0) && a[x].next == 0 && 0 !in Top(left)
    ensures Adopted(a, b, x, q, left)
  {
    assert FirstId(r) in Top(r) || Top(r) == {};
  }

  /** The innermost open element in the index. */
  lemma OpenTop(elem: Elems, free: nat, st: Stack, left: Content)
    requires Repairing(elem, free, st, left) && st.Push?
    ensures st.id < |elem| && TopId(st.below) < st.id && elem[st.id].parent == TopId(st.below) && elem[st.id].next == 0
    ensures Distinct(left) && st.id !in Ids(left) && TopId(st.below) !in Ids(left) && elem[st.id].child == FirstId(left)
  {
    hide PartOk, ListOk, Spans, Chain;
    OpenParts(elem, st);
    NumberedIds(left, Lo(st));
    var s := TopSeq(st.left) + [st.id];
    ListOkAt(elem, TopId(st.below), s, |s| - 1);
  }

  /** The repair, put together. */
  lemma UnendedBy(a: Elems, m: Elems, b: Elems, st: Stack, left: Content)
    requires st.Push? && st.id < |a| == |m| && Adopted(m, b, st.id, TopId(st.below), left) && st.id !in Top(left)
    requires m[st.id] == a[st.id].(child := 0, endTagLen := 0, nLength := a[st.id].startTagLen, nonEnded := true, illData := m[st.id].illData)
    requires forall i :: 0 <= i < |a| && i != st.id ==> m[i] == a[i].(illData := m[i].illData) && (i in Top(left) ==> m[i] == a[i])
    ensures Unended(a, b, st, left)
  {
  }

  lemma RepairKin(elem: Elems, free: nat, st: Stack, left: Content)
    requires Repairing(elem, free, st, left)
    ensures Kin(elem, left, TopId(st)) && TopId(st) < |elem| && free <= |elem|
  {
  }

  // ---- The end of an element below the top of the stack ----

  /** The stack without the elements above level `n`. */
  function Level(st: Stack, n: nat): (r: Stack)
    ensures OpenCount(r) == if OpenCount(st) <= n then OpenCount(st) else n
  {
    if OpenCount(st) <= n then st else Level(st.below, n)
  }

  lemma {:induction false} LevelId(elem: Elems, st: Stack, n: nat)
    requires OpenOk(elem, st)
    ensures OpenOk(elem, Level(st, n)) && TopId(Level(st, n)) <= TopId(st) < |elem| && (n < OpenCount(st) ==> TopId(Level(st, n)) < TopId(st))
    ensures 0 < n <= OpenCount(st) ==> Level(st, n).Push? && 0 < TopId(Level(st, n))
    decreases st
  {
    hide PartOk, ListOk;
    if st.Push? {
      LevelId(elem, st.below, n);
    }
  }

  /** The length and the end tag of an open element are nobody's business yet. */
  lemma {:induction false} OpenStore(a: Elems, b: Elems, st: Stack, n: nat, len: int, et: int)
    requires OpenOk(a, st) && 0 < n <= OpenCount(st)
    requires var m := TopId(Level(st, n)); m < |a| && b == a[m := a[m].(nLength := len, endTagLen := et)]
    ensures OpenOk(b, st)
    decreases st
  {
    hide PartOk, ListOk, Prefix, StartStored, Count;
    var below, l, id := st.below, st.left, st.id;
    var m := TopId(Level(st, n));
    LevelId(a, st, n);
    PartTop(a, l, Lo(below), |Prefix(below)|, OpenCount(below), TopId(below), id);
    if n < OpenCount(st) {
      LevelId(a, below, n);
      OpenStore(a, b, below, n, len, et);
    } else {
      OpenFrame(a, b, below);
    }
    PartFrame(a, b, l, Lo(below), |Prefix(below)|, OpenCount(below), id);
    ListFrame(a, b, TopId(below), TopSeq(l) + [id]);
    StillStored(a[id], b[id], |Prefix(below)| + Len(l) + |st.text|, st.stag, OpenCount(below));
  }

  lemma StillStored(a: ElemPos, b: ElemPos, start: int, stag: string, lvl: int)
    requires StartStored(a, start, stag, lvl) && b == a.(nLength := b.nLength, endTagLen := b.endTagLen)
    ensures StartStored(b, start, stag, lvl)
  {
    hide NodeAt;
  }

  lemma RepairingStore(a: Elems, b: Elems, free: nat, st: Stack, left: Content, n: nat, len: int, et: int)
    requires Repairing(a, free, st, left) && 0 < n <= OpenCount(st)
    requires var m := TopId(Level(st, n)); m < |a| && b == a[m := a[m].(nLength := len, endTagLen := et)]
    ensures Repairing(b, free, st, left)
  {
    hide OpenOk, Spans, Chain, Rings, Tail;
    LevelId(a, st, n);
    OpenStore(a, b, st, n, len, et);
    NumberedIds(left, Lo(st));
    SpansFrame(a, b, left, |Prefix(st)|, OpenCount(st));
    KinFrame(a, b, left, TopId(st));
  }

  /** Marks of bad content make no difference. */
  lemma OnlyMarks(a: Elems, b: Elems)
    requires |a| == |b| && forall i :: 0 <= i < |a| ==> b[i] == a[i].(illData := b[i].illData, illFormed := b[i].illFormed)
    ensures forall i :: 0 <= i < |a| ==> Alike(a[i], b[i])
  {
  }

  /** A repair leaves the records of the elements around alone. */
  lemma UnendedAbove(a: Elems, b: Elems, free: nat, st: Stack, left: Content, m: nat)
    requires Repairing(a, free, st, left) && Unended(a, b, st, left) && m < st.id
    ensures |b| == |a| && m < |a| && b[m] == a[m].(illData := b[m].illData)
  {
    hide OpenOk, Chain, Spans;
    NumberedIds(left, Lo(st));
    TopSeqFacts(left);
  }

  /** The element one level up. */
  lemma {:induction false} LevelParent(elem: Elems, st: Stack, n: nat)
    requires OpenOk(elem, st) && 0 < n <= OpenCount(st)
    ensures var m := TopId(Level(st, n)); m < |elem| && elem[m].parent == TopId(Level(st, n - 1))
    decreases st
  {
    hide PartOk, ListOk;
    if n < OpenCount(st) {
      LevelParent(elem, st.below, n);
    } else {
      var s := TopSeq(st.left) + [st.id];
      ListOkAt(elem, TopId(st.below), s, |s| - 1);
      assert Level(st, n) == st && Level(st, n - 1) == st.below by { LevelBelow(st); }
    }
  }

  lemma {:induction false} LevelBelow(st: Stack)
    requires st.Push?
    ensures Level(st, OpenCount(st)) == st && Level(st, OpenCount(st) - 1) == st.below
  {
  }

  lemma RepairingMarks(a: Elems, b: Elems, free: nat, st: Stack, left: Content)
    requires Repairing(a, free, st, left) && |a| == |b| && forall i :: 0 <= i < |a| ==> Alike(a[i], b[i])
    ensures Repairing(b, free, st, left)
  {
    hide OpenOk, Spans, Chain, Rings, Tail;
    OpenFrame(a, b, st);
    SpansFrame(a, b, left, |Prefix(st)|, OpenCount(st));
    KinFrame(a, b, left, TopId(st));
  }

  lemma OnlyAtSelf(a: Elems, id: nat)
    ensures OnlyAt(a, a, id)
  {
  }
}
