/** What the parser leaves in the index when elements are not ended: exactly when its links, and when its records, are
    those that edits rely on. */
module ParseLinks {
  import opened Token
  import opened Content
  import opened Index
  import opened Links
  import opened ParseStack
  import opened ParseIndex

  /** Every element is ended. */
  predicate AllEnded(c: Content) {
    match c
    case End(_) => true
    case Mark(_, _, r) => AllEnded(r)
    case Elem(_, _, s, k, e, r) => !NotEnded(e, s) && AllEnded(k) && AllEnded(r)
  }

  /** No list has an element behind one that is not ended. */
  predicate Undisturbed(c: Content) {
    match c
    case End(_) => true
    case Mark(_, _, r) => Undisturbed(r)
    case Elem(_, _, s, k, e, r) => (NotEnded(e, s) ==> TopSeq(r) == []) && Undisturbed(k) && Undisturbed(r)
  }

  lemma {:induction false} EndedUndisturbed(c: Content)
    requires AllEnded(c)
    ensures Undisturbed(c)
  {
    hide NotEnded;
    match c
    case End(_) =>
    case Mark(_, _, r) => EndedUndisturbed(r);
    case Elem(_, _, _, k, _, r) =>
      EndedUndisturbed(k);
      EndedUndisturbed(r);
  }

  // ---- Links ----

  lemma {:induction false} TailLast(c: Content, d: nat)
    requires Undisturbed(c)
    ensures Tail(c, d) == if TopSeq(c) == [] then d else TopSeq(c)[|TopSeq(c)| - 1]
    decreases c
  {
    hide NotEnded;
    match c
    case End(_) =>
    case Mark(_, _, r) => TailLast(r, d);
    case Elem(_, id, s, _, e, r) => TailLast(r, id);
  }

  /** Chains and rings make a list when nothing follows an element that is not ended. */
  lemma {:induction false} RingList(elem: Elems, c: Content, p: nat, s: seq<nat>, n: nat, w: nat, f: bool)
    requires Chain(elem, c, p) && Rings(elem, c, w, f) && Undisturbed(c) && n <= |s| && s[n..] == TopSeq(c)
    requires n < |s| ==> f == (n == 0) && w == if n > 0 then s[n - 1] else s[|s| - 1]
    ensures forall j :: n <= j < |s| ==> s[j] < |elem| && LinksOk(elem[s[j]], p, s, j)
    decreases c
  {
    hide NotEnded, Tail;
    match c
    case End(_) =>
    case Mark(_, _, r) => RingList(elem, r, p, s, n, w, f);
    case Elem(_, id, t, _, e, r) =>
      assert s[n..][0] == id && s[n..][1..] == s[n + 1..] && TopSeq(c)[1..] == TopSeq(r);
      TopSeqFacts(r);
      if n + 1 < |s| { assert s[n + 1..][0] == s[n + 1]; }
      RingList(elem, r, p, s, n + 1, id, NotEnded(e, t));
  }

  lemma KinList(elem: Elems, c: Content, p: nat)
    requires Kin(elem, c, p) && Undisturbed(c)
    ensures ListOk(elem, p, TopSeq(c))
  {
    hide Tail, Rings, Chain;
    var s := TopSeq(c);
    TailLast(c, 0);
    TopSeqFacts(c);
    assert s[0..] == s;
    RingList(elem, c, p, s, 0, Tail(c, 0), true);
  }

  lemma {:induction false} RingsDeep(elem: Elems, c: Content, p: nat, w: nat, f: bool, off: int, lvl: int)
    requires Chain(elem, c, p) && Rings(elem, c, w, f) && Spans(elem, c, off, lvl) && Undisturbed(c)
    ensures Deep(elem, c)
    decreases c
  {
    hide NotEnded, Tail, ListOk;
    match c
    case End(_) =>
    case Mark(t, m, r) => RingsDeep(elem, r, p, w, f, off + |t| + |m|, lvl);
    case Elem(t, id, s, k, e, r) =>
      KinList(elem, k, id);
      RingsDeep(elem, k, id, Tail(k, 0), true, off + |t| + |s|, lvl + 1);
      RingsDeep(elem, r, p, id, NotEnded(e, s), off + |t| + |s| + Len(k) + |e|, if NotEnded(e, s) then lvl + 1 else lvl);
  }

  /** An element behind one that is not ended has a first mark, although it is not the first of its list. */
  lemma {:induction false} ListUndisturbed(elem: Elems, c: Content, p: nat, s: seq<nat>, n: nat, w: nat, f: bool)
    requires Rings(elem, c, w, f) && ListOk(elem, p, s) && Deep(elem, c) && n <= |s| && s[n..] == TopSeq(c)
    ensures Undisturbed(c)
    decreases c
  {
    hide NotEnded, Tail;
    match c
    case End(_) =>
    case Mark(_, _, r) => ListUndisturbed(elem, r, p, s, n, w, f);
    case Elem(_, id, t, k, e, r) =>
      assert s[n..][0] == id && s[n..][1..] == s[n + 1..] && TopSeq(c)[1..] == TopSeq(r);
      ListUndisturbed(elem, r, p, s, n + 1, id, NotEnded(e, t));
      assert TopSeq(k)[0..] == TopSeq(k);
      ListUndisturbed(elem, k, id, TopSeq(k), 0, Tail(k, 0), true);
      if n + 1 < |s| {
        FirstMark(elem, r, id, NotEnded(e, t));
        assert s[n + 1..][0] == s[n + 1];
        assert LinksOk(elem[s[n + 1]], p, s, n + 1);
      }
  }

  lemma {:induction false} FirstMark(elem: Elems, c: Content, w: nat, f: bool)
    requires Rings(elem, c, w, f) && TopSeq(c) != []
    ensures TopSeq(c)[0] < |elem| && elem[TopSeq(c)[0]].first == f
    decreases c
  {
    hide NotEnded, Tail;
    match c
    case Mark(_, _, r) => FirstMark(elem, r, w, f);
    case _ =>
  }

  /** The links are those that edits rely on exactly if no list has an element behind one that is not ended. */
  lemma LinkedIff(elem: Elems, c: Content)
    requires Kin(elem, c, 0) && Spans(elem, c, 0, 0)
    ensures Linked(elem, c) <==> Undisturbed(c)
  {
    hide Chain, Rings, Spans, Deep, ListOk, Undisturbed, Tail;
    if Undisturbed(c) {
      KinList(elem, c, 0);
      RingsDeep(elem, c, 0, Tail(c, 0), true, 0, 0);
    }
    if Linked(elem, c) {
      assert TopSeq(c)[0..] == TopSeq(c);
      ListUndisturbed(elem, c, 0, TopSeq(c), 0, Tail(c, 0), true);
    }
  }

  // ---- Records ----

  /** The records are those that edits rely on exactly if every element is ended. */
  lemma {:induction false} OffsetsIff(elem: Elems, c: Content, off: int, lvl: int)
    requires Spans(elem, c, off, lvl)
    ensures Offsets(elem, c, off, lvl) <==> AllEnded(c)
    decreases c
  {
    hide NotEnded;
    match c
    case End(_) =>
    case Mark(t, m, r) => OffsetsIff(elem, r, off + |t| + |m|, lvl);
    case Elem(t, _, s, k, e, r) =>
      if !NotEnded(e, s) {
        OffsetsIff(elem, k, off + |t| + |s|, lvl + 1);
        OffsetsIff(elem, r, off + |t| + |s| + Len(k) + |e|, lvl);
      }
  }
}
