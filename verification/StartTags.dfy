/** The elements of a document are its start tags: no error makes the parser skip one, or find one that is not there. */
module StartTags {
  import opened Chars
  import opened Token
  import opened Content
  import opened Index
  import opened Represent
  import opened ParseStack
  import opened ParseIndex
  import opened ParseState
  import opened Repairs
  import opened Lawfulness

  /** Where the start tags among the nodes stand that are cut off the document from `p` on. */
  function ElementNodes(doc: string, p: nat): seq<nat>
    requires p <= |doc|
    decreases |doc| - p
  {
    if p == |doc| then [] else (if NodeIn(doc, p).typ == ELEMENT then [p] else []) + ElementNodes(doc, NextNode(doc, p))
  }

  /** Where the start tags of content stand that begins at `off`, in document order. */
  function StartsAt(c: Content, off: nat): seq<nat> {
    match c
    case End(_) => []
    case Mark(t, m, r) => StartsAt(r, off + |t| + |m|)
    case Elem(t, _, s, k, e, r) => [off + |t|] + StartsAt(k, off + |t| + |s|) + StartsAt(r, off + |t| + |s| + Len(k) + |e|)
  }

  /** There is no start tag in text. */
  lemma {:induction false} TextSkips(doc: string, p: nat, q: nat)
    requires p <= q <= |doc| && NoLt(doc[p..q]) && (q < |doc| ==> doc[q] == '<')
    ensures ElementNodes(doc, p) == ElementNodes(doc, q)
    decreases q - p
  {
    hide NodeAt, NoLt, Render;
    if p < q {
      var e := NextNode(doc, p);
      TextNode(doc, p, q);
      TextSkips(doc, e, q);
    }
  }

  lemma TextNode(doc: string, p: nat, q: nat)
    requires p < q <= |doc| && NoLt(doc[p..q]) && (q < |doc| ==> doc[q] == '<')
    ensures p < NextNode(doc, p) <= q && NodeIn(doc, p).typ != ELEMENT && NoLt(doc[NextNode(doc, p)..q])
  {
    hide NodeAt, Render;
    var e := NextNode(doc, p);
    NodeProgress(doc[p..], p);
    assert doc[p] == doc[p..q][0];
    assert NoLt(doc[p..e]) by { assert doc[p..][..e - p] == doc[p..e]; }
    forall k | 0 <= k < q - e ensures doc[e..q][k] != '<' { assert doc[e..q][k] == doc[p..q][e - p + k]; }
  }

  lemma NodeNext(doc: string, q: nat, m: string)
    requires NodeHere(doc, q, m)
    ensures NextNode(doc, q) == q + |m| <= |doc| && ElementNodes(doc, q) == (if NodeIn(doc, q).typ == ELEMENT then [q] else []) + ElementNodes(doc, q + |m|)
  {
    hide NodeAt, NodeIn, Render;
  }

  /** The text in front of the first item. */
  lemma HeadSkips(doc: string, c: Content, off: nat, open: seq<string>)
    requires HeadOk(doc, c, off, open) && EndsWell(doc, c, off, open)
    ensures off + |c.text| <= |doc| && off <= |doc| && ElementNodes(doc, off) == ElementNodes(doc, off + |c.text|)
  {
    hide HeadOk, EndsWell, TextEnd, Render;
    HeadText(doc, c, off, open);
    TextEndIs(doc, off);
    TextSkips(doc, off, off + |c.text|);
  }

  lemma TextEndIs(doc: string, p: nat)
    requires p <= |doc|
    ensures p <= TextEnd(doc, p) <= |doc| && NoLt(doc[p..TextEnd(doc, p)]) && (TextEnd(doc, p) < |doc| ==> doc[TextEnd(doc, p)] == '<')
  {
  }

  lemma WellBound(doc: string, c: Content, off: nat, open: seq<string>)
    requires EndsWell(doc, c, off, open)
    ensures off + Len(c) <= |doc| && RestAt(c, off) + (if c.End? then 0 else Len(c.rest)) == off + Len(c)
  {
    RestLen(c, off, open);
  }

  lemma MarkNode(doc: string, c: Content, off: nat, open: seq<string>)
    requires c.Mark? && HeadOk(doc, c, off, open)
    ensures off + |c.text| <= RestAt(c, off) <= |doc| && ElementNodes(doc, off + |c.text|) == ElementNodes(doc, RestAt(c, off))
  {
    hide NodeIn, NodeAt, NameOf, NoLt, NoneMatches, ElementNodes, Render;
    NodeNext(doc, off + |c.text|, c.mark);
  }

  lemma StartThere(doc: string, c: Content, off: nat, open: seq<string>)
    requires c.Elem? && HeadOk(doc, c, off, open)
    ensures NodeHere(doc, off + |c.text|, c.stag) && NodeIn(doc, off + |c.text|).typ == ELEMENT && (c.etag == "" ==> c.kids == End(""))
  {
    hide NodeIn, NodeAt, NameOf, NoLt, EndsAt, NodeHere, At, Render;
  }

  lemma StartNode(doc: string, c: Content, off: nat, open: seq<string>)
    requires c.Elem? && HeadOk(doc, c, off, open)
    ensures var q := off + |c.text|; q <= q + |c.stag| <= |doc| && ElementNodes(doc, q) == [q] + ElementNodes(doc, q + |c.stag|)
    ensures c.etag == "" ==> c.kids == End("") && RestAt(c, off) == off + |c.text| + |c.stag|
  {
    hide NodeIn, NodeAt, NameOf, ElementNodes, HeadOk, Render, NodeHere, Len, RestAt;
    StartThere(doc, c, off, open);
    NodeNext(doc, off + |c.text|, c.stag);
    if c.etag == "" { EmptyRest(c, off); }
  }

  lemma EmptyRest(c: Content, off: nat)
    requires c.Elem? && c.etag == "" && c.kids == End("")
    ensures RestAt(c, off) == off + |c.text| + |c.stag|
  {
    hide Render;
  }

  lemma EndNode(doc: string, c: Content, off: nat, open: seq<string>)
    requires c.Elem? && c.etag != "" && HeadOk(doc, c, off, open)
    ensures var x := off + |c.text| + |c.stag| + Len(c.kids);
            x <= x + |c.etag| == RestAt(c, off) <= |doc| && ElementNodes(doc, x) == ElementNodes(doc, RestAt(c, off))
  {
    hide NodeIn, NodeAt, NameOf, NoLt, ElementNodes, HeadOk, LeftOpen, NoneMatches, Match, Render;
    EndedBy(doc, c, off, open);
    NodeNext(doc, off + |c.text| + |c.stag| + Len(c.kids), c.etag);
  }

  lemma StartsParts(c: Content, off: nat)
    ensures c.End? ==> StartsAt(c, off) == []
    ensures c.Mark? ==> StartsAt(c, off) == StartsAt(c.rest, RestAt(c, off))
    ensures c.Elem? ==> StartsAt(c, off) == [off + |c.text|] + StartsAt(c.kids, off + |c.text| + |c.stag|) + StartsAt(c.rest, RestAt(c, off))
    ensures c.Elem? && c.kids == End("") ==> StartsAt(c.kids, off + |c.text| + |c.stag|) == []
  {
  }

  lemma {:induction false} LawfulStarts(doc: string, c: Content, off: nat, open: seq<string>)
    requires Lawful(doc, c, off, open) && EndsWell(doc, c, off, open)
    ensures off + Len(c) <= |doc| && ElementNodes(doc, off) == StartsAt(c, off) + ElementNodes(doc, off + Len(c))
    decreases c
  {
    hide Lawful, HeadOk, EndsWell, NameOf, RestAt, RestOpen, ElementNodes, StartsAt, Render;
    LawfulParts(doc, c, off, open);
    HeadSkips(doc, c, off, open);
    WellBound(doc, c, off, open);
    StartsParts(c, off);
    if !c.End? {
      RestEnds(doc, c, off, open);
      LawfulStarts(doc, c.rest, RestAt(c, off), RestOpen(c, open));
      if c.Mark? {
        MarkNode(doc, c, off, open);
      } else {
        StartNode(doc, c, off, open);
        if c.etag != "" {
          EndNode(doc, c, off, open);
          KidsEnd(doc, c, off, open);
          LawfulStarts(doc, c.kids, off + |c.text| + |c.stag|, open + [NameOf(c.stag)]);
        }
      }
    }
  }

  // ---- The records ----

  /** The records from slot `lo` on begin at `s`. */
  predicate Recorded(elem: Elems, lo: nat, s: seq<nat>) {
    lo + |s| <= |elem| && forall j :: 0 <= j < |s| ==> elem[lo + j].nStart == s[j]
  }

  lemma RecordedJoin(elem: Elems, lo: nat, x: nat, a: seq<nat>, b: seq<nat>, s: seq<nat>)
    requires s == [x] + a + b && lo < |elem| && elem[lo].nStart == x && Recorded(elem, lo + 1, a) && Recorded(elem, lo + 1 + |a|, b)
    ensures Recorded(elem, lo, s)
  {
    forall j | 0 <= j < |s| ensures elem[lo + j].nStart == s[j] {
      if j == 0 {
        assert s[0] == x;
      } else if j <= |a| {
        var i := j - 1;
        assert s[j] == a[i] && lo + 1 + i == lo + j;
      } else {
        var i := j - 1 - |a|;
        assert s[j] == b[i] && lo + 1 + |a| + i == lo + j;
      }
    }
  }

  lemma RecordStart(e: ElemPos, c: Content, off: nat, lvl: int)
    requires c.Elem? && Spanned(e, c, off, lvl)
    ensures e.nStart == off + |c.text|
  {
  }

  lemma {:induction false} StartRecords(elem: Elems, c: Content, off: nat, lvl: int, lo: nat)
    requires Spans(elem, c, off, lvl) && Numbered(c, lo) && lo + Count(c) <= |elem|
    ensures |StartsAt(c, off)| == Count(c) && Recorded(elem, lo, StartsAt(c, off))
    decreases c
  {
    hide NotEnded, Spanned, Recorded, Render;
    match c
    case End(_) => NoneRecorded(elem, lo);
    case Mark(t, m, r) => StartRecords(elem, r, off + |t| + |m|, lvl, lo);
    case Elem(t, _, s, k, e, r) =>
      StartRecords(elem, k, off + |t| + |s|, lvl + 1, lo + 1);
      StartRecords(elem, r, off + |t| + |s| + Len(k) + |e|, if NotEnded(e, s) then lvl + 1 else lvl, lo + 1 + Count(k));
      RecordStart(elem[lo], c, off, lvl);
      RecordedJoin(elem, lo, off + |t|, StartsAt(k, off + |t| + |s|), StartsAt(r, off + |t| + |s| + Len(k) + |e|), StartsAt(c, off));
  }

  lemma NoneRecorded(elem: Elems, lo: nat)
    requires lo <= |elem|
    ensures Recorded(elem, lo, [])
  {
  }

  /** For every text: as many slots are taken as there are start tags among its nodes, and the element in each of them
      begins at the start tag with that number. */
  lemma EveryStartTag(doc: string, elem: Elems, free: nat)
    requires Indexed(doc, elem, free, Repaired(doc))
    ensures free == 1 + |ElementNodes(doc, 0)| <= |elem|
    ensures forall i :: 0 < i < free ==> elem[i].nStart == ElementNodes(doc, 0)[i - 1]
  {
    hide Lawful, Repaired, Kin, Spans, Numbered, Shape, StartsAt, ElementNodes, Len, Render;
    var c := Repaired(doc);
    RepairedLawful(doc);
    LawfulStarts(doc, c, 0, []);
    StartRecords(elem, c, 0, 0, 1);
    assert ElementNodes(doc, |doc|) == [] by { NoNodes(doc); }
    assert StartsAt(c, 0) + [] == StartsAt(c, 0);
    forall i | 0 < i < free ensures elem[i].nStart == ElementNodes(doc, 0)[i - 1] { assert elem[1 + (i - 1)].nStart == ElementNodes(doc, 0)[i - 1]; }
  }

  lemma NoNodes(doc: string)
    ensures ElementNodes(doc, |doc|) == []
  {
  }
}
