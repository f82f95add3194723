/** The state of the tag-stack parser as content, and what it has to do with the recursive parser:
    while nothing is wrong, what is on the stack and what is still to be read make up the parse of the
    whole document. */
module ParseStack {
  import opened Chars
  import opened Token
  import opened Content

  /** The list `a` with `b` in the place of its end. */
  function Graft(a: Content, b: Content): Content {
    match a
    case End(_) => b
    case Mark(t, m, r) => Mark(t, m, Graft(r, b))
    case Elem(t, id, s, k, e, r) => Elem(t, id, s, k, e, Graft(r, b))
  }

  /** No text stands at the end of the list. */
  predicate Bare(a: Content) {
    match a
    case End(t) => t == ""
    case Mark(_, _, r) => Bare(r)
    case Elem(_, _, _, _, _, r) => Bare(r)
  }

  // ---- Elements without end tags ----

  /** An element that has no end tag although it should. */
  predicate NotEnded(etag: string, stag: string) {
    etag == "" && !NodeAt(stag, 1).empty
  }

  /** The names of the elements of one list that are not ended. */
  function LeftOpen(c: Content): seq<string> {
    match c
    case End(_) => []
    case Mark(_, _, r) => LeftOpen(r)
    case Elem(_, _, s, _, e, r) => (if NotEnded(e, s) then [NameOf(s)] else []) + LeftOpen(r)
  }

  lemma {:induction false} OpenGraft(a: Content, b: Content)
    ensures LeftOpen(Graft(a, b)) == LeftOpen(a) + LeftOpen(b)
  {
    hide NotEnded, NameOf;
    match a
    case End(_) =>
    case Mark(_, _, r) => OpenGraft(r, b);
    case Elem(_, _, s, _, e, r) =>
      OpenGraft(r, b);
      var x: seq<string> := if NotEnded(e, s) then [NameOf(s)] else [];
      assert x + (LeftOpen(r) + LeftOpen(b)) == (x + LeftOpen(r)) + LeftOpen(b);
  }

  /** The open elements, innermost first: what precedes each of them in its list, and its start tag. */
  datatype Stack = Bottom | Push(below: Stack, left: Content, text: string, id: nat, stag: string)

  function EraseStack(st: Stack): Stack {
    match st
    case Bottom => Bottom
    case Push(b, l, t, _, s) => Push(EraseStack(b), Erase(l), t, 0, s)
  }

  /** What becomes of the document when the innermost open list continues with the parse `r`. */
  function Finish(doc: string, st: Stack, left: Content, r: Parsed): Parsed
    requires r.Done? ==> r.next <= |doc|
    decreases st
  {
    match r
    case Fail => Fail
    case Done(c, next) =>
      match st
      case Bottom => if next == |doc| then Done(Graft(left, c), next) else Fail
      case Push(b, l, t, id, s) =>
        if next == |doc| then Fail else
        var f := next + NodeIn(doc, next).len;
        if !Match(NameOf(doc[next..f]), NameOf(s)) then Fail
        else Finish(doc, b, Graft(l, Elem(t, id, s, Graft(left, c), doc[next..f], End(""))), ParseContent(doc, f))
  }

  lemma {:induction false} GraftAssoc(a: Content, b: Content, c: Content)
    ensures Graft(Graft(a, b), c) == Graft(a, Graft(b, c))
  {
    match a
    case End(_) =>
    case Mark(_, _, r) => GraftAssoc(r, b, c);
    case Elem(_, _, _, _, _, r) => GraftAssoc(r, b, c);
  }

  lemma {:induction false} EraseGraft(a: Content, b: Content)
    ensures Erase(Graft(a, b)) == Graft(Erase(a), Erase(b))
  {
    match a
    case End(_) =>
    case Mark(_, _, r) => EraseGraft(r, b);
    case Elem(_, _, _, _, _, r) => EraseGraft(r, b);
  }

  lemma {:induction false} RenderGraft(a: Content, b: Content)
    requires Bare(a)
    ensures Render(Graft(a, b)) == Render(a) + Render(b)
  {
    match a
    case End(_) =>
    case Mark(t, m, r) =>
      RenderGraft(r, b);
      assert t + m + (Render(r) + Render(b)) == (t + m + Render(r)) + Render(b);
    case Elem(t, _, s, k, e, r) =>
      RenderGraft(r, b);
      var x := t + (s + Render(k) + e);
      assert x + (Render(r) + Render(b)) == (x + Render(r)) + Render(b);
  }

  lemma {:induction false} BareGraft(a: Content, b: Content)
    requires Bare(b)
    ensures Bare(Graft(a, b))
  {
    match a
    case End(_) =>
    case Mark(_, _, r) => BareGraft(r, b);
    case Elem(_, _, _, _, _, r) => BareGraft(r, b);
  }

  // ---- One node at a time ----

  /** The parser stands at `q`, behind the text that begins at `p`. */
  predicate AtNode(doc: string, p: nat, q: nat) {
    p <= q <= |doc| && NoLt(doc[p..q]) && (q < |doc| ==> doc[q] == '<')
  }

  /** Where the node behind the one at `q` begins. */
  function NextNode(doc: string, q: nat): nat
    requires q <= |doc|
  {
    q + NodeIn(doc, q).len
  }

  lemma FinishStart(doc: string)
    ensures Finish(doc, Bottom, End(""), ParseContent(doc, 0)) == ParseDoc(doc)
  {
    hide ParseContent;
  }

  lemma ParseAt(doc: string, p: nat, q: nat)
    requires AtNode(doc, p, q)
    ensures ParseContent(doc, p) == ParseTags(doc, p, q)
  {
    hide ParseTags;
    TextEndUnique(doc, p, q);
  }

  /** How the parse of the rest goes on behind an item. */
  function Behind(x: Content, r: Parsed): Parsed {
    match r
    case Fail => Fail
    case Done(c, n) => Done(Graft(x, c), n)
  }

  lemma GraftNothing(r: Parsed)
    ensures r.Done? ==> Graft(End(""), r.c) == r.c
  {
  }

  lemma ParseMarkAt(doc: string, p: nat, q: nat)
    requires AtNode(doc, p, q) && q < |doc| && NodeIn(doc, q).typ !in {ELEMENT, END_TAG, BAD}
    ensures q < NextNode(doc, q) <= |doc|
    ensures var e := NextNode(doc, q); ParseContent(doc, p) == Behind(Mark(doc[p..q], doc[q..e], End("")), ParseContent(doc, e))
  {
    hide ParseContent, NodeIn, Match, NameOf;
    ParseAt(doc, p, q);
    GraftNothing(ParseContent(doc, NextNode(doc, q)));
  }

  lemma ParseEmptyAt(doc: string, p: nat, q: nat)
    requires AtNode(doc, p, q) && q < |doc| && NodeIn(doc, q).typ == ELEMENT && NodeIn(doc, q).empty
    ensures q < NextNode(doc, q) <= |doc|
    ensures var e := NextNode(doc, q);
            ParseContent(doc, p) == Behind(Elem(doc[p..q], 0, doc[q..e], End(""), "", End("")), ParseContent(doc, e))
  {
    hide ParseContent, NodeIn, Match, NameOf;
    ParseAt(doc, p, q);
    GraftNothing(ParseContent(doc, NextNode(doc, q)));
  }

  lemma FinishBehind(doc: string, st: Stack, left: Content, x: Content, r: Parsed)
    requires r.Done? ==> r.next <= |doc|
    ensures Finish(doc, st, left, Behind(x, r)) == Finish(doc, st, Graft(left, x), r)
  {
    hide NodeIn, Graft, ParseContent, Match, NameOf;
    if r.Done? {
      GraftAssoc(left, x, r.c);
    }
  }

  /** Comments, instructions, CDATA sections and document types. */
  lemma FinishMark(doc: string, st: Stack, left: Content, p: nat, q: nat)
    requires AtNode(doc, p, q) && q < |doc| && NodeIn(doc, q).typ !in {ELEMENT, END_TAG, BAD}
    ensures q < NextNode(doc, q) <= |doc|
    ensures var e := NextNode(doc, q);
            Finish(doc, st, left, ParseContent(doc, p))
            == Finish(doc, st, Graft(left, Mark(doc[p..q], doc[q..e], End(""))), ParseContent(doc, e))
  {
    hide ParseContent, NodeIn, Finish, Graft, Behind;
    ParseMarkAt(doc, p, q);
    FinishBehind(doc, st, left, Mark(doc[p..q], doc[q..NextNode(doc, q)], End("")), ParseContent(doc, NextNode(doc, q)));
  }

  lemma FinishEmpty(doc: string, st: Stack, left: Content, p: nat, q: nat)
    requires AtNode(doc, p, q) && q < |doc| && NodeIn(doc, q).typ == ELEMENT && NodeIn(doc, q).empty
    ensures q < NextNode(doc, q) <= |doc|
    ensures var e := NextNode(doc, q);
            Finish(doc, st, left, ParseContent(doc, p))
            == Finish(doc, st, Graft(left, Elem(doc[p..q], 0, doc[q..e], End(""), "", End(""))), ParseContent(doc, e))
  {
    hide ParseContent, NodeIn, Finish, Graft, Behind;
    ParseEmptyAt(doc, p, q);
    FinishBehind(doc, st, left, Elem(doc[p..q], 0, doc[q..NextNode(doc, q)], End(""), "", End("")), ParseContent(doc, NextNode(doc, q)));
  }

  /** How the parse of an element with content is put together from the parses of its parts. */
  function Wrapped(doc: string, text: string, stag: string, k: Parsed): Parsed
    requires k.Done? ==> k.next <= |doc|
  {
    match k
    case Fail => Fail
    case Done(c, m) =>
      if m == |doc| then Fail else
      var f := NextNode(doc, m);
      if !Match(NameOf(doc[m..f]), NameOf(stag)) then Fail
      else Behind(Elem(text, 0, stag, c, doc[m..f], End("")), ParseContent(doc, f))
  }

  lemma ParseOpenAt(doc: string, p: nat, q: nat)
    requires AtNode(doc, p, q) && q < |doc| && NodeIn(doc, q).typ == ELEMENT && !NodeIn(doc, q).empty
    ensures q < NextNode(doc, q) <= |doc|
    ensures var e := NextNode(doc, q); ParseContent(doc, p) == Wrapped(doc, doc[p..q], doc[q..e], ParseContent(doc, e))
  {
    hide ParseContent, NodeIn, Match, NameOf;
    ParseAt(doc, p, q);
    var k := ParseContent(doc, NextNode(doc, q));
    if k.Done? && k.next < |doc| {
      GraftNothing(ParseContent(doc, NextNode(doc, k.next)));
    }
  }

  lemma FinishAround(doc: string, st: Stack, left: Content, text: string, stag: string, k: Parsed)
    requires k.Done? ==> k.next <= |doc|
    ensures var r := Wrapped(doc, text, stag, k);
            (r.Done? ==> r.next <= |doc|) && Finish(doc, st, left, r) == Finish(doc, Push(st, left, text, 0, stag), End(""), k)
  {
    hide ParseContent, NodeIn, Match, NameOf, Behind;
    if k.Done? && k.next < |doc| {
      var f := NextNode(doc, k.next);
      assert Graft(End(""), k.c) == k.c;
      BehindBound(Elem(text, 0, stag, k.c, doc[k.next..f], End("")), ParseContent(doc, f));
      FinishBehind(doc, st, left, Elem(text, 0, stag, k.c, doc[k.next..f], End("")), ParseContent(doc, f));
    }
  }

  lemma BehindBound(x: Content, r: Parsed)
    ensures Behind(x, r).Done? ==> r.Done? && Behind(x, r).next == r.next
  {
  }

  lemma FinishOpen(doc: string, st: Stack, left: Content, p: nat, q: nat)
    requires AtNode(doc, p, q) && q < |doc| && NodeIn(doc, q).typ == ELEMENT && !NodeIn(doc, q).empty
    ensures q < NextNode(doc, q) <= |doc|
    ensures var e := NextNode(doc, q);
            Finish(doc, st, left, ParseContent(doc, p))
            == Finish(doc, Push(st, left, doc[p..q], 0, doc[q..e]), End(""), ParseContent(doc, e))
  {
    hide ParseContent, NodeIn, Finish, Wrapped;
    ParseOpenAt(doc, p, q);
    FinishAround(doc, st, left, doc[p..q], doc[q..NextNode(doc, q)], ParseContent(doc, NextNode(doc, q)));
  }

  /** An end tag closes the innermost open element, if the names match. */
  lemma FinishClose(doc: string, st: Stack, left: Content, p: nat, q: nat)
    requires AtNode(doc, p, q) && q < |doc| && NodeIn(doc, q).typ == END_TAG
    ensures q < NextNode(doc, q) <= |doc|
    ensures var e := NextNode(doc, q);
            Finish(doc, st, left, ParseContent(doc, p)) ==
            if st.Push? && Match(NameOf(doc[q..e]), NameOf(st.stag))
            then Finish(doc, st.below, Graft(st.left, Elem(st.text, st.id, st.stag, Graft(left, End(doc[p..q])), doc[q..e], End(""))),
                        ParseContent(doc, e))
            else Fail
  {
    hide ParseContent, NodeIn, Match, NameOf;
    ParseAt(doc, p, q);
  }

  lemma FinishBad(doc: string, st: Stack, left: Content, p: nat, q: nat)
    requires AtNode(doc, p, q) && q < |doc| && NodeIn(doc, q).typ == BAD
    ensures Finish(doc, st, left, ParseContent(doc, p)) == Fail
  {
    hide ParseContent, NodeIn;
    ParseAt(doc, p, q);
  }

  lemma FinishEnd(doc: string, st: Stack, left: Content, p: nat)
    requires AtNode(doc, p, |doc|)
    ensures Finish(doc, st, left, ParseContent(doc, p))
            == if st.Bottom? then Done(Graft(left, End(doc[p..])), |doc|) else Fail
  {
    hide ParseContent, NodeIn;
    ParseAt(doc, p, |doc|);
    assert doc[p..] == doc[p..|doc|];
  }
}
