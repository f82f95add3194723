/** The edits of the document as changes of its content, and what they do to the text, to the
    slots and to well-formedness. */
module Edit {
  import opened Chars
  import opened Token
  import opened Content
  import opened Index

  const EOL := "\r\n"

  // ---- Edits of one sibling list ----

  function SetText(k: Content, t: string): Content {
    k.(text := t)
  }

  /** `x_InsertNew` in front of everything, or right after a sibling: the new element goes behind
      white space that ends at a tag, and a line end follows it. */
  function InsertHead(k: Content, id: nat, s: string, n: Content, e: string): Content {
    if AllWhite(k.text) then Elem(k.text, id, s, n, e, SetText(k, EOL))
    else Elem("", id, s, n, e, SetText(k, EOL + k.text))
  }

  /** In front of the parent's end tag. */
  function InsertLast(k: Content, id: nat, s: string, n: Content, e: string): Content {
    match k
    case End(t) => Elem(t, id, s, n, e, End(EOL))
    case Mark(t, m, r) => Mark(t, m, InsertLast(r, id, s, n, e))
    case Elem(t, i, s0, k0, e0, r) => Elem(t, i, s0, k0, e0, InsertLast(r, id, s, n, e))
  }

  function InsertAfter(k: Content, rel: nat, id: nat, s: string, n: Content, e: string): Content {
    match k
    case End(_) => k
    case Mark(t, m, r) => Mark(t, m, InsertAfter(r, rel, id, s, n, e))
    case Elem(t, i, s0, k0, e0, r) =>
      Elem(t, i, s0, k0, e0, if i == rel then InsertHead(r, id, s, n, e) else InsertAfter(r, rel, id, s, n, e))
  }

  function InsertBefore(k: Content, rel: nat, id: nat, s: string, n: Content, e: string): Content {
    match k
    case End(_) => k
    case Mark(t, m, r) => Mark(t, m, InsertBefore(r, rel, id, s, n, e))
    case Elem(t, i, s0, k0, e0, r) =>
      if i == rel then Elem(t, id, s, n, e, SetText(k, EOL))
      else Elem(t, i, s0, k0, e0, InsertBefore(r, rel, id, s, n, e))
  }

  /** The only child of a parent that had no content. */
  function InsertOnly(id: nat, s: string, n: Content, e: string): Content {
    Elem(EOL, id, s, n, e, End(EOL))
  }

  /** Where `x_AddElem` puts an element among the children of its parent. */
  datatype Where = Only | Head | Last | Behind(rel: nat) | InFront(rel: nat)

  function Insert(k: Content, w: Where, id: nat, s: string, n: Content, e: string): Content {
    match w
    case Only => InsertOnly(id, s, n, e)
    case Head => InsertHead(k, id, s, n, e)
    case Last => InsertLast(k, id, s, n, e)
    case Behind(rel) => InsertAfter(k, rel, id, s, n, e)
    case InFront(rel) => InsertBefore(k, rel, id, s, n, e)
  }

  predicate CanInsert(k: Content, w: Where) {
    match w
    case Only => k == End("")
    case Behind(rel) => rel in Top(k)
    case InFront(rel) => rel in Top(k)
    case _ => true
  }

  /** `x_RemoveElem`: the element goes, and with it white space up to the next tag. */
  function Remove(k: Content, t: nat): Content {
    match k
    case End(_) => k
    case Mark(x, m, r) => Mark(x, m, Remove(r, t))
    case Elem(x, i, s0, k0, e0, r) =>
      if i == t then SetText(r, x + (if AllWhite(r.text) then "" else r.text))
      else Elem(x, i, s0, k0, e0, Remove(r, t))
  }

  /** The elements of one sibling list. */
  function Top(k: Content): set<nat> {
    match k
    case End(_) => {}
    case Mark(_, _, r) => Top(r)
    case Elem(_, i, _, _, _, r) => {i} + Top(r)
  }

  // ---- Edits below an element of the tree ----

  /** The sibling list from element `p` on. */
  function Subtree(c: Content, p: nat): (n: Content)
    ensures p in Ids(c) ==> n.Elem? && n.id == p
  {
    match c
    case End(_) => c
    case Mark(_, _, r) => Subtree(r, p)
    case Elem(_, i, _, k, _, r) => if i == p then c else if p in Ids(k) then Subtree(k, p) else Subtree(r, p)
  }

  /** Element `p` with other tags and other content. */
  function With(c: Content, p: nat, s: string, k: Content, e: string): Content {
    match c
    case End(_) => c
    case Mark(t, m, r) => Mark(t, m, With(r, p, s, k, e))
    case Elem(t, i, s0, k0, e0, r) =>
      if i == p then Elem(t, i, s, k, e, r)
      else if p in Ids(k0) then Elem(t, i, s0, With(k0, p, s, k, e), e0, r)
      else Elem(t, i, s0, k0, e0, With(r, p, s, k, e))
  }

  /** The sibling list below `p`; below 0 it is the whole document. */
  function Below(c: Content, p: nat): Content {
    if p != 0 && p in Ids(c) then Subtree(c, p).kids else c
  }

  /** The document with another list below `p`. */
  function Put(c: Content, p: nat, k: Content): Content {
    if p != 0 && p in Ids(c) then With(c, p, Subtree(c, p).stag, k, Subtree(c, p).etag) else k
  }

  // ---- Text ----

  /** The text in front of the start tag of `p`, and the text after its end tag. */
  function Before(c: Content, p: nat): string {
    match c
    case End(_) => ""
    case Mark(t, m, r) => t + m + Before(r, p)
    case Elem(t, i, s, k, e, r) =>
      if i == p then t
      else if p in Ids(k) then t + s + Before(k, p)
      else t + (s + Render(k) + e) + Before(r, p)
  }

  function After(c: Content, p: nat): string {
    match c
    case End(_) => ""
    case Mark(_, _, r) => After(r, p)
    case Elem(_, i, _, k, e, r) =>
      if i == p then Render(r)
      else if p in Ids(k) then After(k, p) + e + Render(r)
      else After(r, p)
  }

  lemma {:induction false} RenderWith(c: Content, p: nat, s: string, k: Content, e: string)
    requires p in Ids(c)
    ensures Render(With(c, p, s, k, e)) == Before(c, p) + (s + Render(k) + e) + After(c, p)
  {
    var x := s + Render(k) + e;
    match c
    case Mark(t, m, r) =>
      RenderWith(r, p, s, k, e);
      Grouped(t + m, Before(r, p), x, After(r, p));
    case Elem(t, i, s0, k0, e0, r) =>
      if i == p {
      } else if p in Ids(k0) {
        RenderWith(k0, p, s, k, e);
        GroupedInside(t, s0, Before(k0, p), x, After(k0, p), e0, Render(r));
      } else {
        RenderWith(r, p, s, k, e);
        Grouped(t + (s0 + Render(k0) + e0), Before(r, p), x, After(r, p));
      }
  }

  lemma Grouped(t: string, b: string, x: string, a: string)
    ensures t + (b + x + a) == (t + b) + x + a
  {
  }

  lemma GroupedInside(t: string, s: string, b: string, x: string, a: string, e: string, r: string)
    ensures t + (s + (b + x + a) + e) + r == (t + s + b) + x + (a + e + r)
  {
  }

  lemma {:induction false} WithSelf(c: Content, p: nat)
    requires p in Ids(c)
    ensures var n := Subtree(c, p); With(c, p, n.stag, n.kids, n.etag) == c
  {
    match c
    case Mark(_, _, r) => WithSelf(r, p);
    case Elem(_, i, _, k, _, r) =>
      if i != p {
        if p in Ids(k) { WithSelf(k, p); } else { WithSelf(r, p); }
      }
  }

  // ---- Well-formedness ----

  /** The tags and the content of one element fit together. */
  predicate ElemOk(s: string, k: Content, e: string) {
    (if e == "" then IsStart(s, true) && k == End("") else IsStart(s, false) && Closes(e, s)) && WF(k)
  }

  lemma {:induction false} WFWith(c: Content, p: nat, s: string, k: Content, e: string)
    requires WF(c) && p in Ids(c)
    ensures WF(With(c, p, s, k, e)) <==> ElemOk(s, k, e)
    ensures ElemOk(Subtree(c, p).stag, Subtree(c, p).kids, Subtree(c, p).etag)
  {
    hide IsMark, IsStart, Closes;
    match c
    case Mark(_, _, r) => WFWith(r, p, s, k, e);
    case Elem(_, i, _, k0, e0, r) =>
      if i == p {
      } else if p in Ids(k0) {
        WFWith(k0, p, s, k, e);
        assert With(k0, p, s, k, e) != End("");
      } else {
        WFWith(r, p, s, k, e);
      }
  }

  lemma NoLtConcat(a: string, b: string)
    ensures NoLt(a + b) <==> NoLt(a) && NoLt(b)
  {
    forall i | 0 <= i < |a| ensures (a + b)[i] == a[i] {}
    forall i | 0 <= i < |b| ensures (a + b)[|a| + i] == b[i] {}
    if NoLt(a + b) {
      forall i | 0 <= i < |b| ensures b[i] != '<' { assert (a + b)[|a| + i] == b[i]; }
    }
  }

  lemma WFSetText(k: Content, t: string)
    requires WF(k) && NoLt(t)
    ensures WF(SetText(k, t))
  {
  }

  lemma WFInsertHead(k: Content, id: nat, s: string, n: Content, e: string)
    requires WF(k)
    ensures WF(InsertHead(k, id, s, n, e)) <==> ElemOk(s, n, e)
  {
    hide IsMark, IsStart, Closes;
    NoLtConcat(EOL, k.text);
    WFSetText(k, EOL);
    WFSetText(k, EOL + k.text);
  }

  lemma {:induction false} WFInsertLast(k: Content, id: nat, s: string, n: Content, e: string)
    requires WF(k)
    ensures WF(InsertLast(k, id, s, n, e)) <==> ElemOk(s, n, e)
  {
    hide IsMark, IsStart, Closes;
    match k
    case End(_) =>
    case Mark(_, _, r) => WFInsertLast(r, id, s, n, e);
    case Elem(_, _, _, _, _, r) => WFInsertLast(r, id, s, n, e);
  }

  lemma {:induction false} WFInsertAfter(k: Content, rel: nat, id: nat, s: string, n: Content, e: string)
    requires WF(k) && rel in Top(k)
    ensures WF(InsertAfter(k, rel, id, s, n, e)) <==> ElemOk(s, n, e)
  {
    hide IsMark, IsStart, Closes;
    match k
    case Mark(_, _, r) => WFInsertAfter(r, rel, id, s, n, e);
    case Elem(_, i, _, _, _, r) =>
      if i == rel { WFInsertHead(r, id, s, n, e); } else { WFInsertAfter(r, rel, id, s, n, e); }
  }

  lemma {:induction false} WFInsertBefore(k: Content, rel: nat, id: nat, s: string, n: Content, e: string)
    requires WF(k) && rel in Top(k)
    ensures WF(InsertBefore(k, rel, id, s, n, e)) <==> ElemOk(s, n, e)
  {
    hide IsMark, IsStart, Closes;
    match k
    case Mark(_, _, r) => WFInsertBefore(r, rel, id, s, n, e);
    case Elem(_, i, _, _, _, r) =>
      if i == rel { WFSetText(k, EOL); } else { WFInsertBefore(r, rel, id, s, n, e); }
  }

  lemma {:induction false} WFRemove(k: Content, t: nat)
    requires WF(k) && t in Top(k)
    ensures WF(Remove(k, t))
  {
    hide IsMark, IsStart, Closes;
    match k
    case Mark(_, _, r) => WFRemove(r, t);
    case Elem(x, i, _, _, _, r) =>
      if i == t {
        NoLtConcat(x, r.text);
        WFSetText(r, x + (if AllWhite(r.text) then "" else r.text));
      } else {
        WFRemove(r, t);
      }
  }
}
