/** What the parser makes of any text, ill-formed ones included: the stack parser with its repair as a function over
    the nodes of the text, and a description of its result that does not speak of a stack, which no other content meets. */
module Repairs {
  import opened Chars
  import opened Token
  import opened Content
  import opened Index
  import opened Represent
  import Edit
  import opened Tags
  import opened ParseStack
  import opened ParseIndex
  import opened ParseLinks
  import opened ParseState

  // ---- The parser as a function ----

  /** The level of the innermost open element whose name the name in an end tag matches, or 0. */
  function MatchLevel(name: string, st: Stack): (n: nat)
    ensures n <= OpenCount(st)
  {
    match st
    case Bottom => 0
    case Push(b, _, _, _, s) => if Match(name, NameOf(s)) then OpenCount(st) else MatchLevel(name, b)
  }

  /** The innermost list when the elements above level `n`, which have no end tags, have been repaired: the content of
      each of them has moved up behind it. */
  function Mended(st: Stack, left: Content, n: nat): Content {
    if OpenCount(st) <= n then left else Mended(st.below, Graft(st.left, Flattened(st, left)), n)
  }

  datatype Open = Open(st: Stack, left: Content)

  /** What is open behind an end tag: it closes the innermost open element with its name, and the elements above that one
      are repaired; when there is none, it stands alone. */
  function AfterEndTag(st: Stack, left: Content, text: string, etag: string): Open {
    var n := MatchLevel(NameOf(etag), st);
    if n == 0 then Open(st, Graft(left, Mark(text, etag, End("")))) else
    var top := Level(st, n);
    Open(top.below, Graft(top.left, Closing(top, Mended(st, left, n), text, etag)))
  }

  /** The content of the document when `st` is open, `left` has been read in the innermost list, the text from `p` to
      `q` follows it, and `free` is the next slot. */
  function Repair(doc: string, st: Stack, left: Content, p: nat, q: nat, free: nat): Content
    requires p <= q <= |doc|
    decreases |doc| - q
  {
    if q == |doc| then Graft(Mended(st, left, 0), End(doc[p..])) else
    var n, e := NodeIn(doc, q), NextNode(doc, q);
    if TextType(n.typ) then Repair(doc, st, left, p, e, free)
    else if n.typ == ELEMENT && n.empty then Repair(doc, st, Graft(left, Single(doc[p..q], free, doc[q..e])), e, e, free + 1)
    else if n.typ == ELEMENT then Repair(doc, Push(st, left, doc[p..q], free, doc[q..e]), End(""), e, e, free + 1)
    else if n.typ == END_TAG then
      var o := AfterEndTag(st, left, doc[p..q], doc[q..e]);
      Repair(doc, o.st, o.left, e, e, free)
    else Repair(doc, st, Graft(left, Mark(doc[p..q], doc[q..e], End(""))), e, e, free)
  }

  /** The content that the parser finds in a text, with slots 1, 2, and so on for its elements. */
  function Repaired(doc: string): Content {
    Repair(doc, Bottom, End(""), 0, 0, 1)
  }

  // ---- The parser, one node at a time ----

  lemma RepairText(doc: string, st: Stack, left: Content, p: nat, q: nat, free: nat)
    requires p <= q < |doc| && TextType(NodeIn(doc, q).typ)
    ensures q < NextNode(doc, q) <= |doc| && Repair(doc, st, left, p, q, free) == Repair(doc, st, left, p, NextNode(doc, q), free)
  {
    hide NodeIn, TextType, Render;
    NodeTypes(doc, p, q);
  }

  lemma RepairMark(doc: string, st: Stack, left: Content, p: nat, q: nat, free: nat)
    requires p <= q < |doc| && !TextType(NodeIn(doc, q).typ) && NodeIn(doc, q).typ !in {ELEMENT, END_TAG}
    ensures var e := NextNode(doc, q);
            q < e <= |doc| && Repair(doc, st, left, p, q, free) == Repair(doc, st, Graft(left, Mark(doc[p..q], doc[q..e], End(""))), e, e, free)
  {
    hide NodeIn, TextType, Graft, Render;
    NodeTypes(doc, p, q);
  }

  lemma RepairStart(doc: string, st: Stack, left: Content, p: nat, q: nat, free: nat)
    requires p <= q < |doc| && NodeIn(doc, q).typ == ELEMENT
    ensures var e := NextNode(doc, q);
            q < e <= |doc| && Repair(doc, st, left, p, q, free) ==
            if NodeIn(doc, q).empty then Repair(doc, st, Graft(left, Single(doc[p..q], free, doc[q..e])), e, e, free + 1)
            else Repair(doc, Push(st, left, doc[p..q], free, doc[q..e]), End(""), e, e, free + 1)
  {
    hide NodeIn, Graft, Single, Render;
    NodeTypes(doc, p, q);
  }

  lemma RepairEndTag(doc: string, st: Stack, left: Content, p: nat, q: nat, free: nat)
    requires p <= q < |doc| && NodeIn(doc, q).typ == END_TAG
    ensures var e := NextNode(doc, q);
            q < e <= |doc| && var o := AfterEndTag(st, left, doc[p..q], doc[q..e]);
            Repair(doc, st, left, p, q, free) == Repair(doc, o.st, o.left, e, e, free)
  {
    hide NodeIn, AfterEndTag, Render;
    NodeTypes(doc, p, q);
  }

  lemma AfterEndTagIs(st: Stack, left: Content, text: string, etag: string)
    ensures var n := MatchLevel(NameOf(etag), st); var top := Level(st, n);
            && (n == 0 ==> AfterEndTag(st, left, text, etag) == Open(st, Graft(left, Mark(text, etag, End("")))))
            && (n > 0 ==> top.Push? && AfterEndTag(st, left, text, etag) == Open(top.below, Graft(top.left, Closing(top, Mended(st, left, n), text, etag))))
  {
    hide Graft, Closing, Mended, NameOf, MatchLevel, Level, Render;
  }

  /** What is needed of the text and the stack for an end tag. */
  lemma EndTagReady(doc: string, elem: Elems, free: nat, st: Stack, left: Content, p: nat, q: nat, ill: bool)
    requires Reading(doc, elem, free, st, left, p, q, ill) && q < |doc| && NodeIn(doc, q).typ == END_TAG
    ensures OpenOk(elem, st) && p <= q < NextNode(doc, q) <= |doc| && NameIn(doc, q) == NameOf(doc[q..NextNode(doc, q)])
    ensures st.Push? ==> 0 < OpenCount(st) && Names(st)[OpenCount(st) - 1] == NameOf(st.stag)
    ensures st.Bottom? ==> OpenCount(st) == 0
  {
    hide Reading, NodeIn, NameIn, NameOf, OpenOk, NoLt, Parsing, NodeAt, OpenCount, Names, Render;
    ReadParts(doc, elem, free, st, left, p, q, ill);
    TagToken(doc, q);
    NodeTypes(doc, p, q);
    CountNames(st);
  }

  lemma CountNames(st: Stack)
    ensures st.Push? ==> 0 < OpenCount(st) && Names(st)[OpenCount(st) - 1] == NameOf(st.stag)
    ensures st.Bottom? ==> OpenCount(st) == 0
  {
    hide NameOf, Render;
  }

  lemma RepairEnd(doc: string, st: Stack, left: Content, p: nat, free: nat)
    requires p <= |doc|
    ensures Repair(doc, st, left, p, |doc|, free) == Graft(Mended(st, left, 0), End(doc[p..]))
  {
  }

  lemma RepairBegin(doc: string)
    ensures Repaired(doc) == Repair(doc, Bottom, End(""), 0, 0, 1)
  {
  }

  /** The search from the top of the stack finds the level. */
  lemma {:induction false} MatchIs(name: string, st: Stack, n: nat)
    requires n <= OpenCount(st) && (n > 0 ==> Match(name, Names(st)[n - 1])) && forall j :: n <= j < OpenCount(st) ==> !Match(name, Names(st)[j])
    ensures MatchLevel(name, st) == n
    decreases st
  {
    hide Match, NameOf, Render;
    if st.Push? {
      if n < OpenCount(st) {
        assert !Match(name, Names(st)[OpenCount(st) - 1]);
        forall j | n <= j < OpenCount(st.below) ensures !Match(name, Names(st.below)[j]) { assert Names(st.below)[j] == Names(st)[j]; }
        MatchIs(name, st.below, n);
      }
    }
  }

  // ---- The result without a stack ----

  predicate NoneMatches(name: string, open: seq<string>) {
    forall j :: 0 <= j < |open| ==> !Match(name, open[j])
  }

  /** The node of the text at `q` is `m`, and is no text. */
  predicate NodeHere(doc: string, q: nat, m: string) {
    q < |doc| && At(doc, q, m) && |m| == NodeIn(doc, q).len && !TextType(NodeIn(doc, q).typ)
  }

  /** The end tag `e` at `x` closes the innermost element with its name: the one with start tag `s`, and none that is
      left open in its content `k`. */
  predicate EndsAt(doc: string, x: nat, e: string, s: string, k: Content) {
    NodeHere(doc, x, e) && NodeIn(doc, x).typ == END_TAG && Match(NameOf(e), NameOf(s)) && NoneMatches(NameOf(e), LeftOpen(k))
  }

  /** The first item of a list that begins at `off`, where elements with the names `open` are open. */
  predicate HeadOk(doc: string, c: Content, off: nat, open: seq<string>) {
    NoLt(c.text) && At(doc, off, c.text) &&
    var q := off + |c.text|;
    match c
    case End(_) => true
    case Mark(_, m, _) =>
      NodeHere(doc, q, m) && NodeIn(doc, q).typ != ELEMENT && (NodeIn(doc, q).typ == END_TAG ==> NoneMatches(NameOf(m), open))
    case Elem(_, _, s, k, e, _) =>
      && NodeHere(doc, q, s) && NodeIn(doc, q).typ == ELEMENT
      && if e == "" then k == End("") else !NodeAt(s, 1).empty && EndsAt(doc, q + |s| + Len(k), e, s, k)
  }

  /** Where the rest of a list begins, and what is open there. */
  function RestAt(c: Content, off: nat): nat {
    match c
    case End(t) => off + |t|
    case Mark(t, m, _) => off + |t| + |m|
    case Elem(t, _, s, k, e, _) => off + |t| + |s| + Len(k) + |e|
  }

  function RestOpen(c: Content, open: seq<string>): seq<string> {
    if c.Elem? && NotEnded(c.etag, c.stag) then open + [NameOf(c.stag)] else open
  }

  /** `c` is what stands in the text from `off` on, where elements with the names `open` are open: every tag, comment and
      so on is one node; a start tag makes an element; an end tag closes the innermost open element of its name, and an
      end tag that stands alone has the name of none; an element that is not ended has no content, and stays open behind
      its start tag. */
  predicate Lawful(doc: string, c: Content, off: nat, open: seq<string>) {
    HeadOk(doc, c, off, open) &&
    match c
    case End(_) => true
    case Mark(_, _, r) => Lawful(doc, r, RestAt(c, off), open)
    case Elem(t, _, s, k, _, r) => Lawful(doc, k, off + |t| + |s|, open + [NameOf(s)]) && Lawful(doc, r, RestAt(c, off), RestOpen(c, open))
  }

  // ---- Lists put together ----

  lemma {:induction false} LenGraft(a: Content, b: Content)
    requires Bare(a)
    ensures Len(Graft(a, b)) == Len(a) + Len(b) && (Bare(b) ==> Bare(Graft(a, b)))
    ensures LeftOpen(Graft(a, b)) == LeftOpen(a) + LeftOpen(b)
  {
    hide Render;
    RenderGraft(a, b);
    OpenGraft(a, b);
    if Bare(b) { BareGraft(a, b); }
  }

  lemma GraftHead(doc: string, a: Content, b: Content, off: nat, open: seq<string>)
    requires !a.End? && HeadOk(doc, a, off, open)
    ensures var g := Graft(a, b);
            HeadOk(doc, g, off, open) && RestAt(g, off) == RestAt(a, off) && RestOpen(g, open) == RestOpen(a, open)
  {
    hide NodeHere, EndsAt, NoLt, At, NoneMatches, NodeAt, NameOf, Render;
  }

  lemma RestLen(c: Content, off: nat, open: seq<string>)
    ensures !c.End? ==> RestAt(c, off) + Len(c.rest) == off + Len(c) && RestOpen(c, open) + LeftOpen(c.rest) == open + LeftOpen(c)
  {
    hide NotEnded, NameOf, Len, LeftOpen, Render;
    ListParts(c);
    LeftParts(c);
    if c.Elem? {
      var x: seq<string> := if NotEnded(c.etag, c.stag) then [NameOf(c.stag)] else [];
      assert (open + x) + LeftOpen(c.rest) == open + (x + LeftOpen(c.rest)) && open + [] == open;
    }
  }

  lemma LeftParts(c: Content)
    ensures c.Mark? ==> LeftOpen(c) == LeftOpen(c.rest)
    ensures c.Elem? ==> LeftOpen(c) == (if NotEnded(c.etag, c.stag) then [NameOf(c.stag)] else []) + LeftOpen(c.rest)
  {
    hide NotEnded, NameOf;
  }

  lemma {:induction false} LawfulGraft(doc: string, a: Content, b: Content, off: nat, open: seq<string>)
    requires Bare(a) && Lawful(doc, a, off, open) && Lawful(doc, b, off + Len(a), open + LeftOpen(a))
    ensures Lawful(doc, Graft(a, b), off, open)
    decreases a
  {
    hide HeadOk, RestAt, RestOpen, LeftOpen, NameOf, Len, Render;
    if a.End? {
      BareEnd(a, open);
    } else {
      GraftHead(doc, a, b, off, open);
      RestLen(a, off, open);
      MarkOpen(a, open);
      LawfulGraft(doc, a.rest, b, RestAt(a, off), RestOpen(a, open));
    }
  }

  lemma BareEnd(a: Content, open: seq<string>)
    requires a.End? && Bare(a)
    ensures Len(a) == 0 && open + LeftOpen(a) == open
  {
  }

  lemma MarkOpen(a: Content, open: seq<string>)
    ensures a.Mark? ==> RestOpen(a, open) == open
  {
  }

  // ---- The parser keeps to the law ----

  /** How far the open start tags reach. */
  function StackLen(st: Stack): nat {
    match st
    case Bottom => 0
    case Push(b, l, t, _, s) => StackLen(b) + Len(l) + |t| + |s|
  }

  /** An open start tag stands at `q`. */
  predicate StartHere(doc: string, q: nat, t: string, s: string) {
    NoLt(t) && At(doc, q, t) && NodeHere(doc, q + |t|, s) && NodeIn(doc, q + |t|).typ == ELEMENT && !NodeAt(s, 1).empty
  }

  /** A list that has been read completely so far: nothing in it is left open. */
  predicate ListLawful(doc: string, l: Content, off: nat, open: seq<string>) {
    Bare(l) && LeftOpen(l) == [] && Lawful(doc, l, off, open)
  }

  predicate StackLawful(doc: string, st: Stack) {
    match st
    case Bottom => true
    case Push(b, l, t, _, s) => StackLawful(doc, b) && ListLawful(doc, l, StackLen(b), Names(b)) && StartHere(doc, StackLen(b) + Len(l), t, s)
  }

  predicate StateLawful(doc: string, st: Stack, left: Content, p: nat) {
    StackLawful(doc, st) && ListLawful(doc, left, StackLen(st), Names(st)) && StackLen(st) + Len(left) == p
  }

  /** A bare list goes on with one item. */
  lemma ItemLawful(doc: string, l: Content, x: Content, off: nat, open: seq<string>)
    requires ListLawful(doc, l, off, open) && !x.End? && x.rest == End("") && HeadOk(doc, x, off + Len(l), open)
    requires x.Elem? ==> Lawful(doc, x.kids, off + Len(l) + |x.text| + |x.stag|, open + [NameOf(x.stag)]) && !NotEnded(x.etag, x.stag)
    requires off + Len(l) + Len(x) <= |doc|
    ensures ListLawful(doc, Graft(l, x), off, open) && Len(Graft(l, x)) == Len(l) + Len(x)
  {
    hide HeadOk, NameOf, NotEnded, Lawful, Render;
    assert open + LeftOpen(l) == open;
    ItemAlone(doc, x, off + Len(l), open);
    LawfulGraft(doc, l, x, off, open);
    LenGraft(l, x);
  }

  lemma ItemAlone(doc: string, x: Content, off: nat, open: seq<string>)
    requires !x.End? && x.rest == End("") && HeadOk(doc, x, off, open) && off + Len(x) <= |doc|
    requires x.Elem? ==> Lawful(doc, x.kids, off + |x.text| + |x.stag|, open + [NameOf(x.stag)]) && !NotEnded(x.etag, x.stag)
    ensures Lawful(doc, x, off, open) && Bare(x) && LeftOpen(x) == []
  {
    hide HeadOk, NameOf, NotEnded, Render;
    assert HeadOk(doc, End(""), RestAt(x, off), RestOpen(x, open)) by { NothingLawful(doc, RestAt(x, off), RestOpen(x, open)); }
  }

  lemma NothingLawful(doc: string, off: nat, open: seq<string>)
    requires off <= |doc|
    ensures HeadOk(doc, End(""), off, open) && Lawful(doc, End(""), off, open)
  {
  }

  /** The node at `q`, behind text. */
  lemma PieceHere(doc: string, p: nat, q: nat)
    requires p <= q < |doc| && NoLt(doc[p..q]) && !TextType(NodeIn(doc, q).typ)
    ensures var e := NextNode(doc, q); q < e <= |doc| && At(doc, p, doc[p..q]) && NodeHere(doc, q, doc[q..e])
  {
    hide NodeAt, Render;
    NodeStands(doc, p, q);
  }

  lemma MarkLawful(doc: string, st: Stack, left: Content, p: nat, q: nat)
    requires StateLawful(doc, st, left, p) && p <= q < |doc| && NoLt(doc[p..q]) && !TextType(NodeIn(doc, q).typ) && NodeIn(doc, q).typ != ELEMENT
    requires NodeIn(doc, q).typ == END_TAG ==> q < NextNode(doc, q) <= |doc| && NoneMatches(NameOf(doc[q..NextNode(doc, q)]), Names(st))
    ensures var e := NextNode(doc, q); q < e <= |doc| && StateLawful(doc, st, Graft(left, Mark(doc[p..q], doc[q..e], End(""))), e)
  {
    hide NodeIn, NameOf, Lawful, NoneMatches, StackLawful, ListLawful, NodeHere, At, NoLt, Render;
    PieceHere(doc, p, q);
    ItemLawful(doc, left, Mark(doc[p..q], doc[q..NextNode(doc, q)], End("")), StackLen(st), Names(st));
  }

  lemma EmptyLawful(doc: string, st: Stack, left: Content, p: nat, q: nat, id: nat)
    requires StateLawful(doc, st, left, p) && p <= q < |doc| && NoLt(doc[p..q]) && NodeIn(doc, q).typ == ELEMENT && NodeIn(doc, q).empty
    ensures var e := NextNode(doc, q); q < e <= |doc| && StateLawful(doc, st, Graft(left, Single(doc[p..q], id, doc[q..e])), e)
  {
    hide NodeIn, NameOf, Lawful, StackLawful, ListLawful, NodeHere, At, NoLt, NodeAt, Render;
    PieceHere(doc, p, q);
    var e := NextNode(doc, q);
    TagToken(doc, q);
    NothingLawful(doc, e, Names(st) + [NameOf(doc[q..e])]);
    ItemLawful(doc, left, Single(doc[p..q], id, doc[q..e]), StackLen(st), Names(st));
  }

  lemma OpenLawful(doc: string, st: Stack, left: Content, p: nat, q: nat, id: nat)
    requires StateLawful(doc, st, left, p) && p <= q < |doc| && NoLt(doc[p..q]) && NodeIn(doc, q).typ == ELEMENT && !NodeIn(doc, q).empty
    ensures var e := NextNode(doc, q); q < e <= |doc| && StateLawful(doc, Push(st, left, doc[p..q], id, doc[q..e]), End(""), e)
  {
    hide NodeIn, NameOf, Lawful, NodeHere, At, NoLt, NodeAt, Render;
    PieceHere(doc, p, q);
    var e := NextNode(doc, q);
    TagToken(doc, q);
    NothingLawful(doc, e, Names(Push(st, left, doc[p..q], id, doc[q..e])));
  }

  // ---- The repair ----

  /** A list in which elements may be left open. */
  predicate PartLawful(doc: string, st: Stack, left: Content) {
    StackLawful(doc, st) && Bare(left) && Lawful(doc, left, StackLen(st), Names(st))
  }

  lemma FlatLawful(doc: string, st: Stack, left: Content)
    requires st.Push? && PartLawful(doc, st, left)
    ensures var x := Graft(st.left, Flattened(st, left));
            PartLawful(doc, st.below, x) && StackLen(st.below) + Len(x) == StackLen(st) + Len(left) && LeftOpen(x) == [NameOf(st.stag)] + LeftOpen(left)
  {
    hide NameOf, NodeHere, At, NoLt, NodeAt, NodeIn, Render;
    var f, off, open := Flattened(st, left), StackLen(st.below) + Len(st.left), Names(st.below);
    assert Lawful(doc, f, off, open) by { FlatItem(doc, st, left, off, open); }
    assert open + LeftOpen(st.left) == open && [] + LeftOpen(f) == LeftOpen(f);
    LawfulGraft(doc, st.left, f, StackLen(st.below), open);
    LenGraft(st.left, f);
  }

  lemma FlatItem(doc: string, st: Stack, left: Content, off: nat, open: seq<string>)
    requires st.Push? && StartHere(doc, off, st.text, st.stag) && Lawful(doc, left, off + |st.text| + |st.stag|, open + [NameOf(st.stag)])
    ensures Lawful(doc, Flattened(st, left), off, open)
  {
    hide NameOf, NodeAt, NodeIn, Render;
    var q := off + |st.text| + |st.stag|;
    NothingLawful(doc, q, open + [NameOf(st.stag)]);
    var f := Flattened(st, left);
    assert RestAt(f, off) == q && RestOpen(f, open) == open + [NameOf(st.stag)];
  }

  lemma {:induction false} MendedLawful(doc: string, st: Stack, left: Content, n: nat)
    requires PartLawful(doc, st, left)
    ensures var x, top := Mended(st, left, n), Level(st, n);
            PartLawful(doc, top, x) && StackLen(top) + Len(x) == StackLen(st) + Len(left)
    ensures n <= OpenCount(st) ==> LeftOpen(Mended(st, left, n)) == Names(st)[n..] + LeftOpen(left)
    decreases st
  {
    hide NameOf, PartLawful, Graft, Flattened, LeftOpen, Render;
    if OpenCount(st) > n {
      FlatLawful(doc, st, left);
      MendedLawful(doc, st.below, Graft(st.left, Flattened(st, left)), n);
      assert Names(st)[n..] == Names(st.below)[n..] + [NameOf(st.stag)];
    }
  }

  /** The level that an end tag closes is that of the innermost element with its name. */
  lemma {:induction false} MatchAt(name: string, st: Stack)
    ensures var n := MatchLevel(name, st);
            && (n > 0 ==> Level(st, n).Push? && Match(name, NameOf(Level(st, n).stag)) && Names(Level(st, n)) == Names(st)[..n])
            && NoneMatches(name, Names(st)[n..])
    decreases st
  {
    hide NameOf, Match, Render;
    if st.Push? && !Match(name, NameOf(st.stag)) {
      var n := MatchLevel(name, st.below);
      MatchAt(name, st.below);
      assert Names(st)[n..] == Names(st.below)[n..] + [NameOf(st.stag)];
      assert Names(st)[..n] == Names(st.below)[..n];
    } else {
      assert Names(st)[|Names(st)|..] == [] && Names(st)[..|Names(st)|] == Names(st);
    }
  }

  lemma CloseLawful(doc: string, st: Stack, left: Content, p: nat, q: nat)
    requires StateLawful(doc, st, left, p) && p <= q < |doc| && NoLt(doc[p..q]) && NodeIn(doc, q).typ == END_TAG
    requires q < NextNode(doc, q) <= |doc| && MatchLevel(NameOf(doc[q..NextNode(doc, q)]), st) > 0
    ensures var e := NextNode(doc, q); var o := AfterEndTag(st, left, doc[p..q], doc[q..e]); StateLawful(doc, o.st, o.left, e)
  {
    hide NodeIn, NameOf, Match, NodeHere, At, NoLt, NodeAt, Lawful, Mended, NoneMatches, Level, MatchLevel, Render;
    var e := NextNode(doc, q);
    var n := MatchLevel(NameOf(doc[q..e]), st);
    var top := Level(st, n);
    PieceHere(doc, p, q);
    MatchAt(NameOf(doc[q..e]), st);
    MendedLawful(doc, st, left, n);
    assert Names(st)[n..] + [] == Names(st)[n..];
    ClosingLawful(doc, top, Mended(st, left, n), p, q, doc[q..e]);
  }

  lemma ClosingLawful(doc: string, top: Stack, l: Content, p: nat, q: nat, etag: string)
    requires top.Push? && PartLawful(doc, top, l) && StackLen(top) + Len(l) == p && p <= q < |doc| && NoLt(doc[p..q]) && At(doc, p, doc[p..q])
    requires EndsAt(doc, q, etag, top.stag, l) && q + |etag| <= |doc| && etag != ""
    ensures StateLawful(doc, top.below, Graft(top.left, Closing(top, l, doc[p..q], etag)), q + |etag|)
  {
    hide NodeIn, NameOf, NodeHere, At, NoLt, NodeAt, Lawful, EndsAt, LeftOpen, Len, HeadOk, Names, Render;
    var k, x := Graft(l, End(doc[p..q])), Closing(top, l, doc[p..q], etag);
    KidsLawful(doc, l, p, q, StackLen(top), Names(top));
    ClosingHead(doc, top, k, l, StackLen(top.below) + Len(top.left), Names(top.below), q, etag);
    ClosingLen(top, k, etag);
    assert Names(top) == Names(top.below) + [NameOf(top.stag)] by { NamesStep(top); }
    ItemLawful(doc, top.left, x, StackLen(top.below), Names(top.below));
  }

  lemma NamesStep(st: Stack)
    requires st.Push?
    ensures Names(st) == Names(st.below) + [NameOf(st.stag)]
  {
    hide NameOf, Render;
  }

  lemma ClosingLen(top: Stack, k: Content, etag: string)
    requires top.Push?
    ensures Len(Elem(top.text, top.id, top.stag, k, etag, End(""))) == |top.text| + |top.stag| + Len(k) + |etag|
  {
  }

  /** The content of the element ends with the text in front of the end tag. */
  lemma KidsLawful(doc: string, l: Content, p: nat, q: nat, off: nat, open: seq<string>)
    requires Bare(l) && Lawful(doc, l, off, open) && off + Len(l) == p <= q <= |doc| && NoLt(doc[p..q]) && At(doc, p, doc[p..q])
    ensures var k := Graft(l, End(doc[p..q])); Lawful(doc, k, off, open) && off + Len(k) == q && LeftOpen(k) == LeftOpen(l)
  {
    hide NameOf, Lawful, At, NoLt, Render;
    TextLawful(doc, p, q, open + LeftOpen(l));
    LawfulGraft(doc, l, End(doc[p..q]), off, open);
    LenGraft(l, End(doc[p..q]));
    assert LeftOpen(l) + [] == LeftOpen(l);
  }

  lemma TextLawful(doc: string, p: nat, q: nat, open: seq<string>)
    requires p <= q <= |doc| && NoLt(doc[p..q]) && At(doc, p, doc[p..q])
    ensures Lawful(doc, End(doc[p..q]), p, open)
  {
  }

  lemma ClosingHead(doc: string, top: Stack, k: Content, l: Content, off: nat, open: seq<string>, q: nat, etag: string)
    requires top.Push? && StartHere(doc, off, top.text, top.stag) && LeftOpen(k) == LeftOpen(l) && etag != ""
    requires EndsAt(doc, q, etag, top.stag, l) && off + |top.text| + |top.stag| + Len(k) == q
    ensures HeadOk(doc, Elem(top.text, top.id, top.stag, k, etag, End("")), off, open)
  {
    hide NameOf, NodeAt, NodeIn, At, NoLt, Match, NoneMatches, Render;
  }

  // ---- Every text ----

  /** Text that goes on. */
  lemma TextOn(doc: string, p: nat, q: nat)
    requires p <= q < |doc| && NoLt(doc[p..q]) && TextType(NodeIn(doc, q).typ)
    ensures q < NextNode(doc, q) <= |doc| && NoLt(doc[p..NextNode(doc, q)])
  {
    hide NodeAt, NoLt, Render;
    var e := NextNode(doc, q);
    NodeProgress(doc[q..], q);
    assert doc[q..][..e - q] == doc[q..e];
    Edit.NoLtConcat(doc[p..q], doc[q..e]);
    assert doc[p..q] + doc[q..e] == doc[p..e];
  }

  /** The content that the parser finds keeps to the law, and is the whole text. */
  lemma {:induction false} RepairLawful(doc: string, st: Stack, left: Content, p: nat, q: nat, free: nat)
    requires StateLawful(doc, st, left, p) && p <= q <= |doc| && NoLt(doc[p..q])
    ensures var c := Repair(doc, st, left, p, q, free); Lawful(doc, c, 0, []) && Len(c) == |doc|
    decreases |doc| - q
  {
    hide StateLawful, Lawful, NodeIn, NameOf, NoLt, Graft, Single, AfterEndTag, Mended, Len, TextType, Names, Render;
    if q == |doc| {
      EndLawful(doc, st, left, p);
    } else {
      var n, e := NodeIn(doc, q), NextNode(doc, q);
      NodeTypes(doc, p, q);
      assert NoLt(doc[e..e]) by { NothingLt(doc, e); }
      if TextType(n.typ) {
        TextOn(doc, p, q);
        RepairLawful(doc, st, left, p, e, free);
      } else if n.typ == ELEMENT && n.empty {
        EmptyLawful(doc, st, left, p, q, free);
        RepairLawful(doc, st, Graft(left, Single(doc[p..q], free, doc[q..e])), e, e, free + 1);
      } else if n.typ == ELEMENT {
        OpenLawful(doc, st, left, p, q, free);
        RepairLawful(doc, Push(st, left, doc[p..q], free, doc[q..e]), End(""), e, e, free + 1);
      } else if n.typ == END_TAG {
        EndTagLawful(doc, st, left, p, q);
        var o := AfterEndTag(st, left, doc[p..q], doc[q..e]);
        RepairLawful(doc, o.st, o.left, e, e, free);
      } else {
        MarkLawful(doc, st, left, p, q);
        RepairLawful(doc, st, Graft(left, Mark(doc[p..q], doc[q..e], End(""))), e, e, free);
      }
    }
  }

  lemma NothingLt(doc: string, e: nat)
    requires e <= |doc|
    ensures NoLt(doc[e..e])
  {
  }

  lemma LoneTag(name: string, st: Stack)
    requires MatchLevel(name, st) == 0
    ensures NoneMatches(name, Names(st))
  {
    hide Match, NameOf, Render;
    MatchAt(name, st);
    assert Names(st)[0..] == Names(st);
  }

  lemma EndTagLawful(doc: string, st: Stack, left: Content, p: nat, q: nat)
    requires StateLawful(doc, st, left, p) && p <= q < |doc| && NoLt(doc[p..q]) && NodeIn(doc, q).typ == END_TAG
    ensures var e := NextNode(doc, q); q < e <= |doc| && var o := AfterEndTag(st, left, doc[p..q], doc[q..e]); StateLawful(doc, o.st, o.left, e)
  {
    hide StateLawful, NodeIn, NameOf, NoLt, Graft, Closing, Level, Mended, MatchLevel, Names, Render;
    NodeTypes(doc, p, q);
    if MatchLevel(NameOf(doc[q..NextNode(doc, q)]), st) > 0 {
      CloseLawful(doc, st, left, p, q);
    } else {
      LoneTag(NameOf(doc[q..NextNode(doc, q)]), st);
      MarkLawful(doc, st, left, p, q);
    }
  }

  /** Nothing is left open in what has been read. */
  lemma StateParts(doc: string, st: Stack, left: Content, p: nat)
    requires StateLawful(doc, st, left, p)
    ensures PartLawful(doc, st, left) && StackLen(st) + Len(left) == p
  {
    hide Lawful, StackLawful, Names, StackLen, Len, Bare, LeftOpen, Render;
  }

  /** A list that is not inside an element. */
  lemma BottomParts(doc: string, c: Content)
    requires PartLawful(doc, Bottom, c)
    ensures Bare(c) && Lawful(doc, c, 0, []) && StackLen(Bottom) == 0
  {
    hide Lawful, Bare, Render;
  }

  lemma EndLawful(doc: string, st: Stack, left: Content, p: nat)
    requires StateLawful(doc, st, left, p) && p <= |doc| && NoLt(doc[p..|doc|])
    ensures var c := Graft(Mended(st, left, 0), End(doc[p..])); Lawful(doc, c, 0, []) && Len(c) == |doc|
  {
    hide StateLawful, PartLawful, Lawful, NameOf, NoLt, Mended, LeftOpen, StackLen, Graft, Level, Bare, Len, Names, OpenCount, Render;
    StateParts(doc, st, left, p);
    MendedLawful(doc, st, left, 0);
    LevelZero(st);
    BottomParts(doc, Mended(st, left, 0));
    assert doc[p..] == doc[p..|doc|];
    KidsLawful(doc, Mended(st, left, 0), p, |doc|, 0, []);
  }

  /** What the parser makes of any text keeps to the law. */
  lemma RepairedLawful(doc: string)
    ensures Lawful(doc, Repaired(doc), 0, []) && Len(Repaired(doc)) == |doc|
  {
    NothingLawful(doc, 0, []);
    NothingLt(doc, 0);
    RepairLawful(doc, Bottom, End(""), 0, 0, 1);
  }

  // ---- Documents in which nothing is wrong ----

  /** Every element that the recursive parser finds is ended. */
  lemma {:induction false} ParsedEnded(doc: string, p: nat)
    requires p <= |doc| && ParseContent(doc, p).Done?
    ensures AllEnded(ParseContent(doc, p).c)
    decreases |doc| - p
  {
    hide NodeAt, NodeIn, TextEnd, ParseContent, NotEnded, Match, NameOf, Render;
    var q := TextEnd(doc, p);
    ContentIs(doc, p);
    if q < |doc| && NodeIn(doc, q).typ != END_TAG {
      ParsedParts(doc, p);
      var e := q + NodeIn(doc, q).len;
      ParsedEnded(doc, e);
      if NodeIn(doc, q).typ == ELEMENT {
        TagToken(doc, q);
        if !NodeIn(doc, q).empty {
          var m := ParseContent(doc, e).next;
          ParsedEnded(doc, m + NodeIn(doc, m).len);
          EndTagThere(doc, m, doc[q..e]);
        } else {
          EmptyEnded(doc[q..e]);
        }
      }
    }
  }

  lemma EndTagThere(doc: string, m: nat, stag: string)
    requires m < |doc|
    ensures !NotEnded(doc[m..m + NodeIn(doc, m).len], stag)
  {
    hide NodeAt, Render;
  }

  lemma EmptyEnded(stag: string)
    requires NodeAt(stag, 1).empty
    ensures !NotEnded("", stag)
  {
    hide NodeAt, Render;
  }

  lemma {:induction false} EndedErase(c: Content)
    ensures AllEnded(Erase(c)) <==> AllEnded(c)
  {
    hide NotEnded, Render;
    match c
    case End(_) =>
    case Mark(_, _, r) => EndedErase(r);
    case Elem(_, _, _, k, _, r) =>
      EndedErase(k);
      EndedErase(r);
  }

  lemma FinishEndTag(doc: string, st: Stack, left: Content, p: nat, q: nat)
    requires AtNode(doc, p, q) && q < |doc| && NodeIn(doc, q).typ == END_TAG
    ensures q < NextNode(doc, q) <= |doc|
    ensures var e := NextNode(doc, q); var o := AfterEndTag(st, left, doc[p..q], doc[q..e]);
            var f := Finish(doc, EraseStack(st), Erase(left), ParseContent(doc, p));
            f.Done? ==> f == Finish(doc, EraseStack(o.st), Erase(o.left), ParseContent(doc, e))
  {
    hide NodeIn, Match, NameOf, Finish, ParseContent, Graft, Closing, Render;
    FinishClose(doc, EraseStack(st), Erase(left), p, q);
    if st.Push? {
      var e := NextNode(doc, q);
      EraseClosing(st, left, doc[p..q], doc[q..e]);
      LevelSame(st, OpenCount(st));
    }
  }

  /** As long as the recursive parser goes on, both find the same. */
  lemma {:induction false} RepairFinish(doc: string, st: Stack, left: Content, p: nat, q: nat, free: nat)
    requires p <= q <= |doc| && NoLt(doc[p..q]) && Finish(doc, EraseStack(st), Erase(left), ParseContent(doc, p)).Done?
    ensures Finish(doc, EraseStack(st), Erase(left), ParseContent(doc, p)) == Done(Erase(Repair(doc, st, left, p, q, free)), |doc|)
    decreases |doc| - q
  {
    hide NodeIn, NameOf, NoLt, Graft, AfterEndTag, Mended, TextType, Repair, Finish, ParseContent, AtNode, Render;
    if q == |doc| {
      RepairFinishEnd(doc, st, left, p, free);
    } else {
      var n, e := NodeIn(doc, q), NextNode(doc, q);
      NodeTypes(doc, p, q);
      NothingLt(doc, e);
      if TextType(n.typ) {
        TextOn(doc, p, q);
        RepairText(doc, st, left, p, q, free);
        RepairFinish(doc, st, left, p, e, free);
      } else {
        NodeStands(doc, p, q);
        RepairFinishNode(doc, st, left, p, q, free);
        if n.typ == ELEMENT && n.empty {
          RepairFinish(doc, st, Graft(left, Single(doc[p..q], free, doc[q..e])), e, e, free + 1);
        } else if n.typ == ELEMENT {
          RepairFinish(doc, Push(st, left, doc[p..q], free, doc[q..e]), End(""), e, e, free + 1);
        } else if n.typ == END_TAG {
          var o := AfterEndTag(st, left, doc[p..q], doc[q..e]);
          RepairFinish(doc, o.st, o.left, e, e, free);
        } else {
          RepairFinish(doc, st, Graft(left, Mark(doc[p..q], doc[q..e], End(""))), e, e, free);
        }
      }
    }
  }

  lemma RepairFinishEnd(doc: string, st: Stack, left: Content, p: nat, free: nat)
    requires p <= |doc| && NoLt(doc[p..|doc|]) && Finish(doc, EraseStack(st), Erase(left), ParseContent(doc, p)).Done?
    ensures Finish(doc, EraseStack(st), Erase(left), ParseContent(doc, p)) == Done(Erase(Repair(doc, st, left, p, |doc|, free)), |doc|)
  {
    hide ParseContent, Finish, NoLt, Render;
    FinishEnd(doc, EraseStack(st), Erase(left), p);
    EraseGraft(left, End(doc[p..]));
  }

  /** One node, for both parsers. */
  lemma RepairFinishNode(doc: string, st: Stack, left: Content, p: nat, q: nat, free: nat)
    requires AtNode(doc, p, q) && q < |doc| && !TextType(NodeIn(doc, q).typ) && Finish(doc, EraseStack(st), Erase(left), ParseContent(doc, p)).Done?
    ensures q < NextNode(doc, q) <= |doc|
    ensures var n, e, f := NodeIn(doc, q), NextNode(doc, q), Finish(doc, EraseStack(st), Erase(left), ParseContent(doc, p));
            if n.typ == ELEMENT && n.empty then
              var x := Graft(left, Single(doc[p..q], free, doc[q..e]));
              f == Finish(doc, EraseStack(st), Erase(x), ParseContent(doc, e)) && Repair(doc, st, left, p, q, free) == Repair(doc, st, x, e, e, free + 1)
            else if n.typ == ELEMENT then
              var s := Push(st, left, doc[p..q], free, doc[q..e]);
              f == Finish(doc, EraseStack(s), Erase(End("")), ParseContent(doc, e)) && Repair(doc, st, left, p, q, free) == Repair(doc, s, End(""), e, e, free + 1)
            else if n.typ == END_TAG then
              var o := AfterEndTag(st, left, doc[p..q], doc[q..e]);
              f == Finish(doc, EraseStack(o.st), Erase(o.left), ParseContent(doc, e)) && Repair(doc, st, left, p, q, free) == Repair(doc, o.st, o.left, e, e, free)
            else
              var x := Graft(left, Mark(doc[p..q], doc[q..e], End("")));
              f == Finish(doc, EraseStack(st), Erase(x), ParseContent(doc, e)) && Repair(doc, st, left, p, q, free) == Repair(doc, st, x, e, e, free)
  {
    hide NodeIn, NameOf, NoLt, Graft, AfterEndTag, TextType, Repair, Finish, ParseContent, AtNode, Render;
    NodeLt(doc, p, q);
    NodeTypes(doc, p, q);
    var n, e, t, l := NodeIn(doc, q), NextNode(doc, q), EraseStack(st), Erase(left);
    if n.typ == ELEMENT {
      RepairStart(doc, st, left, p, q, free);
      if n.empty {
        FinishEmpty(doc, t, l, p, q);
        EraseGraft(left, Single(doc[p..q], free, doc[q..e]));
      } else {
        FinishOpen(doc, t, l, p, q);
      }
    } else if n.typ == END_TAG {
      RepairEndTag(doc, st, left, p, q, free);
      FinishEndTag(doc, st, left, p, q);
    } else {
      RepairMark(doc, st, left, p, q, free);
      if n.typ == BAD {
        FinishBad(doc, t, l, p, q);
      } else {
        FinishMark(doc, t, l, p, q);
        EraseGraft(left, Mark(doc[p..q], doc[q..e], End("")));
      }
    }
  }

  lemma NodeLt(doc: string, p: nat, q: nat)
    requires AtNode(doc, p, q)
    ensures p <= q
  {
  }

  /** What the parser makes of a text that the recursive parser accepts is what that one makes of it, and every element is
      ended. */
  lemma RepairParses(doc: string)
    ensures ParseDoc(doc).Done? ==> ParseDoc(doc) == Done(Erase(Repaired(doc)), |doc|) && AllEnded(Repaired(doc))
  {
    hide Finish, Repair, ParseContent, Render;
    FinishStart(doc);
    if ParseDoc(doc).Done? {
      NothingLt(doc, 0);
      RepairFinish(doc, Bottom, End(""), 0, 0, 1);
      ParsedEnded(doc, 0);
      EndedErase(Repaired(doc));
    }
  }

  lemma NotIllFormed(doc: string, elem: Elems, free: nat, c: Content)
    requires Indexed(doc, elem, free, c) && c == Repaired(doc) && ParseDoc(doc).Done?
    ensures Linked(elem, c) && Offsets(elem, c, 0, 0) && ParseDoc(doc) == Done(Erase(c), |doc|)
    ensures RootOk(elem, |doc|) ==> Represents(doc, elem, free, c)
  {
    hide Indexed, Represents, Linked, Offsets, ParseDoc, Repaired, AllEnded, Undisturbed, RootOk, Render;
    RepairParses(doc);
    IndexedIff(doc, elem, free, c);
    EndedUndisturbed(c);
  }
}
