/** The law leaves no choice: the content that the parser finds in a text is the only one that keeps to it. */
module Lawfulness {
  import opened Chars
  import opened Token
  import opened Content
  import opened Index
  import opened Tags
  import opened ParseStack
  import opened ParseIndex
  import opened ParseLinks
  import opened Repairs

  /** A list ends with the text, or at an end tag that closes an element around it, but none that the list leaves open. */
  predicate EndsWell(doc: string, c: Content, off: nat, open: seq<string>) {
    var x := off + Len(c);
    && x <= |doc|
    && (x < |doc| ==> NodeIn(doc, x).typ == END_TAG && ClosesAround(NameOf(doc[x..x + NodeIn(doc, x).len]), LeftOpen(c), open))
  }

  predicate ClosesAround(name: string, left: seq<string>, open: seq<string>) {
    NoneMatches(name, left) && !NoneMatches(name, open)
  }

  lemma {:induction false} LawfulErase(doc: string, c: Content, off: nat, open: seq<string>)
    ensures Lawful(doc, Erase(c), off, open) <==> Lawful(doc, c, off, open)
    ensures LeftOpen(Erase(c)) == LeftOpen(c) && Len(Erase(c)) == Len(c)
    decreases c
  {
    hide HeadOk, NotEnded, NameOf, Render;
    match c
    case End(_) =>
    case Mark(t, m, r) =>
      LawfulErase(doc, r, off + |t| + |m|, open);
      HeadErase(doc, c, off, open);
    case Elem(t, _, s, k, e, r) =>
      LawfulErase(doc, k, off + |t| + |s|, open + [NameOf(s)]);
      LawfulErase(doc, r, RestAt(c, off), RestOpen(c, open));
      HeadErase(doc, c, off, open);
  }

  lemma HeadErase(doc: string, c: Content, off: nat, open: seq<string>)
    requires c.Elem? ==> LeftOpen(Erase(c.kids)) == LeftOpen(c.kids)
    ensures HeadOk(doc, Erase(c), off, open) <==> HeadOk(doc, c, off, open)
    ensures RestAt(Erase(c), off) == RestAt(c, off) && RestOpen(Erase(c), open) == RestOpen(c, open)
  {
    hide HeadOk, NotEnded, NameOf, NodeAt, EndsAt, Len, LeftOpen, Render, Erase;
    EraseParts(c);
    if c.Elem? {
      ErasedNothing(c.kids);
      EraseLen(c.kids);
      EndsErase(doc, off + |c.text| + |c.stag| + Len(c.kids), c.etag, c.stag, c.kids);
      ElemHead(doc, c, Erase(c), off, open);
    } else {
      ItemHead(doc, c, off, open);
    }
  }

  lemma EraseParts(c: Content)
    ensures c.End? ==> Erase(c) == c
    ensures c.Mark? ==> Erase(c) == Mark(c.text, c.mark, Erase(c.rest))
    ensures c.Elem? ==> Erase(c) == Elem(c.text, 0, c.stag, Erase(c.kids), c.etag, Erase(c.rest))
  {
  }

  lemma EraseLen(c: Content)
    ensures Len(Erase(c)) == Len(c)
  {
    hide Len, Render, Erase;
    assert Render(Erase(c)) == Render(c);
  }

  lemma ItemHead(doc: string, c: Content, off: nat, open: seq<string>)
    requires !c.Elem?
    ensures HeadOk(doc, Erase(c), off, open) <==> HeadOk(doc, c, off, open)
  {
    hide NodeHere, NoneMatches, NameOf, NoLt, At, NodeIn, Render;
  }

  /** Whether an element can stand somewhere depends on its tags and on the length of its content. */
  lemma ElemHead(doc: string, a: Content, b: Content, off: nat, open: seq<string>)
    requires a.Elem? && b.Elem? && a.text == b.text && a.stag == b.stag && a.etag == b.etag && Len(a.kids) == Len(b.kids)
    requires a.kids == End("") <==> b.kids == End("")
    requires var x := off + |a.text| + |a.stag| + Len(a.kids); EndsAt(doc, x, a.etag, a.stag, b.kids) <==> EndsAt(doc, x, a.etag, a.stag, a.kids)
    ensures HeadOk(doc, a, off, open) <==> HeadOk(doc, b, off, open)
  {
    hide NodeHere, EndsAt, NoLt, At, NodeIn, NodeAt, Len, Render;
  }

  lemma EndsErase(doc: string, x: nat, e: string, s: string, k: Content)
    requires LeftOpen(Erase(k)) == LeftOpen(k)
    ensures EndsAt(doc, x, e, s, Erase(k)) <==> EndsAt(doc, x, e, s, k)
  {
    hide NodeHere, NoneMatches, NameOf, Match, NodeIn, LeftOpen, Erase, Render;
  }

  lemma ErasedNothing(c: Content)
    ensures Erase(c) == End("") <==> c == End("")
  {
  }

  /** The text in front of the first item ends at the next `<`. */
  lemma HeadText(doc: string, c: Content, off: nat, open: seq<string>)
    requires HeadOk(doc, c, off, open) && EndsWell(doc, c, off, open)
    ensures off <= |doc| && c.text == doc[off..TextEnd(doc, off)] && off + |c.text| == TextEnd(doc, off)
  {
    hide NodeAt, Match, NameOf, NoneMatches, ClosesAround, Render;
    var q := off + |c.text|;
    if q < |doc| {
      NodeProgress(doc[q..], q);
    }
    TextEndUnique(doc, off, q);
  }

  /** Two lists that begin at the same place begin with the same item. */
  lemma SameHead(doc: string, a: Content, b: Content, off: nat, open: seq<string>)
    requires HeadOk(doc, a, off, open) && EndsWell(doc, a, off, open) && HeadOk(doc, b, off, open) && EndsWell(doc, b, off, open)
    ensures a.text == b.text && (a.End? <==> b.End?) && (a.Mark? <==> b.Mark?)
    ensures a.Mark? ==> a.mark == b.mark
    ensures a.Elem? ==> a.stag == b.stag
  {
    hide NodeAt, Match, NameOf, NoneMatches, LeftOpen, EndsAt, TextEnd, EndsWell, Render;
    HeadText(doc, a, off, open);
    HeadText(doc, b, off, open);
    if a.End? && !b.End? { NoItemThere(doc, a, b, off, open); }
    if b.End? && !a.End? { NoItemThere(doc, b, a, off, open); }
  }

  /** Where a list ends, no item stands. */
  lemma NoItemThere(doc: string, a: Content, b: Content, off: nat, open: seq<string>)
    requires a.End? && EndsWell(doc, a, off, open) && HeadOk(doc, b, off, open) && a.text == b.text
    ensures b.End?
  {
    hide NodeAt, Match, NameOf, NoneMatches, EndsAt, NoLt, Render;
  }

  // ---- The parts of a list ----

  lemma RestEnds(doc: string, c: Content, off: nat, open: seq<string>)
    requires !c.End? && EndsWell(doc, c, off, open)
    ensures EndsWell(doc, c.rest, RestAt(c, off), RestOpen(c, open))
  {
    hide NodeIn, Match, NameOf, NotEnded, LeftOpen, Len, Render;
    RestLen(c, off, open);
    LeftParts(c);
    if off + Len(c) < |doc| {
      var x := off + Len(c);
      AroundRest(NameOf(doc[x..x + NodeIn(doc, x).len]), LeftOpen(c), open, c);
    }
  }

  lemma AroundRest(name: string, left: seq<string>, open: seq<string>, c: Content)
    requires ClosesAround(name, left, open) && !c.End? && left == LeftOpen(c)
    ensures ClosesAround(name, LeftOpen(c.rest), RestOpen(c, open))
  {
    hide Match, NameOf, NotEnded, LeftOpen, Render;
    LeftParts(c);
    var r := LeftOpen(c.rest);
    forall j | 0 <= j < |r| ensures !Match(name, r[j]) { assert left[|left| - |r| + j] == r[j]; }
    var j :| 0 <= j < |open| && Match(name, open[j]);
    assert RestOpen(c, open)[j] == open[j];
  }

  /** The content of an element that is ended. */
  lemma KidsEnd(doc: string, c: Content, off: nat, open: seq<string>)
    requires c.Elem? && c.etag != "" && HeadOk(doc, c, off, open)
    ensures EndsWell(doc, c.kids, off + |c.text| + |c.stag|, open + [NameOf(c.stag)])
  {
    hide NodeIn, Match, NameOf, LeftOpen, Len, NoLt, NodeAt, Render;
    var o := open + [NameOf(c.stag)];
    assert o[|open|] == NameOf(c.stag);
    var x := off + |c.text| + |c.stag| + Len(c.kids);
    assert doc[x..x + NodeIn(doc, x).len] == c.etag;
  }

  /** Of two lists in the same place, one does not end the element that the other leaves open: its end tag would be that
      of an element around it. */
  lemma EndedToo(doc: string, a: Content, b: Content, off: nat, open: seq<string>)
    requires a.Elem? && b.Elem? && HeadOk(doc, a, off, open) && a.etag != "" && EndsWell(doc, b, off, open)
    requires HeadOk(doc, b, off, open) && a.text == b.text && a.stag == b.stag && (b.etag == "" ==> Len(a.kids) == Len(b.rest))
    ensures b.etag != ""
  {
    hide NodeIn, Match, LeftOpen, NoLt, NodeAt, NameOf, HeadOk, Render;
    ElemKinds(doc, a, off, open);
    ElemKinds(doc, b, off, open);
    if b.etag == "" {
      var x := off + |a.text| + |a.stag| + Len(a.kids);
      assert EndsAt(doc, x, a.etag, a.stag, a.kids) by { EndedBy(doc, a, off, open); }
      StaysOpen(doc, b, off, open);
    }
  }

  lemma EndedBy(doc: string, c: Content, off: nat, open: seq<string>)
    requires c.Elem? && c.etag != "" && HeadOk(doc, c, off, open)
    ensures EndsAt(doc, off + |c.text| + |c.stag| + Len(c.kids), c.etag, c.stag, c.kids)
  {
  }

  lemma StaysOpen(doc: string, c: Content, off: nat, open: seq<string>)
    requires c.Elem? && NotEnded(c.etag, c.stag) && EndsWell(doc, c, off, open) && c.kids == End("")
    ensures var x := off + |c.text| + |c.stag| + Len(c.rest);
            x <= |doc| && (x < |doc| ==> !Match(NameOf(doc[x..x + NodeIn(doc, x).len]), NameOf(c.stag)))
  {
    hide NodeIn, Match, LeftOpen, NameOf, NodeAt, Render, Len;
    LeftParts(c);
    ListParts(c);
    ListParts(c.kids);
    assert LeftOpen(c)[0] == NameOf(c.stag);
  }

  lemma LawfulParts(doc: string, c: Content, off: nat, open: seq<string>)
    requires Lawful(doc, c, off, open)
    ensures HeadOk(doc, c, off, open) && (!c.End? ==> Lawful(doc, c.rest, RestAt(c, off), RestOpen(c, open)))
    ensures c.Elem? ==> Lawful(doc, c.kids, off + |c.text| + |c.stag|, open + [NameOf(c.stag)])
  {
    hide HeadOk, NameOf, NotEnded, Render;
  }

  lemma ElemKinds(doc: string, c: Content, off: nat, open: seq<string>)
    requires c.Elem? && HeadOk(doc, c, off, open)
    ensures c.etag != "" ==> !NodeAt(c.stag, 1).empty
    ensures c.etag == "" ==> c.kids == End("") && RestAt(c, off) == off + |c.text| + |c.stag|
    ensures c.etag == "" && !NodeAt(c.stag, 1).empty ==> NotEnded(c.etag, c.stag) && RestOpen(c, open) == open + [NameOf(c.stag)]
  {
    hide NodeIn, NodeAt, NameOf, Match, NoLt, NoneMatches, EndsAt, NodeHere, Render;
  }

  lemma SameRest(a: Content, b: Content, off: nat, open: seq<string>)
    requires !a.End? && !b.End? && a.text == b.text && (a.Mark? <==> b.Mark?) && (a.Mark? ==> a.mark == b.mark)
    requires a.Elem? ==> a.stag == b.stag && a.etag == b.etag && Len(a.kids) == Len(b.kids)
    ensures RestAt(a, off) == RestAt(b, off) && RestOpen(a, open) == RestOpen(b, open)
  {
    hide NotEnded, NameOf, Len, Render;
  }

  /** Two elements with the same content have the same end tag. */
  lemma SameEnd(doc: string, a: Content, b: Content, off: nat, open: seq<string>)
    requires a.Elem? && b.Elem? && HeadOk(doc, a, off, open) && HeadOk(doc, b, off, open) && a.text == b.text && a.stag == b.stag
    requires a.etag != "" && b.etag != "" && Len(a.kids) == Len(b.kids)
    ensures a.etag == b.etag
  {
    hide NodeIn, NodeAt, NameOf, Match, NoLt, NoneMatches, LeftOpen, Len, Render;
  }

  lemma SameLen(a: Content, b: Content)
    requires Erase(a) == Erase(b)
    ensures Len(a) == Len(b)
  {
    hide Render, Erase, Len;
    assert Render(Erase(a)) == Render(Erase(b));
  }

  lemma SameParts(a: Content, b: Content)
    requires a.text == b.text && (a.End? <==> b.End?) && (a.Mark? <==> b.Mark?) && (a.Mark? ==> a.mark == b.mark)
    requires a.Elem? ==> a.stag == b.stag && a.etag == b.etag && Erase(a.kids) == Erase(b.kids)
    requires !a.End? ==> Erase(a.rest) == Erase(b.rest)
    ensures Erase(a) == Erase(b)
  {
  }

  // ---- No choice ----

  /** Two lists in the same place that keep to the law and end well are the same. */
  lemma {:induction false} SameList(doc: string, a: Content, b: Content, off: nat, open: seq<string>)
    requires Lawful(doc, a, off, open) && EndsWell(doc, a, off, open) && Lawful(doc, b, off, open) && EndsWell(doc, b, off, open)
    ensures Erase(a) == Erase(b)
    decreases a, 1
  {
    hide HeadOk, EndsWell, NameOf, NotEnded, Lawful, RestAt, RestOpen, Erase, NodeAt, Len, Render;
    LawfulParts(doc, a, off, open);
    LawfulParts(doc, b, off, open);
    SameHead(doc, a, b, off, open);
    if !a.End? {
      RestEnds(doc, a, off, open);
      RestEnds(doc, b, off, open);
      if a.Elem? {
        ElemKinds(doc, a, off, open);
        ElemKinds(doc, b, off, open);
        SameKids(doc, a, b, off, open);
      }
      SameRest(a, b, off, open);
      SameList(doc, a.rest, b.rest, RestAt(a, off), RestOpen(a, open));
    }
    SameParts(a, b);
  }

  lemma {:induction false} SameKids(doc: string, a: Content, b: Content, off: nat, open: seq<string>)
    requires a.Elem? && b.Elem?
    requires Lawful(doc, a, off, open) && EndsWell(doc, a, off, open) && Lawful(doc, b, off, open) && EndsWell(doc, b, off, open)
    requires a.text == b.text && a.stag == b.stag
    ensures a.etag == b.etag && Erase(a.kids) == Erase(b.kids) && Len(a.kids) == Len(b.kids)
    decreases a, 0
  {
    hide HeadOk, EndsWell, NameOf, NotEnded, Lawful, RestAt, RestOpen, Erase, NodeAt, Len, Render;
    LawfulParts(doc, a, off, open);
    LawfulParts(doc, b, off, open);
    ElemKinds(doc, a, off, open);
    ElemKinds(doc, b, off, open);
    var kidsAt, kidsOpen := off + |a.text| + |a.stag|, open + [NameOf(a.stag)];
    if a.etag != "" { KidsEnd(doc, a, off, open); } else { RestEnds(doc, a, off, open); }
    if b.etag != "" { KidsEnd(doc, b, off, open); } else { RestEnds(doc, b, off, open); }
    if a.etag != "" && b.etag != "" {
      SameList(doc, a.kids, b.kids, kidsAt, kidsOpen);
      SameLen(a.kids, b.kids);
      SameEnd(doc, a, b, off, open);
    } else if a.etag != "" {
      SameList(doc, a.kids, b.rest, kidsAt, kidsOpen);
      SameLen(a.kids, b.rest);
      EndedToo(doc, a, b, off, open);
    } else if b.etag != "" {
      SameList(doc, a.rest, b.kids, kidsAt, kidsOpen);
      SameLen(a.rest, b.kids);
      EndedToo(doc, b, a, off, open);
    }
  }

  /** The content that the parser finds is the only one that keeps to the law and is the whole text. */
  lemma RepairedIff(doc: string, c: Content)
    ensures Lawful(doc, c, 0, []) && Len(c) == |doc| <==> Erase(c) == Erase(Repaired(doc))
  {
    hide Lawful, Repaired, Erase, Len, Render;
    var d := Repaired(doc);
    RepairedLawful(doc);
    LawfulErase(doc, c, 0, []);
    LawfulErase(doc, d, 0, []);
    if Lawful(doc, c, 0, []) && Len(c) == |doc| {
      SameList(doc, c, d, 0, []);
    }
  }

  // ---- A repair that disturbs the links ----

  /** In this text `b` is not ended, and `c` moves up behind it. */
  const UNENDED: string := "<a><b><c/></a>"

  /** `b` and, behind it, `c`. */
  const UNENDED_KIDS: Content := Elem("", 0, "<b>", End(""), "", Elem("", 0, "<c/>", End(""), "", End("")))

  /** What the parser makes of it. */
  const UNENDED_CONTENT: Content := Elem("", 0, "<a>", UNENDED_KIDS, "</a>", End(""))

  /** The index of that text does not have the links that edits rely on. */
  lemma RepairDisturbs()
    ensures Erase(Repaired(UNENDED)) == UNENDED_CONTENT && !Undisturbed(Repaired(UNENDED))
  {
    hide Lawful, Repaired, Undisturbed, Render;
    UnendedLawful();
    RepairedIff(UNENDED, UNENDED_CONTENT);
    UndisturbedErase(Repaired(UNENDED));
    assert !Undisturbed(UNENDED_CONTENT) by { UnendedDisturbed(); }
  }

  lemma {:induction false} UndisturbedErase(c: Content)
    ensures Undisturbed(Erase(c)) <==> Undisturbed(c)
    ensures |TopSeq(Erase(c))| == |TopSeq(c)|
  {
    hide NotEnded, Render;
    match c
    case End(_) =>
    case Mark(_, _, r) => UndisturbedErase(r);
    case Elem(_, _, _, k, _, r) =>
      UndisturbedErase(k);
      UndisturbedErase(r);
  }

  lemma UnendedTags()
    ensures IsStart("<a>", false) && NameOf("<a>") == "a" && IsStart("<b>", false) && NameOf("<b>") == "b"
    ensures IsStart("<c/>", true) && IsNode("</a>", END_TAG) && NameOf("</a>") == "a"
  {
    hide IsStart, IsNode, NameOf, Render;
    assert "<" + "a" + ">" == "<a>" && "<" + "b" + ">" == "<b>" && "<" + "c" + "/>" == "<c/>" && "</" + "a" + ">" == "</a>";
    PlainTag("a");
    PlainTag("b");
    EmptyTag("c");
    EndTag("a");
  }

  lemma UnendedDisturbed()
    ensures !Undisturbed(UNENDED_CONTENT)
  {
    hide NodeAt, NameOf, IsNode, Render;
    UnendedTags();
    assert TopSeq(Elem("", 0, "<c/>", End(""), "", End(""))) == [0];
    assert !Undisturbed(UNENDED_KIDS);
  }

  lemma PieceAt(doc: string, q: nat, m: string)
    requires Quiet(doc) && At(doc, q, m) && m != "" && MarkupType(NodeAt(m, 1).typ) && NodeAt(m, 1).len == |m|
    ensures NodeHere(doc, q, m) && NodeIn(doc, q).typ == NodeAt(m, 1).typ
  {
    hide NodeAt, Render;
    NodeInAt(doc, q, m);
  }

  lemma UnendedPieces()
    ensures NodeHere(UNENDED, 0, "<a>") && NodeIn(UNENDED, 0).typ == ELEMENT && NodeHere(UNENDED, 3, "<b>") && NodeIn(UNENDED, 3).typ == ELEMENT
    ensures NodeHere(UNENDED, 6, "<c/>") && NodeIn(UNENDED, 6).typ == ELEMENT && NodeHere(UNENDED, 10, "</a>") && NodeIn(UNENDED, 10).typ == END_TAG
  {
    hide NodeAt, NodeIn, NodeHere, Render;
    UnendedTags();
    assert UNENDED[0..3] == "<a>" && UNENDED[3..6] == "<b>" && UNENDED[6..10] == "<c/>" && UNENDED[10..14] == "</a>";
    assert Quiet(UNENDED) by { assert UNENDED[1] == 'a' && "<?>"[1] == '?'; }
    PieceAt(UNENDED, 0, "<a>");
    PieceAt(UNENDED, 3, "<b>");
    PieceAt(UNENDED, 6, "<c/>");
    PieceAt(UNENDED, 10, "</a>");
  }

  lemma UnendedKids()
    ensures Lawful(UNENDED, UNENDED_KIDS, 3, ["a"]) && LeftOpen(UNENDED_KIDS) == ["b"] && Len(UNENDED_KIDS) == 7
  {
    hide NodeAt, NodeIn, NodeHere, NameOf, IsNode, Render;
    UnendedTags();
    UnendedPieces();
    var c := Elem("", 0, "<c/>", End(""), "", End(""));
    NothingLawful(UNENDED, 10, ["a", "b"]);
    NothingLawful(UNENDED, 10, ["a", "b"] + [NameOf("<c/>")]);
    assert Lawful(UNENDED, c, 6, ["a", "b"]);
    NothingLawful(UNENDED, 6, ["a", "b"]);
    assert ["a"] + [NameOf("<b>")] == ["a", "b"];
    assert LeftOpen(c) == [];
  }

  lemma UnendedLawful()
    ensures Lawful(UNENDED, UNENDED_CONTENT, 0, []) && Len(UNENDED_CONTENT) == |UNENDED|
  {
    hide NodeAt, NodeIn, NodeHere, NameOf, IsNode, Match, Render;
    UnendedTags();
    UnendedPieces();
    UnendedKids();
    assert [] + [NameOf("<a>")] == ["a"];
    NothingLawful(UNENDED, 14, []);
    UnendedNames();
    assert EndsAt(UNENDED, 10, "</a>", "<a>", UNENDED_KIDS);
  }

  lemma UnendedNames()
    ensures Match("a", "a") && !Match("a", "b")
  {
    assert "a"[0] != "b"[0];
  }
}
