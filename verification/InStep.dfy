/** When the index that edits have maintained is the index the parser would build. */
module InStep {
  import opened Chars
  import opened Token
  import opened Content
  import opened Index
  import opened Edit
  import opened Represent
  import opened Cursor
  import opened AddElem
  import opened RemoveElem
  import opened Tags

  // ---- One index for one content ----

  /** Two records that say the same about their elements. */
  predicate SameRecord(a: ElemPos, b: ElemPos) {
    && a.nStart == b.nStart && a.nLength == b.nLength && a.startTagLen == b.startTagLen && a.endTagLen == b.endTagLen
    && a.level == b.level && a.nonEnded == b.nonEnded && a.deleted == b.deleted
  }

  /** Two indexes are the same up to the numbering of slots: corresponding elements have the same records,
      and their links lead to corresponding elements. */
  predicate SameIndex(a: Elems, c: Content, b: Elems, d: Content) {
    match c
    case End(t) => d == End(t)
    case Mark(t, m, r) => d.Mark? && d.text == t && d.mark == m && SameIndex(a, r, b, d.rest)
    case Elem(t, i, s, k, e, r) =>
      && d.Elem? && d.text == t && d.stag == s && d.etag == e && i < |a| && d.id < |b| && SameRecord(a[i], b[d.id])
      && a[i].child == FirstId(k) && b[d.id].child == FirstId(d.kids)
      && a[i].next == FirstId(r) && b[d.id].next == FirstId(d.rest)
      && SameIndex(a, k, b, d.kids) && SameIndex(a, r, b, d.rest)
  }

  lemma {:induction false} SameByErase(a: Elems, c: Content, b: Elems, d: Content, off: int, lvl: int, p: nat, q: nat)
    requires Erase(c) == Erase(d) && Offsets(a, c, off, lvl) && Offsets(b, d, off, lvl) && Chain(a, c, p) && Chain(b, d, q)
    ensures SameIndex(a, c, b, d)
    decreases c
  {
    hide Erase, Placed, SameRecord;
    EraseParts(c, d);
    match c
    case End(_) =>
    case Mark(t, m, r) => SameByErase(a, r, b, d.rest, off + |t| + |m|, lvl, p, q);
    case Elem(t, i, s, k, e, r) =>
      SamePlaced(a[i], b[d.id], c, d, off, lvl);
      SameByErase(a, k, b, d.kids, off + |t| + |s|, lvl + 1, i, d.id);
      SameByErase(a, r, b, d.rest, off + |t| + |s| + Len(k) + |e|, lvl, p, q);
  }

  lemma EraseParts(c: Content, d: Content)
    requires Erase(c) == Erase(d)
    ensures c.End? ==> d == c
    ensures c.Mark? ==> d.Mark? && d.text == c.text && d.mark == c.mark && Erase(d.rest) == Erase(c.rest)
    ensures c.Elem? ==> d.Elem? && d.text == c.text && d.stag == c.stag && d.etag == c.etag && Len(d.kids) == Len(c.kids)
    ensures c.Elem? ==> Erase(d.kids) == Erase(c.kids) && Erase(d.rest) == Erase(c.rest)
  {
    if c.Elem? {
      LenErase(c.kids);
      LenErase(d.kids);
    }
  }

  lemma SamePlaced(a: ElemPos, b: ElemPos, c: Content, d: Content, off: int, lvl: int)
    requires c.Elem? && d.Elem? && Placed(a, c, off, lvl) && Placed(b, d, off, lvl)
    requires d.text == c.text && d.stag == c.stag && d.etag == c.etag && Len(d.kids) == Len(c.kids)
    ensures SameRecord(a, b)
  {
  }

  lemma LenErase(c: Content)
    ensures Len(Erase(c)) == Len(c)
  {
  }

  /** Whatever its history, an index that represents a document is determined by the content, up to the
      numbering of slots. */
  lemma IndexUnique(doc: string, a: Elems, fa: nat, c: Content, b: Elems, fb: nat, d: Content)
    requires Represents(doc, a, fa, c) && Represents(doc, b, fb, d) && Erase(c) == Erase(d)
    ensures SameIndex(a, c, b, d) && a[0].nLength == b[0].nLength == |doc|
  {
    hide Offsets, Linked, Shape, Erase;
    LinkedInRange(a, c);
    LinkedInRange(b, d);
    SameByErase(a, c, b, d, 0, 0, 0, 0);
  }

  lemma {:induction false} SameErase(a: Elems, c: Content, b: Elems, d: Content)
    requires SameIndex(a, c, b, d)
    ensures Erase(c) == Erase(d)
    decreases c
  {
    match c
    case End(_) =>
    case Mark(_, _, r) => SameErase(a, r, b, d.rest);
    case Elem(_, _, _, k, _, r) =>
      SameErase(a, k, b, d.kids);
      SameErase(a, r, b, d.rest);
  }

  // ---- Documents that start with <?> ----

  /** In the middle of a document `<?>` is an instruction. */
  lemma InstructionNode(m: string)
    requires "<?>" <= m
    ensures NodeAt(m, 1).len == 3 && NodeAt(m, 1).typ == PI
  {
    assert m[..3] == "<?>" && m[0] == m[..3][0] && m[1] == m[..3][1] && m[2] == m[..3][2];
    var a := START.(phase := OpenTag);
    var b := START.(end := PIEnd, typ := PI, inName := true, name := 2);
    assert Step(m, 1, 0, START) == More(a) && Step(m, 1, 1, a) == More(b);
    var c := EndNameAt(2, b);
    assert Step(m, 1, 2, b) == StepEnd(m, 1, 2, c) == AtGt(m, 1, 2, c);
    assert Run(m, 1, 0, START) == Run(m, 1, 1, a) == Run(m, 1, 2, b);
  }

  /** At the start of the document it is not. */
  lemma InstructionAtStart(doc: string)
    requires "<?>" <= doc
    ensures NodeIn(doc, 0).typ in {BAD, PI}
  {
    assert doc[..3] == "<?>" && doc[0] == doc[..3][0] && doc[1] == doc[..3][1] && doc[2] == doc[..3][2];
    assert doc[0..] == doc;
    var a := START.(phase := OpenTag);
    var b := START.(end := PIEnd, typ := PI, inName := true, name := 2);
    assert Step(doc, 0, 0, START) == More(a) && Step(doc, 0, 1, a) == More(b);
    var c := EndNameAt(2, b);
    assert Step(doc, 0, 2, b) == StepEnd(doc, 0, 2, c) == AtGt(doc, 0, 2, c);
    var d := c.(quote := NoQuote);
    assert Step(doc, 0, 2, b) == More(d);
    assert Run(doc, 0, 0, START) == Run(doc, 0, 1, a) == Run(doc, 0, 2, b) == Run(doc, 0, 3, d);
    InstructionRun(doc, 0, 3, d);
  }

  /** Well-formed content that renders to a document with `<?>` in front begins with that instruction. */
  lemma FirstInstruction(c: Content)
    requires WF(c) && "<?>" <= Render(c)
    ensures c.Mark? && c.text == "" && c.mark == "<?>"
  {
    var doc := Render(c);
    assert doc[0] == '<' && doc[1] == '?' && doc[2] == '>' by {
      assert doc[..3] == "<?>" && doc[0] == doc[..3][0] && doc[1] == doc[..3][1] && doc[2] == doc[..3][2];
    }
    FirstText(c);
    if c.Mark? {
      FirstMark(c);
    } else if c.Elem? {
      FirstTag(c);
    }
  }

  lemma PrefixHead(t: string, s: string)
    requires t <= s
    ensures t != "" ==> s != "" && s[0] == t[0]
  {
  }

  lemma TextFirst(c: Content)
    ensures c.text <= Render(c)
  {
  }

  lemma FirstText(c: Content)
    requires NoLt(c.text) && |Render(c)| > 0 && Render(c)[0] == '<'
    ensures c.text == "" && !c.End?
  {
    TextFirst(c);
    PrefixHead(c.text, Render(c));
  }

  lemma FirstMark(c: Content)
    requires c.Mark? && WF(c) && c.text == "" && "<?>" <= Render(c)
    ensures c.mark == "<?>"
  {
    hide NodeAt, Render;
    var doc := Render(c);
    MarkFirst(c);
    NodeProgress(c.mark, 1);
    assert doc[..3] == "<?>" && doc[..3][1] == doc[1] && doc[..|c.mark|][1] == doc[1];
    assert c.mark[..3] == doc[..3];
    InstructionNode(c.mark);
  }

  lemma MarkFirst(c: Content)
    requires c.Mark? && c.text == ""
    ensures |c.mark| <= |Render(c)| && c.mark == Render(c)[..|c.mark|]
  {
    assert Render(c) == "" + c.mark + Render(c.rest);
  }

  lemma FirstTag(c: Content)
    requires c.Elem? && WF(c) && c.text == ""
    ensures |Render(c)| >= 2 && Render(c)[1] != '?'
  {
    StartTagOpens(c.stag);
    assert Render(c)[1] == c.stag[1];
    assert !NameStart('?');
  }

  /** The content begins with an instruction that begins with `<?>`. */
  predicate HeadMark(c: Content) {
    c.Mark? && c.text == "" && "<?>" <= c.mark
  }

  lemma HeadRenders(c: Content)
    requires HeadMark(c)
    ensures !Quiet(Render(c))
  {
    MarkFirst(c);
    assert Render(c)[..3] == c.mark[..3];
  }

  /** A piece that is a token of its own in the middle of a document is none at its start if it begins with `<?>`. */
  lemma HeadShort(m: string)
    requires "<?>" <= m
    ensures !(IsMark(m) && FirstPI(m))
  {
    if IsMark(m) {
      InstructionNode(m);
      assert m == "<?>";
      LoneInstruction();
    }
  }

  /** `<?>` alone is no node at the start of a document. */
  lemma LoneInstruction()
    ensures NodeAt("<?>", 0).typ == BAD && IsMark("<?>")
  {
    var doc := "<?>";
    InstructionNode(doc);
    var a := START.(phase := OpenTag);
    var b := START.(end := PIEnd, typ := PI, inName := true, name := 2);
    assert Step(doc, 0, 0, START) == More(a) && Step(doc, 0, 1, a) == More(b);
    var c := EndNameAt(2, b);
    assert Step(doc, 0, 2, b) == StepEnd(doc, 0, 2, c) == AtGt(doc, 0, 2, c);
    var d := c.(quote := NoQuote);
    assert Run(doc, 0, 0, START) == Run(doc, 0, 1, a) == Run(doc, 0, 2, b) == Run(doc, 0, 3, d);
  }

  /** Well-formed content that begins so is no well-formed document. */
  lemma HeadOfWF(c: Content)
    requires WF(c)
    ensures WFDoc(c) <==> !HeadMark(c)
  {
    hide Render, IsMark, FirstPI;
    if HeadMark(c) {
      HeadRenders(c);
      HeadShort(c.mark);
    } else if !Quiet(Render(c)) {
      FirstInstruction(c);
    }
  }

  lemma HeadOfDoc(c: Content)
    requires WFDoc(c) && !Quiet(Render(c))
    ensures HeadMark(c)
  {
    hide NodeAt, Render;
    var doc := Render(c);
    MarkFirst(c);
    NodeProgress(c.mark, 0);
    assert c.mark[..3] == doc[..|c.mark|][..3] == doc[..3];
  }

  // ---- What the parser makes of the text ----

  lemma ParseFirst(doc: string)
    requires "<?>" <= doc
    ensures var n := NodeIn(doc, 0);
            && n.len > 0 && n.typ in {BAD, PI}
            && ParseDoc(doc) == if n.typ == BAD then Fail else
                                match ParseContent(doc, n.len)
                                case Fail => Fail
                                case Done(r, next) => if next == |doc| then Done(Mark("", doc[..n.len], r), next) else Fail
  {
    hide NodeIn;
    InstructionAtStart(doc);
    assert doc[0] == doc[..3][0] == '<';
    assert TextEnd(doc, 0) == 0;
    assert ParseContent(doc, 0) == ParseTags(doc, 0, 0);
    assert doc[0..0] == "" && doc[0..NodeIn(doc, 0).len] == doc[..NodeIn(doc, 0).len];
  }

  /** The first node of a document that begins with `<?>` is that of the piece it is. */
  lemma FirstNode(doc: string, m: string, rest: string)
    requires doc == m + rest && "<?>" <= doc && m != ""
    ensures FirstPI(m) <==> NodeIn(doc, 0).typ == PI && NodeIn(doc, 0).len == |m|
  {
    hide NodeAt;
    assert doc[0..] == doc && doc[..|m|] == m && m[..|m|] == m && doc[0] == doc[..3][0] == m[0];
    if FirstPI(m) {
      NodeLocal(m, doc, 0, 0);
    }
    if NodeIn(doc, 0).typ == PI && NodeIn(doc, 0).len == |m| {
      NodeLocal(doc, m, 0, 0);
    }
  }

  lemma ParsedLong(c: Content)
    requires !Quiet(Render(c))
    ensures ParseDoc(Render(c)) == Done(Erase(c), |Render(c)|) <==> WFDoc(c)
  {
    hide NodeIn, NodeAt, FirstPI, WF, ParseContent, ParseDoc;
    var doc := Render(c);
    ParseFirst(doc);
    if WFDoc(c) {
      LongParses(c);
    }
    if ParseDoc(doc) == Done(Erase(c), |doc|) {
      LongParsed(c);
    }
  }

  lemma LongParses(c: Content)
    requires !Quiet(Render(c)) && WFDoc(c)
    ensures ParseDoc(Render(c)) == Done(Erase(c), |Render(c)|)
  {
    hide NodeIn, NodeAt, WF, ParseContent, ParseDoc, Render;
    var doc := Render(c);
    ParseFirst(doc);
    assert doc == c.mark + Render(c.rest) by { MarkText(c); }
    FirstNode(doc, c.mark, Render(c.rest));
    MidAt(c.mark, Render(c.rest), "");
    assert c.mark + Render(c.rest) + "" == doc;
    ParseOfRender(doc, |c.mark|, c.rest);
    assert doc[..|c.mark|] == c.mark;
  }

  lemma LongParsed(c: Content)
    requires !Quiet(Render(c)) && ParseDoc(Render(c)) == Done(Erase(c), |Render(c)|)
    ensures WFDoc(c)
  {
    hide NodeIn, NodeAt, WF, ParseContent, ParseDoc, Render, FirstPI;
    var doc := Render(c);
    ParseFirst(doc);
    var n := NodeIn(doc, 0).len;
    RenderOfParse(doc, n);
    assert c.Mark? && c.text == "" && c.mark == doc[..n] && Erase(c.rest) == ParseContent(doc, n).c;
    WFErase(c.rest);
    assert doc == c.mark + doc[n..];
    FirstNode(doc, c.mark, doc[n..]);
  }

  lemma MarkText(c: Content)
    requires c.Mark? && c.text == ""
    ensures Render(c) == c.mark + Render(c.rest)
  {
    assert "" + c.mark == c.mark;
  }

  /** Content is what the parser makes of its text exactly when it is a well-formed document. */
  lemma ParsedIff(c: Content)
    ensures ParseDoc(Render(c)) == Done(Erase(c), |Render(c)|) <==> WFDoc(c)
  {
    hide ParseDoc, WF, FirstPI, Render, Erase;
    if Quiet(Render(c)) {
      ParseDocIff(Render(c), c);
    } else {
      ParsedLong(c);
    }
  }

  /** What the parser makes of a text is a well-formed document with that text. */
  lemma ParseSound(doc: string)
    requires ParseDoc(doc).Done?
    ensures var c := ParseDoc(doc).c; ParseDoc(doc) == Done(Erase(c), |doc|) && Erase(c) == c && Render(c) == doc && WFDoc(c)
  {
    hide NodeIn, NodeAt, WF, ParseContent, Render, FirstPI, WFDoc;
    var c := ParseDoc(doc).c;
    if Quiet(doc) {
      RenderOfParse(doc, 0);
    } else {
      ParseFirst(doc);
      var n := NodeIn(doc, 0).len;
      RenderOfParse(doc, n);
      MarkText(c);
      assert doc == doc[..n] + doc[n..];
    }
    assert Render(c) == doc && Erase(c) == c;
    ParsedIff(c);
  }

  // ---- The theorem ----

  /** What `x_ParseDoc` leaves of a text (`Markup.CMarkup.ParseDocument`): a mark when the text is not well-formed,
      and otherwise the index of its parse. */
  predicate ReadAs(doc: string, b: Elems, fb: nat, d: Content) {
    && 0 < |b| && (b[0].illFormed <==> ParseDoc(doc) == Fail)
    && (!b[0].illFormed ==> Represents(doc, b, fb, d) && ParseDoc(doc) == Done(Erase(d), |doc|))
  }

  /** The index of a document is the one the parser would build, up to the numbering of slots, exactly when its
      content is a well-formed document. */
  lemma InStepIff(doc: string, a: Elems, fa: nat, c: Content, b: Elems, fb: nat, d: Content)
    requires Represents(doc, a, fa, c) && ReadAs(doc, b, fb, d)
    ensures !b[0].illFormed && SameIndex(a, c, b, d) <==> WFDoc(c)
  {
    hide SameIndex, WFDoc, Erase, ParseDoc, Represents;
    RepresentsParts(doc, a, fa, c);
    ParsedIff(c);
    if WFDoc(c) {
      IndexUnique(doc, a, fa, c, b, fb, d);
    }
    if SameIndex(a, c, b, d) {
      SameErase(a, c, b, d);
    }
  }

  // ---- Two edits after which the index is not in step ----

  /** `<a//>`: when it is given a child its tag is split into `<a/>`, which has no content. */
  const DOUBLED: Content := Elem("", 1, "<a//>", End(""), "", End(""))

  /** The text that is left: its end tag has no start tag. */
  const LONE_END: string := "<a/>\r\n<b/>\r\n</a>"

  lemma SlashesSplit()
    ensures WFDoc(DOUBLED)
    ensures var c := Added(DOUBLED, 1, Only, 2, "<b/>", End(""), ""); Render(c) == LONE_END && ParseDoc(LONE_END) == Fail && !WFDoc(c)
  {
    hide WFDoc, ParseDoc, ParseContent, IsStart, NameFrom;
    DoubledOk();
    var n := Subtree(DOUBLED, 1);
    assert n == DOUBLED && 1 in Ids(DOUBLED);
    assert WordOf("<a//>") == "a" && SplitTag("<a//>") == "<a/>" by { SlashesWord(); }
    var c := Added(DOUBLED, 1, Only, 2, "<b/>", End(""), "");
    assert c == Elem("", 1, "<a/>", Elem(EOL, 2, "<b/>", End(""), "", End(EOL)), "</a>", End(""));
    SlashesText();
    LoneEndFails();
    ParsedIff(c);
  }

  lemma DoubledOk()
    ensures WFDoc(DOUBLED)
  {
    SlashesTag();
    assert Render(DOUBLED)[1] == 'a';
    QuietBySecond(Render(DOUBLED));
  }

  lemma SlashesText()
    ensures Render(Elem("", 1, "<a/>", Elem(EOL, 2, "<b/>", End(""), "", End(EOL)), "</a>", End(""))) == LONE_END
  {
    var k := Elem(EOL, 2, "<b/>", End(""), "", End(EOL));
    assert Render(End("")) == "" && Render(End(EOL)) == EOL;
    assert Render(k) == EOL + ("<b/>" + "" + "") + EOL == "\r\n<b/>\r\n";
    assert "" + ("<a/>" + "\r\n<b/>\r\n" + "</a>") + "" == LONE_END;
  }

  lemma SlashesWord()
    ensures WordOf("<a//>") == "a" && SplitTag("<a//>") == "<a/>"
  {
    var s := "<a//>";
    assert s[1] == 'a' && s[2] == '/' && EndAnyName('/') && !EndAnyName('a') && !White('a');
    assert SkipWhite(s, 1) == 1 && NameEnd(s, 2) == 2 && NameEnd(s, 1) == 2;
    assert s[1..2] == "a" && s[..3] + ">" == "<a/>";
  }

  lemma LoneEndFails()
    ensures ParseDoc(LONE_END) == Fail
  {
    hide ParseContent, NodeAt, WF, Render, Erase, Quiet;
    TwoTagsOk();
    assert LONE_END[0..12] == "<a/>\r\n<b/>\r\n" && LONE_END[12..] == "</a>";
    QuietBySecond(LONE_END);
    EndHere(LONE_END, 12);
    ParseOfRender(LONE_END, 0, TWO_EMPTY);
  }

  /** What stands in front of the end tag. */
  const TWO_EMPTY: Content := Elem("", 0, "<a/>", End(""), "", Elem(EOL, 0, "<b/>", End(""), "", End(EOL)))

  lemma TwoTagsOk()
    ensures WF(TWO_EMPTY) && Render(TWO_EMPTY) == "<a/>\r\n<b/>\r\n" && IsNode("</a>", END_TAG)
  {
    hide IsNode, IsStart, IsMark, Closes;
    ThreeTags();
    assert Render(End("")) == "" && Render(End(EOL)) == EOL;
    assert Render(TWO_EMPTY) == "" + ("<a/>" + "" + "") + (EOL + ("<b/>" + "" + "") + EOL);
  }

  lemma ThreeTags()
    ensures IsStart("<a/>", true) && IsStart("<b/>", true) && IsNode("</a>", END_TAG)
  {
    hide IsStart, NodeAt;
    EmptyTag("a");
    EmptyTag("b");
    EndTag("a");
    assert "<" + "a" + "/>" == "<a/>" && "<" + "b" + "/>" == "<b/>" && "</" + "a" + ">" == "</a>";
  }

  lemma EndHere(doc: string, p: nat)
    requires 0 < p < |doc| && doc[p..] == "</a>" && IsNode("</a>", END_TAG)
    ensures NodeIn(doc, p).typ == END_TAG
  {
    NodeInAt(doc, p, "</a>");
  }

  lemma SlashesTag()
    ensures IsStart("<a//>", true) && |"<a//>"| == 5 && "<a//>"[2] == '/'
  {
    var s := "<a//>";
    RunToName(s, "a");
    var a := EndNameAt(2, NameState());
    var b := a.(d1 := '/');
    var c := b.(d1 := '/', d2 := '/');
    assert Step(s, 1, 2, NameState()) == StepEnd(s, 1, 2, a) == More(b);
    assert Step(s, 1, 3, b) == StepEnd(s, 1, 3, b) == More(c);
    assert Step(s, 1, 4, c) == AtGt(s, 1, 4, c);
    assert Run(s, 1, 2, NameState()) == Run(s, 1, 3, b) == Run(s, 1, 4, c);
  }

  /** `<a/><?>`: when the element is removed, the instruction moves to the start of the document. */
  const LEADING: Content := Elem("", 1, "<a/>", End(""), "", Mark("", "<?>", End("")))

  lemma QuietBySecond(doc: string)
    requires |doc| > 1 && doc[1] != '?'
    ensures Quiet(doc)
  {
    SecondOf(doc);
  }

  lemma SecondOf(doc: string)
    requires |doc| > 1
    ensures "<?>" <= doc ==> doc[1] == '?'
  {
    assert |doc| >= 3 ==> doc[..3][1] == doc[1];
    assert "<?>"[1] == '?';
  }

  lemma LeadingWF()
    ensures WF(LEADING) && Quiet(Render(LEADING))
  {
    EmptyTag("a");
    InstructionNode("<?>");
    assert "<" + "a" + "/>" == "<a/>";
    assert Render(LEADING)[1] == 'a';
    QuietBySecond(Render(LEADING));
  }

  lemma InstructionMoves()
    ensures WFDoc(LEADING)
    ensures Render(Removed(LEADING, 0, 1)) == "<?>" && ParseDoc("<?>") == Fail && !WFDoc(Removed(LEADING, 0, 1))
  {
    hide WF, ParseDoc, Quiet;
    LeadingWF();
    var c := Removed(LEADING, 0, 1);
    assert c == Mark("", "<?>", End(""));
    assert Render(End("")) == "";
    assert Render(c) == "" + "<?>" + "" == "<?>";
    LoneInstruction();
    HeadRenders(c);
    ParseFirst("<?>");
    assert "<?>"[0..] == "<?>";
    ParsedIff(c);
  }
}
