/** `x_GetData`, and what it returns after `x_SetData`. */
module GetData {
  import opened Chars
  import opened Token
  import opened Content
  import opened Index
  import opened Edit
  import opened Represent
  import opened Position
  import opened AddElem
  import opened SetData
  import opened NewElem
  import opened CData
  import opened Escaping

  /** What `x_GetData` comes to: a text, or the exception of a substring that starts behind the end. */
  datatype Fetched = Fetched(data: string) | Thrown

  /** `MCD_STRMID`: a negative length stands for the rest of the text. */
  function Mid(s: string, pos: nat, n: int): Fetched {
    if pos > |s| then Thrown else if 0 <= n && pos + n <= |s| then Fetched(s[pos..pos + n]) else Fetched(s[pos..])
  }

  function Append(a: string, b: Fetched): Fetched {
    match b
    case Fetched(x) => Fetched(a + x)
    case Thrown => Thrown
  }

  /** The data in one node: text is unescaped, of a CDATA section the inside is taken, white space and
      everything else is ignored. */
  function NodeData(table: seq<string>, doc: string, i: nat): Fetched
    requires i <= |doc|
  {
    var n := NodeIn(doc, i);
    if n.typ == TEXT then Fetched(Unescape(table, doc, i, i + n.len))
    else if n.typ == CDATA then Mid(doc, i + 9, n.len - 12)
    else Fetched("")
  }

  /** The data in the nodes from `i` up to `end`. */
  function NodesData(table: seq<string>, doc: string, i: nat, end: nat): Fetched
    requires i <= |doc| && end <= |doc|
    decreases end - i
  {
    if i >= end then Fetched("") else
    match NodeData(table, doc, i)
    case Thrown => Thrown
    case Fetched(x) => Append(x, NodesData(table, doc, i + NodeIn(doc, i).len, end))
  }

  /** The data between two tags: with a `<` in it node by node, otherwise as one text. */
  function RangeData(table: seq<string>, doc: string, i: nat, end: nat): Fetched
    requires i <= end <= |doc|
  {
    if TextEnd(doc, i) < end then NodesData(table, doc, i, end) else Fetched(Unescape(table, doc, i, end))
  }

  // ---- After x_SetData ----

  lemma {:induction false} TextHasNoTag(doc: string, i: nat, x: string)
    requires At(doc, i, x) && NoLt(x)
    ensures i + |x| <= TextEnd(doc, i)
    decreases |x|
  {
    if x != "" {
      assert x == [x[0]] + x[1..];
      AtSplit(doc, i, [x[0]], x[1..]);
      assert doc[i..i + 1][0] == x[0];
      TextHasNoTag(doc, i + 1, x[1..]);
    }
  }

  /** Escaped text comes back. */
  lemma EscapedBack(table: seq<string>, doc: string, i: nat, s: string, quotes: bool)
    requires KnowsXml(table) && At(doc, i, Escape(s, quotes, false))
    ensures i + |Escape(s, quotes, false)| <= |doc|
    ensures RangeData(table, doc, i, i + |Escape(s, quotes, false)|) == Fetched(s)
  {
    hide Escape, Unescape, KnowsXml;
    EscapeNoLt(s, quotes, false);
    TextHasNoTag(doc, i, Escape(s, quotes, false));
    UnescapeOfEscape(table, doc, i, s, quotes);
  }

  /** One section. */
  lemma SectionData(table: seq<string>, doc: string, i: nat, body: string)
    requires 0 < i && At(doc, i, Section(body)) && NoMarks(body)
    ensures NodeIn(doc, i).len == |Section(body)| && NodeData(table, doc, i) == Fetched(body) && i + |Section(body)| <= |doc|
    ensures doc[i] == '<'
  {
    hide NodeAt, NodeIn;
    SectionIsNode(body);
    NodeInAt(doc, i, Section(body));
    AtSplit3(doc, i, OPEN, body, CLOSE);
    assert |OPEN| == 9 && |CLOSE| == 3;
  }

  lemma MarkFound(s: string, j: nat)
    requires j + 3 <= |s| && MarkAt(s, j)
    ensures s[..j] + HALF + (">" + s[j + 3..]) == s
  {
    assert s[j..j + 3] == HALF + ">";
    assert s == s[..j] + s[j..j + 3] + s[j + 3..];
  }

  lemma NodesStep(table: seq<string>, doc: string, i: nat, n: nat, end: nat, x: string)
    requires i <= |doc| && i < end <= |doc| && NodeData(table, doc, i) == Fetched(x) && NodeIn(doc, i).len == n
    ensures i + n <= |doc| && NodesData(table, doc, i, end) == Append(x, NodesData(table, doc, i + n, end))
    ensures i + n >= end ==> NodesData(table, doc, i, end) == Fetched(x)
  {
    hide NodeData, NodeIn;
    assert x + "" == x;
  }

  /** The sections of a text, read one after the other, give the text. */
  lemma {:induction false} SectionsBack(table: seq<string>, doc: string, i: nat, pre: string, s: string)
    requires 0 < i && At(doc, i, Render(Sections(pre, s))) && (pre == "" || pre == ">")
    ensures i + Len(Sections(pre, s)) <= |doc| && i < i + Len(Sections(pre, s)) && doc[i] == '<'
    ensures NodesData(table, doc, i, i + Len(Sections(pre, s))) == Fetched(pre + s)
    decreases |s|
  {
    hide NodeData, NodeIn, Section, NoMarks, At, NodesData, Render, Sections, Len;
    var j := FindMark(s, 0);
    if j == |s| {
      NoMarksJoin(pre, s, "");
      assert pre + s + "" == pre + s;
      LastSection(pre, s, j);
      SectionData(table, doc, i, pre + s);
      NodesStep(table, doc, i, |Section(pre + s)|, i + |Section(pre + s)|, pre + s);
    } else {
      var body, r := pre + s[..j] + HALF, Sections(">", s[j + 3..]);
      NoMarksPart(s, j);
      NoMarksJoin(pre, s[..j], HALF);
      MoreSections(pre, s, j);
      AtSplit(doc, i, Section(body), Render(r));
      SectionData(table, doc, i, body);
      SectionsBack(table, doc, i + |Section(body)|, ">", s[j + 3..]);
      NodesStep(table, doc, i, |Section(body)|, i + |Section(body)| + Len(r), body);
      MarkFound(s, j);
      assert body + (">" + s[j + 3..]) == pre + (s[..j] + HALF + (">" + s[j + 3..]));
    }
  }

  lemma NoMarksPart(s: string, j: nat)
    requires j <= |s| && forall k :: 0 <= k < j ==> !MarkAt(s, k)
    ensures forall k :: 0 <= k < |s[..j]| ==> !MarkAt(s[..j], k)
  {
    assert forall k :: 0 <= k < j ==> MarkAt(s[..j], k) ==> MarkAt(s, k);
  }

  lemma LastSection(pre: string, s: string, j: nat)
    requires j == FindMark(s, 0) == |s|
    ensures Render(Sections(pre, s)) == Section(pre + s) && Len(Sections(pre, s)) == |Section(pre + s)| && 0 < |Section(pre + s)|
  {
    assert Render(Sections(pre, s)) == "" + Section(pre + s) + "";
  }

  lemma MoreSections(pre: string, s: string, j: nat)
    requires j == FindMark(s, 0) < |s|
    ensures var x, r := Section(pre + s[..j] + HALF), Sections(">", s[j + 3..]);
            Render(Sections(pre, s)) == x + Render(r) && Len(Sections(pre, s)) == |x| + Len(r) && 0 < |x|
  {
    var x, r := Section(pre + s[..j] + HALF), Sections(">", s[j + 3..]);
    assert Render(Sections(pre, s)) == "" + x + Render(r);
  }

  /** What was set as data, escaped or in CDATA sections, is what is read back. */
  lemma DataBack(table: seq<string>, doc: string, i: nat, s: string, f: NodeFlags)
    requires KnowsXml(table) && 0 < i && At(doc, i, Render(DataOf(s, f))) && (f.cdata || !f.refs)
    ensures i + Len(DataOf(s, f)) <= |doc| && RangeData(table, doc, i, i + Len(DataOf(s, f))) == Fetched(s)
  {
    hide NodesData, Escape, KnowsXml, Sections, Unescape;
    DataRender(s, f);
    if f.cdata {
      SectionsBack(table, doc, i, "", s);
      assert "" + s == s;
      assert TextEnd(doc, i) == i;
    } else {
      EscapedBack(table, doc, i, s, f.quotes);
    }
  }

  /** After `x_SetData` of an element `p`, the element has an end tag and no children, and the text between
      its tags reads as the data that was set. */
  lemma GetAfterSet(table: seq<string>, doc: string, elem: Elems, free: nat, c: Content, p: nat, s: string, f: NodeFlags)
    requires KnowsXml(table) && (f.cdata || !f.refs) && CanFill(c, p, DataOf(s, f)) && Shape(c)
    requires Represents(doc, elem, free, Filled(c, p, DataOf(s, f)))
    ensures p < |elem| && p != 0 && elem[p].child == 0 && !elem[p].IsEmptyElement()
    ensures var i, n := elem[p].StartContent(), elem[p].ContentLen();
            0 <= i && 0 <= n && i + n <= |doc| && RangeData(table, doc, i, i + n) == Fetched(s)
  {
    hide RangeData, Opened, Closed, Offsets, Linked, Shape, DataOf, KnowsXml, Render, Before, After;
    var c', k := Filled(c, p, DataOf(s, f)), DataOf(s, f);
    var n := Subtree(c, p);
    SubtreeShape(c, p);
    SplitShape(n, k);
    WithBelow(c, p, Opened(n), k, Closed(n));
    ListRecord(doc, elem, free, c', p);
    ListText(c', p);
    ParentFacts(doc, elem, free, c', p);
    NoChildren(elem, c', p);
    MidAt(Ahead(c', p), Render(k), Beyond(c', p));
    AheadLonger(doc, elem, free, c', p);
    DataBack(table, doc, |Ahead(c', p)|, s, f);
  }

  lemma AheadLonger(doc: string, elem: Elems, free: nat, c: Content, p: nat)
    requires Represents(doc, elem, free, c) && p in Ids(c) && p != 0
    ensures 0 < |Ahead(c, p)|
  {
    hide Offsets, Linked, Shape;
    ElementAt(doc, elem, free, c, p);
  }

  // ---- For the loop ----

  lemma AppendNothing(x: Fetched)
    ensures Append("", x) == x
  {
    match x
    case Fetched(s) => assert "" + s == s;
    case Thrown =>
  }

  lemma AppendEnd(a: string)
    ensures Append(a, Fetched("")) == Fetched(a)
  {
    assert a + "" == a;
  }

  /** One round of the loop. */
  lemma DataStep(table: seq<string>, doc: string, i: nat, end: nat, a: string)
    requires i < end <= |doc|
    ensures i + NodeIn(doc, i).len <= |doc| && 0 < NodeIn(doc, i).len
    ensures var n, all := NodeIn(doc, i), Append(a, NodesData(table, doc, i, end));
            var rest := NodesData(table, doc, i + n.len, end);
            if n.typ == TEXT then all == Append(a + Unescape(table, doc, i, i + n.len), rest)
            else if n.typ == CDATA then
              (match Mid(doc, i + 9, n.len - 12)
               case Thrown => all == Thrown
               case Fetched(x) => all == Append(a + x, rest))
            else all == Append(a, rest)
  {
    hide NodeIn, Unescape, Mid;
    var d := NodeData(table, doc, i);
    if d.Fetched? {
      var rest := NodesData(table, doc, i + NodeIn(doc, i).len, end);
      AppendTwice(a, d.data, rest);
      assert a + "" == a;
    }
  }

  lemma AppendTwice(a: string, x: string, b: Fetched)
    ensures Append(a, Append(x, b)) == Append(a + x, b)
  {
    match b
    case Fetched(y) => assert a + (x + y) == a + x + y;
    case Thrown =>
  }

  lemma NodesDone(table: seq<string>, doc: string, i: nat, end: nat)
    requires end <= i <= |doc|
    ensures NodesData(table, doc, i, end) == Fetched("")
  {
  }
}
