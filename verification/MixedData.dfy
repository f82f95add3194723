/** The data of an element whose content holds text, comments, instructions and CDATA sections. */
module MixedData {
  import opened Chars
  import opened Token
  import opened Content
  import opened Index
  import opened Grammar
  import opened Cutting
  import opened StartTags
  import opened Escaping
  import opened GetData
  import opened Edit
  import opened Represent
  import opened NewElem

  /** The data of a run of text from `p` to `q`: its pieces, each of which ends behind a `>` or with the run, are
      unescaped, and white space at the end of it does not count. */
  function RunData(table: seq<string>, doc: string, p: nat, q: nat): string
    requires p <= q <= |doc|
    decreases q - p
  {
    if p == q then "" else
    var t := TextPiece(doc[p..]);
    if t.len == 0 || t.len > q - p then "" else
    (if t.typ == TEXT then Unescape(table, doc, p, p + t.len) else "") + RunData(table, doc, p + t.len, q)
  }

  predicate IsSection(m: string) {
    "<![CDATA[" <= m && |m| >= 12
  }

  /** The data of a comment and so on is nothing, that of a section what stands inside it. */
  function MarkData(m: string): string {
    if IsSection(m) then m[9..|m| - 3] else ""
  }

  /** Every section is written in full. */
  predicate InFull(k: Content) {
    match k
    case End(_) => true
    case Mark(_, m, r) => (NodeAt(m, 1).typ == CDATA <==> IsSection(m)) && InFull(r)
    case Elem(_, _, _, _, _, r) => InFull(r)
  }

  /** The data of content without elements that begins at `i`. */
  function Gathered(table: seq<string>, doc: string, i: nat, k: Content): string
    requires i + Len(k) <= |doc|
    decreases k
  {
    match k
    case End(t) => RunData(table, doc, i, i + |t|)
    case Mark(t, m, r) => RunData(table, doc, i, i + |t|) + (MarkData(m) + Gathered(table, doc, i + |t| + |m|, r))
    case Elem(_, _, _, _, _, _) => ""
  }

  lemma {:induction false} RunNodes(table: seq<string>, doc: string, p: nat, q: nat, end: nat)
    requires p <= q <= end <= |doc| && NoLt(doc[p..q]) && (q < |doc| ==> doc[q] == '<')
    ensures NodesData(table, doc, p, end) == Append(RunData(table, doc, p, q), NodesData(table, doc, q, end))
    decreases q - p
  {
    hide NodeAt, NodeIn, NodesData, Unescape, TextPiece;
    if p == q {
      AppendNothing(NodesData(table, doc, p, end));
    } else {
      var t := TextPiece(doc[p..]);
      TextNode(doc, p, q);
      NotLt(doc, p, q);
      TextEnds(doc, p);
      RunNodes(table, doc, p + t.len, q, end);
      var x := if t.typ == TEXT then Unescape(table, doc, p, p + t.len) else "";
      assert NodeData(table, doc, p) == Fetched(x);
      NodesStep(table, doc, p, t.len, end, x);
      AppendTwice(x, RunData(table, doc, p + t.len, q), NodesData(table, doc, q, end));
    }
  }

  lemma NotLt(doc: string, p: nat, q: nat)
    requires p < q <= |doc| && NoLt(doc[p..q])
    ensures doc[p] != '<'
  {
    assert doc[p] == doc[p..q][0];
  }

  lemma MarkNode(table: seq<string>, doc: string, i: nat, m: string)
    requires 0 < i && At(doc, i, m) && IsMark(m) && (NodeAt(m, 1).typ == CDATA <==> IsSection(m))
    ensures NodeIn(doc, i).len == |m| && NodeData(table, doc, i) == Fetched(MarkData(m)) && i + |m| <= |doc| && doc[i] == '<' && m != ""
  {
    hide NodeAt, NodeIn, Unescape;
    NodeInAt(doc, i, m);
    if IsSection(m) {
      var n := |m|;
      assert doc[i..i + n] == m;
      assert m[9..n - 3] == doc[i + 9..i + n - 3] by { SlicePart(doc, i, n); }
    }
  }

  lemma SlicePart(doc: string, i: nat, n: nat)
    requires i + n <= |doc| && n >= 12
    ensures doc[i..i + n][9..n - 3] == doc[i + 9..i + n - 3]
  {
    var a, b := doc[i..i + n][9..n - 3], doc[i + 9..i + n - 3];
    assert |a| == |b| && forall k :: 0 <= k < |a| ==> a[k] == b[k];
  }

  /** What is read of an element without child elements, node by node: the runs of text and the insides of its sections,
      in order, and nothing of comments, instructions and document types. */
  lemma {:induction false} Mixed(table: seq<string>, doc: string, i: nat, k: Content)
    requires WF(k) && Ids(k) == {} && InFull(k) && 0 < i && At(doc, i, Render(k)) && (i + Len(k) < |doc| ==> doc[i + Len(k)] == '<')
    ensures i + Len(k) <= |doc| && NodesData(table, doc, i, i + Len(k)) == Fetched(Gathered(table, doc, i, k))
    decreases k
  {
    hide NodeAt, NodeIn, NodesData, RunData, MarkData, NodeData, At, NoLt, IsMark, Render;
    PartsAt(doc, i, k);
    match k
    case End(t) =>
      RunAt(doc, i, t);
      RunNodes(table, doc, i, i + |t|, i + |t|);
      NoNodes(table, doc, i + |t|);
      AppendEnd(RunData(table, doc, i, i + |t|));
    case Mark(t, m, r) =>
      var q, e := i + |t|, i + Len(k);
      MarkAtPlace(doc, i, t, m, r);
      RunAt(doc, i, t);
      MarkNode(table, doc, q, m);
      Mixed(table, doc, q + |m|, r);
      RunNodes(table, doc, i, q, e);
      NodesStep(table, doc, q, |m|, e, MarkData(m));
    case Elem(_, _, _, _, _, _) =>
  }

  lemma MarkAtPlace(doc: string, i: nat, t: string, m: string, r: Content)
    requires At(doc, i, Render(Mark(t, m, r)))
    ensures At(doc, i, t) && At(doc, i + |t|, m)
  {
    AtSplit3(doc, i, t, m, Render(r));
  }

  lemma RunAt(doc: string, i: nat, t: string)
    requires At(doc, i, t) && NoLt(t)
    ensures i + |t| <= |doc| && NoLt(doc[i..i + |t|])
  {
  }

  lemma NoNodes(table: seq<string>, doc: string, i: nat)
    requires i <= |doc|
    ensures NodesData(table, doc, i, i) == Fetched("")
  {
  }

  lemma FirstCharAt(s: string, i: nat, n: nat, P: char -> bool)
    requires i <= n <= |s| && (forall k :: i <= k < n ==> !P(s[k])) && (n < |s| ==> P(s[n]))
    ensures FirstChar(s, i, P) == n
  {
  }

  lemma KidsPlace(doc: string, b: string, s: string, k: string, e: string, a: string)
    requires doc == b + (s + k + e) + a && e != "" && e[0] == '<'
    ensures At(doc, |b| + |s|, k) && |b| + |s| + |k| < |doc| && doc[|b| + |s| + |k|] == '<'
  {
    assert doc == (b + s) + k + (e + a);
  }

  /** `x_GetData` on an element without child elements: its text unescaped, or, once anything else stands in it, what is
      gathered from its pieces. */
  lemma ReadMixed(table: seq<string>, doc: string, elem: Elems, free: nat, c: Content, p: nat)
    requires Represents(doc, elem, free, c) && WF(c) && p in Ids(c)
    requires var n := Subtree(c, p); n.etag != "" && Ids(n.kids) == {} && InFull(n.kids)
    ensures p < |elem| && var k, i := Subtree(c, p).kids, elem[p].StartContent();
            && 0 <= i && i + Len(k) <= |doc| && elem[p].ContentLen() == Len(k)
            && RangeData(table, doc, i, i + Len(k)) == Fetched(if k.End? then Unescape(table, doc, i, i + |k.text|) else Gathered(table, doc, i, k))
  {
    hide Offsets, Linked, Shape, NodesData, Gathered, WF, InFull, Render, At, Unescape, IsMark, IsStart, Closes, Represents, Before, After, Subtree;
    ElementAt(doc, elem, free, c, p);
    WFSubtree(c, p);
    var n := Subtree(c, p);
    var k, i := n.kids, elem[p].StartContent();
    KidsWF(n);
    WFShape(k);
    KidsPlace(doc, Before(c, p), n.stag, Render(k), n.etag, After(c, p));
    Mixed(table, doc, i, k);
    FirstMark(doc, i, k);
  }

  /** The first `<` of content without elements. */
  lemma FirstMark(doc: string, i: nat, k: Content)
    requires Shape(k) && Ids(k) == {} && At(doc, i, Render(k)) && i + Len(k) <= |doc| && (i + Len(k) < |doc| ==> doc[i + Len(k)] == '<')
    ensures (k.End? ==> TextEnd(doc, i) == i + |k.text| == i + Len(k)) && (!k.End? ==> TextEnd(doc, i) < i + Len(k))
  {
    hide NodeAt, NodeIn, At, Render, NoLt;
    PartsAt(doc, i, k);
    match k
    case End(t) =>
      RunAt(doc, i, t);
      TextEndUnique(doc, i, i + |t|);
    case Mark(t, m, r) =>
      MarkAtPlace(doc, i, t, m, r);
      RunAt(doc, i, t);
      MarkStands(doc, i + |t|, m);
      TextEndUnique(doc, i, i + |t|);
    case Elem(_, _, _, _, _, _) =>
  }

  lemma KidsWF(n: Content)
    requires n.Elem? && WF(n)
    ensures WF(n.kids)
  {
    hide IsStart, IsMark, Closes;
  }

  lemma MarkStands(doc: string, q: nat, m: string)
    requires At(doc, q, m) && m != "" && m[0] == '<'
    ensures q < |doc| && doc[q] == '<'
  {
    assert doc[q..q + |m|][0] == m[0];
  }

  predicate Plain(doc: string, p: nat, q: nat) {
    q <= |doc| && (q < |doc| ==> doc[q] == '<') && forall k :: p <= k < q ==> doc[k] != '<' && doc[k] != '>'
  }

  lemma PlainPiece(doc: string, p: nat, q: nat)
    requires p < q <= |doc| && Plain(doc, p, q)
    ensures var t := TextPiece(doc[p..]); t.len == q - p && (t.typ == TEXT <==> !AllWhite(doc[p..q]))
  {
    var s, n := doc[p..], q - p;
    var w := FirstChar(s, 0, NotWhite());
    assert forall k :: 0 <= k < n ==> s[k] == doc[p + k];
    assert forall k :: p <= k < q ==> doc[k] == s[k - p];
    assert forall k :: 0 <= k < n ==> doc[p..q][k] == s[k];
    if AllWhite(doc[p..q]) {
      assert forall k :: 0 <= k < n ==> White(s[k]);
      FirstCharAt(s, 0, n, NotWhite());
    } else {
      FirstCharAt(s, w + 1, n, TagMarks());
    }
  }

  /** A run of text without a `>` that is not all white is one piece. */
  lemma PlainRun(table: seq<string>, doc: string, p: nat, q: nat)
    requires p < q <= |doc| && Plain(doc, p, q)
    ensures RunData(table, doc, p, q) == if AllWhite(doc[p..q]) then "" else Unescape(table, doc, p, q)
  {
    hide Unescape, TextPiece, Plain, AllWhite;
    PlainPiece(doc, p, q);
    assert RunData(table, doc, q, q) == "";
  }
}
