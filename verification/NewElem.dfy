/** The elements `x_AddElem` writes, and exactly when the document stays well-formed. */
module NewElem {
  import opened Chars
  import opened Token
  import opened Content
  import opened Index
  import opened Edit
  import opened Represent
  import opened Position
  import opened AddElem
  import opened Tags
  import opened Cursor
  import opened CData
  import Escaping

  /** The node flags: MNF_INSERT, MNF_CHILD, MNF_WITHCDATA, MNF_WITHREFS, MNF_ESCAPEQUOTES and
      MNF_WITHXHTMLSPACE. */
  datatype NodeFlags = NodeFlags(insert: bool, child: bool, cdata: bool, refs: bool, quotes: bool, xhtmlSpace: bool)

  function StagOf(name: string, value: string, f: NodeFlags): string {
    if value != "" then "<" + name + ">" else if f.xhtmlSpace then "<" + name + " />" else "<" + name + "/>"
  }

  function EtagOf(name: string, value: string): string {
    if value != "" then "</" + name + ">" else ""
  }

  /** Text as the content of an element. */
  function DataOf(value: string, f: NodeFlags): Content {
    if f.cdata then Sections("", value) else End(Escaping.Escape(value, f.quotes, f.refs))
  }

  /** The content of a new element; without a value it is an empty-element tag. */
  function KidsOf(value: string, f: NodeFlags): Content {
    if value != "" then DataOf(value, f) else End("")
  }

  lemma {:induction false} SectionsShape(pre: string, s: string)
    ensures Shape(Sections(pre, s)) && Ids(Sections(pre, s)) == {}
    decreases |s|
  {
    var j := FindMark(s, 0);
    if j < |s| {
      SectionsShape(">", s[j + 3..]);
    }
  }

  lemma DataShape(value: string, f: NodeFlags)
    ensures Shape(DataOf(value, f)) && Ids(DataOf(value, f)) == {}
  {
    if f.cdata {
      SectionsShape("", value);
    } else {
      Escaping.EscapeNoLt(value, f.quotes, f.refs);
    }
  }

  lemma DataWF(value: string, f: NodeFlags)
    ensures WF(DataOf(value, f))
  {
    if f.cdata {
      SectionsWF("", value);
    } else {
      Escaping.EscapeNoLt(value, f.quotes, f.refs);
    }
  }

  /** Whatever the name, the pieces have the shape that the index relies on. */
  lemma NewShape(name: string, value: string, f: NodeFlags)
    ensures ShapedTags(StagOf(name, value, f), KidsOf(value, f), EtagOf(name, value))
    ensures Shape(KidsOf(value, f)) && Ids(KidsOf(value, f)) == {}
  {
    hide DataOf;
    DataShape(value, f);
  }

  /** With a name free of separators, the pieces are an element exactly when the name is valid. */
  lemma NewElemOk(name: string, value: string, f: NodeFlags)
    requires NameChars(name)
    ensures ElemOk(StagOf(name, value, f), KidsOf(value, f), EtagOf(name, value)) <==> ValidName(name)
  {
    hide DataOf, IsNode, NameOf;
    DataWF(value, f);
    var s := StagOf(name, value, f);
    EndTag(name);
    if ValidName(name) {
      PlainTag(name);
      EmptyTag(name);
      EmptyTagWithSpace(name);
    } else {
      BadName(name, s);
    }
  }

  /** Without a name that can start one, no start tag. */
  lemma BadName(name: string, s: string)
    requires !ValidName(name) && NameChars(name) && (s == "<" + name + ">" || s == "<" + name + "/>" || s == "<" + name + " />")
    ensures !IsNode(s, ELEMENT)
  {
    assert s[1] == if name != "" then name[0] else if s == "<" + name + ">" then '>' else if s == "<" + name + "/>" then '/' else ' ';
    if IsNode(s, ELEMENT) {
      StartTagOpens(s);
    }
  }

  // ---- Splitting an empty-element tag ----

  /** The condition under which an empty-element tag can be split: it does not end with `//>`, and
      what follows the word its name begins with ends the name or is `=`. */
  predicate CanSplit(s: string) {
    var e := 1 + |WordOf(s)|;
    |s| >= 4 && s[|s| - 3] != '/' && e < |s| && (EndName(s[e]) || s[e] == '=')
  }

  lemma EndNameIsAny(c: char)
    ensures EndName(c) ==> EndAnyName(c)
    ensures NameStart(c) ==> !EndAnyName(c)
    ensures EndAnyName(c) && !EndName(c) ==> (EndPathWord(c) <==> c == '=')
  {
  }

  /** The word that `x_GetTagName` finds is the beginning of the tag name. */
  lemma WordOfTag(s: string)
    requires IsNode(s, ELEMENT)
    ensures |s| >= 3 && NameChars(WordOf(s)) && 1 + |WordOf(s)| < |s|
    ensures WordOf(s) <= NameOf(s) && (|WordOf(s)| == |NameOf(s)| <==> EndName(s[1 + |WordOf(s)|]))
    ensures EndAnyName(s[1 + |WordOf(s)|])
    ensures |WordOf(s)| < |NameOf(s)| ==> NameOf(s)[|WordOf(s)|] == s[1 + |WordOf(s)|]
  {
    StartTagOpens(s);
    NameOfTag(s);
    forall c: char ensures (EndName(c) ==> EndAnyName(c)) && (NameStart(c) ==> !EndAnyName(c)) { EndNameIsAny(c); }
    var j, b := NameStop(s, 1), NameEnd(s, 1);
    WordEnd(s, 1);
    assert SkipWhite(s, 1) == 1;
    assert WordOf(s) == s[1..b];
  }

  lemma {:induction false} WordEnd(s: string, i: nat)
    requires i < |s| && EndAnyName(s[|s| - 1])
    ensures var b := NameEnd(s, i); b < |s| && EndAnyName(s[b]) && forall k :: i <= k < b ==> !EndAnyName(s[k])
    decreases |s| - i
  {
    if !EndAnyName(s[i]) { WordEnd(s, i + 1); }
  }

  lemma SplitOk(s: string)
    requires IsStart(s, true)
    ensures |s| >= 4
    ensures IsStart(SplitTag(s), false) && Closes("</" + WordOf(s) + ">", SplitTag(s)) <==> CanSplit(s)
  {
    hide IsNode, NameOf, WordOf, EndName, EndAnyName, EndPathWord, SplitTag, NodeAt;
    SplitTagIff(s);
    WordOfTag(s);
    EndTag(WordOf(s));
    EndNameIsAny(s[1 + |WordOf(s)|]);
  }

  // ---- Well-formedness after x_AddElem ----

  lemma WFInsert(k: Content, w: Where, id: nat, s: string, n: Content, e: string)
    requires WF(k) && CanInsert(k, w)
    ensures WF(Insert(k, w, id, s, n, e)) <==> ElemOk(s, n, e)
  {
    hide ElemOk, InsertHead, InsertLast, InsertAfter, InsertBefore;
    match w
    case Only => WFOnly(id, s, n, e);
    case Head => WFInsertHead(k, id, s, n, e);
    case Last => WFInsertLast(k, id, s, n, e);
    case Behind(rel) => WFInsertAfter(k, rel, id, s, n, e);
    case InFront(rel) => WFInsertBefore(k, rel, id, s, n, e);
  }

  lemma WFOnly(id: nat, s: string, n: Content, e: string)
    ensures WF(InsertOnly(id, s, n, e)) <==> ElemOk(s, n, e)
  {
    hide IsStart, Closes;
  }

  lemma {:induction false} WFSubtree(c: Content, p: nat)
    requires WF(c) && p in Ids(c)
    ensures WF(Subtree(c, p)) && Subtree(c, p).Elem?
  {
    hide IsMark, IsStart, Closes;
    match c
    case Mark(_, _, r) => WFSubtree(r, p);
    case Elem(_, i, _, k, _, r) =>
      if i != p {
        if p in Ids(k) { WFSubtree(k, p); } else { WFSubtree(r, p); }
      }
  }

  /** Giving content to an element keeps the document well-formed exactly when the content is, and,
      where a tag must be split, the tag can be. */
  lemma WFFilled(c: Content, p: nat, k: Content)
    requires WF(c) && p in Ids(c)
    ensures Subtree(c, p).Elem?
    ensures var n := Subtree(c, p);
            (WF(With(c, p, Opened(n), k, Closed(n))) <==> WF(k) && (n.etag == "" ==> CanSplit(n.stag)))
  {
    hide IsMark, IsStart, Closes, Match, CanSplit;
    WFSubtree(c, p);
    var n := Subtree(c, p);
    WFWith(c, p, Opened(n), k, Closed(n));
    if n.etag == "" {
      SplitOk(n.stag);
      assert Opened(n) == SplitTag(n.stag) && Closed(n) == "</" + WordOf(n.stag) + ">" != "";
    } else {
      OpenedSame(n);
    }
  }

  /** `x_AddElem` keeps a well-formed document well-formed exactly when the new element is an element
      and, where the tag of its parent must be split, that tag can be. */
  lemma AddedWF(c: Content, p: nat, w: Where, id: nat, s: string, n: Content, e: string)
    requires CanAdd(c, p, w, id, s, n, e) && WF(c)
    ensures WF(Added(c, p, w, id, s, n, e)) <==>
            ElemOk(s, n, e) && (p != 0 && Subtree(c, p).Elem? && Subtree(c, p).etag == "" ==> CanSplit(Subtree(c, p).stag))
  {
    hide IsMark, IsStart, Closes, Match, CanSplit, Insert, CanInsert, Opened, Closed, ElemOk;
    NoZero(c);
    if p != 0 {
      WFSubtree(c, p);
      WFFilled(c, p, Insert(Below(c, p), w, id, s, n, e));
    }
    WFInsert(Below(c, p), w, id, s, n, e);
  }

  /** Wherever the cursor is, `x_AddElem` can add its element. */
  lemma AddPlaced(doc: string, elem: Elems, free: nat, c: Content, p: nat, rel: nat, insert: bool, id: nat, name: string, value: string, f: NodeFlags)
    requires Represents(doc, elem, free, c) && IsParent(c, p) && (rel != 0 ==> rel in Top(Below(c, p))) && id != 0 && id !in Ids(c)
    ensures CanAdd(c, p, WhereFor(c, p, rel, insert), id, StagOf(name, value, f), KidsOf(value, f), EtagOf(name, value))
  {
    hide StagOf, KidsOf, EtagOf, Offsets, Linked, Shape, ShapedTags;
    NewShape(name, value, f);
    RawStartIs(doc, elem, free, c, p, rel, insert);
  }

  lemma DataRender(value: string, f: NodeFlags)
    ensures Render(DataOf(value, f)) == if f.cdata then Render(Sections("", value)) else Escaping.Escape(value, f.quotes, f.refs)
  {
    hide Sections, Escaping.Escape;
  }
}
