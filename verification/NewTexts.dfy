/** What the calls make of the text: where a new element is written and the line ends around it, what an element with
    new data looks like, and what goes with an element. */
module NewTexts {
  import opened Chars
  import opened Content
  import opened Index
  import opened Edit
  import opened Effect
  import opened Cursor
  import opened Represent
  import opened Position
  import opened AddElem
  import opened NewElem
  import opened SetData
  import opened RemoveElem
  import Grammar
  import Runs

  /** From the place `from` on to the next tag or the end of the text, when only white space lies between. */
  function ToTag(doc: string, from: nat): (i: nat)
    requires from <= |doc|
    ensures from <= i <= |doc|
  {
    var i := Grammar.FirstChar(doc, from, Grammar.NotWhite());
    if i == |doc| || doc[i] == '<' then i else from
  }

  /** In front of the sibling or behind it; without one, in front of the content of the parent or behind it. */
  function PlaceIn(c: Content, p: nat, rel: nat, insert: bool): nat {
    if rel == 0 then |Ahead(c, p)| + (if insert then 0 else Len(Below(c, p)))
    else
      var n := Subtree(c, rel);
      |Before(c, rel)| + (if insert || !n.Elem? then 0 else |n.stag| + Len(n.kids) + |n.etag|)
  }

  /** `t` is the text of the document with the element `x` in it.  An empty-element tag becomes a start tag and an end tag
      of its name; the first element between two tags is written on a line of its own; and everywhere else a line end
      follows the element. */
  predicate TextWith(c: Content, p: nat, rel: nat, insert: bool, x: string, t: string) {
    var n := Subtree(c, p);
    if p != 0 && n.Elem? && n.etag == "" then
      |n.stag| >= 2 && t == Before(c, p) + n.stag[..|n.stag| - 2] + ">\r\n" + x + "\r\n</" + WordOf(n.stag) + ">" + After(c, p)
    else if p != 0 && Below(c, p) == End("") then
      t == Ahead(c, p) + "\r\n" + x + "\r\n" + Beyond(c, p)
    else
      var doc, from := Render(c), PlaceIn(c, p, rel, insert);
      from <= |doc| && t == doc[..ToTag(doc, from)] + x + "\r\n" + doc[ToTag(doc, from)..]
  }

  lemma ToTagIs(doc: string, from: nat)
    requires from <= |doc|
    ensures ToTag(doc, from) == TagAfter(doc, from)
  {
    var m, q := SkipWhite(doc, from), Grammar.FirstChar(doc, from, Grammar.NotWhite());
    forall k | from <= k < m ensures White(doc[k]) { assert doc[from..m][k - from] == doc[k]; }
  }

  lemma SplitText(doc: string, b: string, g: string, a: string, y: string)
    requires doc == b + g + a && |g| >= 2 && g[|g| - 1] == '>'
    ensures SpliceAt(doc, |b| + |g| - 2, 1, y) == b + g[..|g| - 2] + y + ">" + a
  {
    var n := |b| + |g| - 2;
    assert doc[..n] == b + g[..|g| - 2];
    assert doc[n + 1..] == ">" + a;
  }

  lemma SlashText(doc: string, b: string, g: string, a: string, x: string, name: string)
    requires doc == b + g + a && |g| >= 2 && g[|g| - 1] == '>'
    ensures SpliceAt(doc, |b| + |g| - 2, 1, ((">" + EOL) + (x + EOL)) + "</" + name)
            == b + g[..|g| - 2] + ">\r\n" + x + "\r\n</" + name + ">" + a
  {
    var y := ((">" + EOL) + (x + EOL)) + "</" + name;
    SplitText(doc, b, g, a, y);
    Joined(b + g[..|g| - 2], x, name, ">" + a);
    assert b + g[..|g| - 2] + y + ">" + a == b + g[..|g| - 2] + y + (">" + a);
    assert b + g[..|g| - 2] + ">\r\n" + x + "\r\n</" + name + ">" + a == b + g[..|g| - 2] + ">\r\n" + x + "\r\n</" + name + (">" + a);
  }

  lemma Joined(b: string, x: string, name: string, a: string)
    ensures b + (((">" + EOL) + (x + EOL)) + "</" + name) + a == b + ">\r\n" + x + "\r\n</" + name + a
  {
    assert ">" + EOL == ">\r\n" && EOL + "</" == "\r\n</";
    assert ((">" + EOL) + (x + EOL)) + "</" + name == ">\r\n" + x + (EOL + "</") + name;
  }

  lemma OnlyLine(a: string, b: string, x: string, doc: string)
    requires doc == a + b
    ensures SpliceAt(doc, |a|, 0, EOL + (x + EOL)) == a + "\r\n" + x + "\r\n" + b
  {
    assert doc[..|a|] == a && doc[|a|..] == b;
    assert a + (EOL + (x + EOL)) + b == a + "\r\n" + x + "\r\n" + b;
  }

  lemma Between(doc: string, i: nat, x: string)
    requires i <= |doc|
    ensures SpliceAt(doc, i, 0, x + EOL) == doc[..i] + x + "\r\n" + doc[i..]
  {
    assert doc[..i] + (x + EOL) + doc[i..] == doc[..i] + x + "\r\n" + doc[i..];
  }

  /** The place that the code starts from is the one in the text. */
  lemma PlaceIs(doc: string, elem: Elems, free: nat, c: Content, p: nat, rel: nat, insert: bool)
    requires Represents(doc, elem, free, c) && IsParent(c, p) && (rel != 0 ==> rel in Top(Below(c, p)))
    requires !(p != 0 && Below(c, p) == End(""))
    ensures PlaceIn(c, p, rel, insert) == RawStart(c, p, WhereFor(c, p, rel, insert))
  {
    hide Offsets, Linked, Shape, Before, Below, Ahead;
    if rel != 0 { ChildText(doc, c, p, rel); }
  }

  /** The text after `AddElem`. */
  lemma TextOfAdd(doc: string, elem: Elems, free: nat, c: Content, p: nat, rel: nat, insert: bool, id: nat, s: string, n: Content, e: string)
    requires Represents(doc, elem, free, c) && IsParent(c, p) && (rel != 0 ==> rel in Top(Below(c, p)))
    requires CanAdd(c, p, WhereFor(c, p, rel, insert), id, s, n, e)
    ensures TextWith(c, p, rel, insert, s + Render(n) + e, Render(Added(c, p, WhereFor(c, p, rel, insert), id, s, n, e)))
  {
    hide Offsets, Linked, Shape, ShapedTags, Render, Added, Before, After, RawStart, InsertOffset, Opening, SpliceAt, WordOf, Subtree, Ahead, Beyond, PlaceIn, ToTag, TagAfter, Distinct;
    var w, x := WhereFor(c, p, rel, insert), s + Render(n) + e;
    AddedText(c, p, w, id, s, n, e);
    if w.Only? {
      TextOfOnly(doc, elem, free, c, p, x);
    } else {
      NotOnlyEtag(c, p);
      StartIs(doc, elem, free, c, p, w);
      RawStartIs(doc, elem, free, c, p, rel, insert);
      PlaceIs(doc, elem, free, c, p, rel, insert);
      OpeningIs(c, p);
      var from := PlaceIn(c, p, rel, insert);
      ToTagIs(doc, from);
      Between(doc, ToTag(doc, from), x);
    }
  }

  lemma TextOfOnly(doc: string, elem: Elems, free: nat, c: Content, p: nat, x: string)
    requires Represents(doc, elem, free, c) && p != 0 && p in Ids(c) && Below(c, p) == End("")
    ensures TextWith(c, p, 0, true, x, NewText(c, p, Only, x)) && TextWith(c, p, 0, false, x, NewText(c, p, Only, x))
  {
    hide Offsets, Linked, Shape, Before, After, SpliceAt, WordOf, Subtree, Ahead, Beyond, PlaceIn, ToTag;
    var n := Subtree(c, p);
    SubtreeShape(c, p);
    assert Render(End("")) == "" by { RenderNothing(); }
    if n.etag == "" {
      ElementAt(doc, elem, free, c, p);
      assert doc == Before(c, p) + n.stag + After(c, p);
      SlashText(doc, Before(c, p), n.stag, After(c, p), x, WordOf(n.stag));
    } else {
      ListText(c, p);
      assert doc == Ahead(c, p) + Beyond(c, p);
      OnlyLine(Ahead(c, p), Beyond(c, p), x, doc);
    }
  }

  /** The same for a call that is told where the cursor stands. */
  lemma TextIs(doc: string, elem: Elems, free: nat, s: Runs.State, name: string, value: string, f: NodeFlags)
    requires Represents(doc, elem, free, s.tree) && Runs.StateOk(s) && !s.strayed && !(f.child && s.main == 0)
    ensures var p, rel := if f.child then s.main else s.parent, if f.child then s.child else s.main;
            TextWith(s.tree, p, rel, f.insert, StagOf(name, value, f) + Render(KidsOf(value, f)) + EtagOf(name, value),
                     Render(Runs.Apply(s, Runs.Add(name, value, f)).tree))
  {
    hide Represents, Shape, Distinct, StagOf, KidsOf, EtagOf, Added, CursorOk, WhereFor, TextWith, Render;
    var p, rel := if f.child then s.main else s.parent, if f.child then s.child else s.main;
    Runs.CursorRel(s);
    CursorParent(s.tree, s.parent, s.main, s.child);
    Runs.AddFits(s.tree, p, rel, f.insert, s.free, name, value, f);
    TextOfAdd(doc, elem, free, s.tree, p, rel, f.insert, s.free, StagOf(name, value, f), KidsOf(value, f), EtagOf(name, value));
  }

  // ---- SetData ----

  /** `s` is the text of the document with `x` between the tags of an element. */
  predicate TextFilled(c: Content, t: nat, x: string, s: string) {
    var n := Subtree(c, t);
    n.Elem? && |n.stag| >= 2 &&
    s == if n.etag == "" then Before(c, t) + n.stag[..|n.stag| - 2] + ">" + x + "</" + WordOf(n.stag) + ">" + After(c, t)
         else Before(c, t) + n.stag + x + n.etag + After(c, t)
  }

  lemma TextOfData(s: Runs.State, below: bool, data: string, g: NodeFlags)
    requires Runs.StateOk(s) && !s.strayed && Runs.Target(s, below) != 0 && Ids(Below(s.tree, Runs.Target(s, below))) == {}
    ensures TextFilled(s.tree, Runs.Target(s, below), Render(DataOf(data, g)), Render(Runs.Apply(s, Runs.SetText(below, data, g)).tree))
  {
    hide Shape, Distinct, DataOf, Render, CursorOk, Before, After, WordOf;
    var t := Runs.Target(s, below);
    Runs.TargetIn(s, below);
    SubtreeIds(s.tree, t);
    SubtreeShape(s.tree, t);
    var n := Subtree(s.tree, t);
    RenderWith(s.tree, t, Opened(n), DataOf(data, g), Closed(n));
    Around(Before(s.tree, t), Opened(n), Render(DataOf(data, g)), Closed(n), After(s.tree, t));
    if n.etag == "" {
      Around(Before(s.tree, t), n.stag[..|n.stag| - 2] + ">", Render(DataOf(data, g)), "</" + WordOf(n.stag) + ">", After(s.tree, t));
      SplitPieces(Before(s.tree, t), n.stag[..|n.stag| - 2], Render(DataOf(data, g)), WordOf(n.stag), After(s.tree, t));
    }
  }

  lemma Around(b: string, s: string, k: string, e: string, a: string)
    ensures b + (s + k + e) + a == b + s + k + e + a
  {
  }

  lemma SplitPieces(b: string, g: string, x: string, name: string, a: string)
    ensures b + (g + ">") + x + ("</" + name + ">") + a == b + g + ">" + x + "</" + name + ">" + a
  {
  }

  // ---- RemoveElem ----

  /** `s` is the text of the document without an element and without the white space behind it, if that ends at a tag. */
  predicate TextWithout(c: Content, t: nat, s: string) {
    var n := Subtree(c, t);
    n.Elem? &&
    var doc, i := Render(c), |Before(c, t)|;
    var j := i + |n.stag| + Len(n.kids) + |n.etag|;
    j <= |doc| && s == doc[..i] + doc[ToTag(doc, j)..]
  }

  lemma TextOfRemove(doc: string, elem: Elems, free: nat, c: Content, p: nat, t: nat)
    requires Represents(doc, elem, free, c) && CanRemove(c, p, t)
    ensures TextWithout(c, t, Render(Removed(c, p, t)))
  {
    hide Shape, Distinct, Linked, Offsets, Render, Removed, Before, Below, RemovedLen, Ahead, ToTag, TagAfter;
    RemovedText(c, p, t);
    RemovedSpan(doc, elem, free, c, p, t);
    ElementAt(doc, elem, free, c, t);
    ToTagIs(doc, elem[t].StartAfter());
    var i, j := |Before(c, t)|, ToTag(doc, elem[t].StartAfter());
    assert doc[..i] + "" + doc[j..] == doc[..i] + doc[j..];
  }
}
