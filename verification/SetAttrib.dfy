/** `x_SetAttrib` as an edit of the content, and why the index stays in step. */
module SetAttrib {
  import opened Chars
  import opened Token
  import opened Content
  import opened Index
  import opened Edit
  import opened Links
  import opened Effect
  import opened Represent
  import opened Position
  import opened AddElem
  import opened Cursor
  import opened Attributes
  import opened Tags
  import Escaping

  /** Element `p` with another start tag. */
  function Restarted(c: Content, p: nat, s: string): Content {
    var n := Subtree(c, p);
    if n.Elem? then With(c, p, s, n.kids, n.etag) else c
  }

  /** Where `x_SetAttrib` writes: the offset in the document, how many characters it replaces, and the text. */
  datatype Write = Write(at: int, replace: nat, insert: string)

  /** A value is replaced together with its quotes; a new attribute is put where the search has ended. */
  function WriteFor(f: Found, name: string, value: string): Write {
    match f
    case Attrib(l, r, quoted) => Write(l - (if quoted then 1 else 0), (if l <= r then r - l else 0) + (if quoted then 2 else 0), "\"" + value + "\"")
    case NoAttrib(n) => Write(n, 0, " " + name + "=" + ("\"" + value + "\""))
  }

  /** The write for attribute `name` of element `p`; `value` has been escaped. */
  function WriteIn(c: Content, p: nat, name: string, value: string): Write {
    var doc, n := Render(c), |Before(c, p)| + 1;
    if n <= |doc| then WriteFor(FindFrom(doc, n, name, Nothing, false, false), name, value) else Write(0, 0, "")
  }

  /** The write lies inside the start tag. */
  predicate Within(c: Content, p: nat, w: Write) {
    var n, b := Subtree(c, p), |Before(c, p)|;
    n.Elem? && b < w.at && w.at + w.replace < b + |n.stag|
  }

  /** The text written is the text that stands there. */
  predicate Same(doc: string, w: Write) {
    0 <= w.at && w.at + w.replace <= |doc| && doc[w.at..w.at + w.replace] == w.insert
  }

  /** The call writes outside the start tag that it is to change. */
  predicate Strays(c: Content, p: nat, w: Write) {
    !Within(c, p, w) && !Same(Render(c), w)
  }

  function NewTag(c: Content, p: nat, w: Write): string {
    var n := Subtree(c, p);
    if Within(c, p, w) then Splice(n.stag, w.at - |Before(c, p)|, w.replace, w.insert) else if n.Elem? then n.stag else ""
  }

  /** The content after a call that does not stray. */
  function Edited(c: Content, p: nat, w: Write): Content {
    if Within(c, p, w) then Restarted(c, p, NewTag(c, p, w)) else c
  }

  /** The tokenizer takes `s` for one start tag that the end tag `e` closes. */
  predicate TagFits(s: string, e: string) {
    if e == "" then IsStart(s, true) else IsStart(s, false) && Closes(e, s)
  }

  /** The condition under which setting an attribute changes nothing but the start tag and leaves a start
      tag of the same element: it can be checked before the call. */
  predicate KeepsTag(c: Content, p: nat, w: Write) {
    if Within(c, p, w) then TagFits(NewTag(c, p, w), Subtree(c, p).etag) else Same(Render(c), w)
  }

  /** What `x_Adjust` relies on. */
  predicate CanAdjust(b: Elems, t: Content, p: nat) {
    Chain(b, t, 0) && InRange(t, |b|) && Distinct(t) && p in Ids(t) && 0 < |b| && b[0].startTagLen == 0 && p < |b|
  }

  /** The records after the call: `x_Adjust` stops at once at an element whose start tag has no length. */
  function AfterSet(a: Elems, c: Content, p: nat, d: int): Elems {
    var b := Stretched(a, p, d);
    if CanAdjust(b, c, p) && b[p].startTagLen != 0 then Adjusted(b, c, p, d, false) else b
  }

  /** The element has a start tag that is a list of attributes. */
  predicate HasTag(c: Content, p: nat, t: Tag) {
    p in Ids(c) && Subtree(c, p).Elem? && Subtree(c, p).stag == RenderTag(t) && TagOk(t)
  }

  /** The records when the start tag of `p` and `p` itself have their new lengths. */
  function Stretched(a: Elems, p: nat, d: int): (b: Elems)
    ensures |b| == |a|
  {
    if p < |a| then a[p := a[p].(startTagLen := a[p].startTagLen + d, nLength := a[p].nLength + d)] else a
  }

  lemma RestartedSlots(c: Content, p: nat, s: string)
    requires Distinct(c) && p in Ids(c)
    ensures Ids(Restarted(c, p, s)) == Ids(c) && Distinct(Restarted(c, p, s)) && Subtree(c, p).Elem?
  {
    SubtreeIds(c, p);
    var n := Subtree(c, p);
    DistinctKids(c, p);
    WithSlots(c, p, s, n.kids, n.etag);
    assert (Ids(c) - Ids(n.kids)) + Ids(n.kids) == Ids(c);
  }

  lemma EditedSlots(c: Content, p: nat, w: Write)
    requires Distinct(c) && p in Ids(c)
    ensures Ids(Edited(c, p, w)) == Ids(c)
  {
    hide Distinct, Restarted, NewTag, Within;
    RestartedSlots(c, p, NewTag(c, p, w));
  }

  lemma RestartedShape(c: Content, p: nat, s: string)
    requires Shape(c) && p in Ids(c) && 3 <= |s| && s[0] == '<' && s[|s| - 1] == '>'
    ensures Shape(Restarted(c, p, s))
  {
    SubtreeShape(c, p);
    var n := Subtree(c, p);
    ShapeWith(c, p, s, n.kids, n.etag);
  }

  lemma RestartedLinked(a: Elems, c: Content, p: nat, s: string, d: int)
    requires Linked(a, c) && Distinct(c) && p in Ids(c) && Subtree(c, p).Elem? && p < |a| && 0 < a[p].startTagLen + d
    ensures Linked(Stretched(a, p, d), Restarted(c, p, s))
  {
    hide Deep, ListOk, Distinct;
    var n, b := Subtree(c, p), Stretched(a, p, d);
    assert Distinct(c);
    DeepAt(a, c, p);
    KidsApart(c, p);
    TopSeqFacts(c);
    TopSeqFacts(n.kids);
    DeepFrame(a, b, n.kids);
    ListFrame(a, b, p, TopSeq(n.kids));
    DeepWith(a, b, c, p, s, n.kids, n.etag);
    WithTop(c, p, s, n.kids, n.etag);
    ListFrame(a, b, 0, TopSeq(c));
  }

  lemma RestartedStale(doc: string, a: Elems, free: nat, c: Content, p: nat, s: string, d: int)
    requires Represents(doc, a, free, c) && p in Ids(c) && d == |s| - |Subtree(c, p).stag|
    ensures Subtree(c, p).Elem? && p < |a| && p != 0
    ensures Stale(Stretched(a, p, d), Restarted(c, p, s), p, d, 0, 0)
    ensures Len(Restarted(c, p, s)) == Len(c) + d && a[p].startTagLen == |Subtree(c, p).stag|
  {
    hide Offsets, Shape, Stale, Linked;
    var n, b := Subtree(c, p), Stretched(a, p, d);
    ElementAt(doc, a, free, c, p);
    KidsApart(c, p);
    OffsetsMove(a, b, n.kids, a[p].nStart + |n.stag|, LevelOf(c, p, 0) + 1, 0);
    LenWith(c, p, s, n.kids, n.etag);
    StaleTarget(a, b, c, p, s, n.kids, n.etag, d, 0, 0);
  }

  /** After `x_Adjust` the index represents the document with the new start tag in it. */
  lemma RestartedRepresents(doc: string, a: Elems, free: nat, c: Content, p: nat, s: string, d: int)
    requires Represents(doc, a, free, c) && p in Ids(c) && 3 <= |s| && s[0] == '<' && s[|s| - 1] == '>' && d == |s| - |Subtree(c, p).stag|
    ensures var c', b := Restarted(c, p, s), Stretched(a, p, d);
            && Chain(b, c', 0) && InRange(c', |b|) && Distinct(c') && p in Ids(c') && 0 < |b| && b[0].startTagLen == 0 && p < |b|
            && Represents(Render(c'), Adjusted(b, c', p, d, false), free, c')
  {
    hide Offsets, Shape, Stale, Linked, Distinct, Adjusted, Chain, Restarted, InRange;
    RestartedSlots(c, p, s);
    RestartedShape(c, p, s);
    RestartedStale(doc, a, free, c, p, s, d);
    RestartedLinked(a, c, p, s, d);
    AdjustDone(Stretched(a, p, d), Restarted(c, p, s), p, d);
  }

  // ---- The text ----

  lemma EditedText(c: Content, p: nat, w: Write)
    requires Shape(c) && p in Ids(c) && Within(c, p, w)
    ensures w.at + w.replace <= |Render(c)| && Render(Edited(c, p, w)) == SpliceAt(Render(c), w.at, w.replace, w.insert)
    ensures var s := NewTag(c, p, w); |s| >= |w.insert| + 2 && s[0] == '<' && s[|s| - 1] == '>' && |s| - |Subtree(c, p).stag| == |w.insert| - w.replace
  {
    hide Render, Splice, Before, After, Shape;
    SubtreeShape(c, p);
    var n := Subtree(c, p);
    var b, s := |Before(c, p)|, NewTag(c, p, w);
    WithSelf(c, p);
    RenderWith(c, p, n.stag, n.kids, n.etag);
    RenderWith(c, p, s, n.kids, n.etag);
    var q := Render(n.kids) + n.etag + After(c, p);
    SpliceInside(Before(c, p), n.stag, q, w.at - b, w.replace, w.insert);
    Joined(Before(c, p), n.stag, Render(n.kids), n.etag, After(c, p));
    Joined(Before(c, p), s, Render(n.kids), n.etag, After(c, p));
    SpliceEnds(n.stag, w.at - b, w.replace, w.insert);
  }

  lemma SpliceEnds(s: string, n: nat, r: nat, x: string)
    requires 0 < n && n + r < |s|
    ensures var t := Splice(s, n, r, x); |t| == |s| - r + |x| && t[0] == s[0] && t[|t| - 1] == s[|s| - 1]
  {
  }

  lemma Joined(b: string, s: string, k: string, e: string, a: string)
    ensures b + (s + k + e) + a == b + s + (k + e + a)
  {
  }

  /** Where the start tag is in the document. */
  lemma TagThere(doc: string, elem: Elems, free: nat, c: Content, p: nat)
    requires Represents(doc, elem, free, c) && p in Ids(c)
    ensures p < |elem| && p != 0 && Subtree(c, p).Elem? && elem[p].nStart == |Before(c, p)| && At(doc, |Before(c, p)|, Subtree(c, p).stag)
    ensures |Before(c, p)| + 1 <= |doc| && doc == Render(c) && Shape(c)
  {
    hide Offsets, Linked;
    ElementAt(doc, elem, free, c, p);
    var n := Subtree(c, p);
    Joined(Before(c, p), n.stag, Render(n.kids), n.etag, After(c, p));
    MidAt(Before(c, p), n.stag, Render(n.kids) + n.etag + After(c, p));
  }

  // ---- Well-formedness and the cursor ----

  /** An element with another start tag keeps a well-formed document well-formed exactly when that tag fits. */
  lemma RestartedWF(c: Content, p: nat, s: string)
    requires WF(c) && p in Ids(c)
    ensures WF(Restarted(c, p, s)) <==> TagFits(s, Subtree(c, p).etag)
    ensures TagFits(Subtree(c, p).stag, Subtree(c, p).etag)
  {
    hide IsStart, IsMark, Closes;
    var n := Subtree(c, p);
    WFWith(c, p, s, n.kids, n.etag);
  }

  /** Setting an attribute does not stray and keeps a well-formed document well-formed exactly when it keeps the tag. */
  lemma EditedWF(c: Content, p: nat, w: Write)
    requires WF(c) && p in Ids(c)
    ensures !Strays(c, p, w) && WF(Edited(c, p, w)) <==> KeepsTag(c, p, w)
  {
    hide WF, TagFits, Restarted, Same, NewTag;
    RestartedWF(c, p, NewTag(c, p, w));
  }

  lemma RestartedTops(c: Content, p: nat, s: string, q: nat)
    requires Distinct(c) && p in Ids(c) && IsParent(c, q)
    ensures IsParent(Restarted(c, p, s), q) && Top(Below(Restarted(c, p, s), q)) == Top(Below(c, q))
  {
    hide Distinct;
    assert Distinct(c);
    NoZero(c);
    RestartedSlots(c, p, s);
    DistinctKids(c, p);
    var n := Subtree(c, p);
    if q == p {
      WithBelow(c, p, s, n.kids, n.etag);
    } else if q == 0 {
      WithTop(c, p, s, n.kids, n.etag);
      SameTop(Restarted(c, p, s), c);
    } else if q !in Ids(n.kids) {
      WithOther(c, p, q, s, n.kids, n.etag);
      SameTop(Below(Restarted(c, p, s), q), Below(c, q));
    } else {
      WithInside(c, p, q, s);
    }
  }

  /** What is below an element does not change with its start tag. */
  lemma {:induction false} WithInside(c: Content, p: nat, q: nat, s: string)
    requires Distinct(c) && p in Ids(c) && Subtree(c, p).Elem? && q in Ids(Subtree(c, p).kids)
    ensures var n := Subtree(c, p); Subtree(With(c, p, s, n.kids, n.etag), q) == Subtree(n.kids, q) == Subtree(c, q) && q in Ids(c)
  {
    SubtreeIds(c, p);
    KidsApart(c, p);
    var n := Subtree(c, p);
    match c
    case Mark(_, _, r) => WithInside(r, p, q, s);
    case Elem(_, i, _, k, _, r) =>
      if i != p {
        if p in Ids(k) {
          SubtreeIds(k, p);
          WithSlots(k, p, s, n.kids, n.etag);
          WithInside(k, p, q, s);
        } else {
          SubtreeIds(r, p);
          WithInside(r, p, q, s);
        }
      }
  }

  lemma CursorRestarted(c: Content, p: nat, s: string, parent: nat, main: nat, child: nat)
    requires Distinct(c) && p in Ids(c) && CursorOk(c, parent, main, child)
    ensures CursorOk(Restarted(c, p, s), parent, main, child)
  {
    hide Restarted;
    CursorParent(c, parent, main, child);
    RestartedTops(c, p, s, parent);
    RestartedTops(c, p, s, main);
  }

  lemma CursorEdited(c: Content, p: nat, w: Write, parent: nat, main: nat, child: nat)
    requires Distinct(c) && p in Ids(c) && CursorOk(c, parent, main, child)
    ensures CursorOk(Edited(c, p, w), parent, main, child)
  {
    hide Restarted, Distinct, CursorOk, Ids;
    if Within(c, p, w) { CursorRestarted(c, p, NewTag(c, p, w), parent, main, child); }
  }

  lemma StretchedIs(a: Elems, p: nat, d: int)
    requires p < |a|
    ensures var m := a[p := a[p].(startTagLen := a[p].startTagLen + d)];
            m[p := m[p].(nLength := m[p].nLength + d)] == Stretched(a, p, d)
  {
  }

  /** The write lies behind the `<` of the tag. */
  lemma {:induction false} FoundBehind(s: string, n: nat, name: string, seen: Seen, equal: bool, quoted: bool, lo: nat)
    requires lo <= n <= |s| && (seen.Wanted? ==> lo < seen.l <= seen.r <= |s|) && (!seen.Nothing? ==> lo < n) && (equal ==> !quoted)
    ensures match FindFrom(s, n, name, seen, equal, quoted)
            case Attrib(l, r, q) => lo <= l - (if q then 1 else 0) && l <= r <= |s|
            case NoAttrib(m) => lo <= m <= |s|
    decreases |s| - n
  {
    var m := SkipWhite(s, n);
    if m < |s| {
      var w := WordAt(s, m, equal);
      if equal || w.quoted {
        if !seen.Wanted? { FoundBehind(s, w.next, name, seen, false, w.quoted, lo); }
      } else if s[m] == '=' {
        FoundBehind(s, w.next, name, seen, true, false, lo);
      } else if s[m] != '>' && s[m] != '/' && s[m] != '?' && !seen.Wanted? {
        FoundBehind(s, w.next, name, if seen.TagName? && Match(s[w.l..w.r], name) then Wanted(w.l, w.r) else TagName, false, false, lo);
      }
    }
  }

  /** What `x_SetAttrib` writes, and where. */
  lemma WriteFacts(doc: string, elem: Elems, free: nat, c: Content, p: nat, name: string, value: string)
    requires Represents(doc, elem, free, c) && p in Ids(c)
    ensures p < |elem| && 0 <= elem[p].nStart < |doc| && elem[p].nStart == |Before(c, p)|
    ensures WriteIn(c, p, name, value) == WriteFor(FindFrom(doc, elem[p].nStart + 1, name, Nothing, false, false), name, value)
    ensures var w := WriteIn(c, p, name, value); |Before(c, p)| < w.at <= |doc| && 2 <= |w.insert|
  {
    hide Represents, FindFrom, Before, Render;
    TagThere(doc, elem, free, c, p);
    FoundBehind(doc, |Before(c, p)| + 1, name, Nothing, false, false, |Before(c, p)| + 1);
  }

  /** A shift by nothing changes nothing. */
  lemma NoShift(elem: Elems, c: Content, p: nat)
    requires InRange(c, |elem|) && Distinct(c) && p in Ids(c)
    ensures AfterSet(elem, c, p, 0) == elem
  {
    hide Adjusted, InRange, Chain, Around, Following;
    assert Stretched(elem, p, 0) == elem;
    NoZero(c);
    if CanAdjust(elem, c, p) {
      forall i | 0 <= i < |elem| ensures Adjusted(elem, c, p, 0, false)[i] == elem[i] {
        AdjustedAt(elem, c, p, 0, false, i);
      }
    }
  }

  /** When the text written is the text that stands there, nothing changes. */
  lemma SameWrite(doc: string, elem: Elems, free: nat, c: Content, p: nat, w: Write)
    requires Represents(doc, elem, free, c) && p in Ids(c) && Same(doc, w)
    ensures SpliceAt(doc, w.at, w.replace, w.insert) == doc && |w.insert| == w.replace && AfterSet(elem, c, p, 0) == elem
  {
    hide Represents, AfterSet, Linked, Shape, Distinct, InRange, Chain;
    RepresentsParts(doc, elem, free, c);
    LinkedInRange(elem, c);
    NoShift(elem, c, p);
  }

  /** The marks after `x_SetAttrib`. */
  lemma SetMarks(a: Elems, free: nat, c: Content, p: nat, w: Write, d: int)
    requires Marked(a, free, c) && free <= |a| && p in Ids(c) && Distinct(c)
    ensures Marked(AfterSet(a, Edited(c, p, w), p, d), free, Edited(c, p, w))
  {
    hide Chain, InRange, Distinct, Adjusted, Restarted, NewTag;
    var b, t := Stretched(a, p, d), Edited(c, p, w);
    RestartedSlots(c, p, NewTag(c, p, w));
    if CanAdjust(b, t, p) && b[p].startTagLen != 0 { AdjustedMarks(b, t, p, d, false); }
    MarksKept(a, AfterSet(a, t, p, d), free, free, c, t, |a|);
  }

  lemma StretchedChain(a: Elems, b: Elems, c: Content, q: nat, p: nat, d: int)
    requires Chain(a, c, q) && b == Stretched(a, p, d) && p < |a| && b[p].startTagLen != 0
    ensures Chain(b, c, q)
  {
  }

  /** Everything `x_SetAttrib` relies on, and what it achieves when it does not stray. */
  lemma AttribReady(doc: string, elem: Elems, free: nat, c: Content, p: nat, w: Write)
    requires Represents(doc, elem, free, c) && p in Ids(c) && |Before(c, p)| < w.at && 2 <= |w.insert|
    ensures var d, t := |w.insert| - w.replace, Edited(c, p, w);
            && p < |elem| && (Stretched(elem, p, d)[p].startTagLen != 0 ==> CanAdjust(Stretched(elem, p, d), t, p))
            && (!Strays(c, p, w) ==> Represents(SpliceAt(doc, w.at, w.replace, w.insert), AfterSet(elem, t, p, d), free, t))
  {
    hide Represents, Before, Render, Restarted, SpliceAt, Same, Chain, InRange, Distinct, Ids, Adjusted, Linked, Shape, NewTag, Stretched;
    var d, t := |w.insert| - w.replace, Edited(c, p, w);
    RepresentsParts(doc, elem, free, c);
    ElementAt(doc, elem, free, c, p);
    if Within(c, p, w) {
      EditedText(c, p, w);
      AttribDoneBy(doc, elem, free, c, p, NewTag(c, p, w), d);
      assert Stretched(elem, p, d)[p].startTagLen == |NewTag(c, p, w)| by { StretchedAt(elem, p, d); }
    } else {
      LinkedInRange(elem, c);
      StretchedAt(elem, p, d);
      if Stretched(elem, p, d)[p].startTagLen != 0 { StretchedChain(elem, Stretched(elem, p, d), c, 0, p, d); }
      if Same(doc, w) { SameWrite(doc, elem, free, c, p, w); }
    }
  }

  lemma StretchedAt(a: Elems, p: nat, d: int)
    requires 0 < p < |a|
    ensures Stretched(a, p, d)[p].startTagLen == a[p].startTagLen + d && Stretched(a, p, d)[0] == a[0]
  {
  }

  /** The index after `x_Adjust`. */
  ghost predicate AttribDone(a: Elems, free: nat, c: Content, p: nat, s: string, d: int) {
    var c', b := Restarted(c, p, s), Stretched(a, p, d);
    && Chain(b, c', 0) && InRange(c', |b|) && Distinct(c') && p in Ids(c') && 0 < |b| && b[0].startTagLen == 0 && p < |b|
    && Represents(Render(c'), Adjusted(b, c', p, d, false), free, c')
  }

  lemma AttribDoneBy(doc: string, a: Elems, free: nat, c: Content, p: nat, s: string, d: int)
    requires Represents(doc, a, free, c) && p in Ids(c) && 3 <= |s| && s[0] == '<' && s[|s| - 1] == '>' && d == |s| - |Subtree(c, p).stag|
    ensures AttribDone(a, free, c, p, s, d)
  {
    hide Represents, Chain, InRange, Distinct, Ids, Adjusted, Restarted;
    RestartedRepresents(doc, a, free, c, p, s, d);
  }

  // ---- When the call strays ----

  /** Two start tags at one place are the same. */
  lemma TwoTags(doc: string, b: nat, s: string, t: string)
    requires At(doc, b, s) && At(doc, b, t) && IsNode(s, ELEMENT) && IsNode(t, ELEMENT)
    ensures s == t
    decreases |s|
  {
    hide NodeAt;
    if |s| > |t| {
      TwoTags(doc, b, t, s);
    } else {
      assert s == doc[b..b + |s|] == t[..|s|];
      NodeProgress(s, 1);
      NodeLocal(s, t, 1, 1);
    }
  }

  /** The text in front of the write stays. */
  lemma FrontStays(doc: string, b: nat, s: string, at: nat, r: nat, x: string)
    requires b + |s| <= at <= |doc|
    ensures At(doc, b, s) <==> At(SpliceAt(doc, at, r, x), b, s)
  {
    var t := SpliceAt(doc, at, r, x);
    assert t[..at] == doc[..at];
    assert t[b..b + |s|] == t[..at][b..b + |s|] == doc[..at][b..b + |s|] == doc[b..b + |s|];
  }

  /** A tag that ends inside what has been written does not end with `>`. */
  lemma EndsInside(doc: string, b: nat, s: string, at: nat, r: nat, x: string)
    requires b <= at <= |doc| && at < b + |s| <= at + |x| && At(SpliceAt(doc, at, r, x), b, s) && NoChar(x, '>')
    ensures s[|s| - 1] != '>'
  {
    var t := SpliceAt(doc, at, r, x);
    assert t[at..at + |x|] == x;
    assert s[|s| - 1] == t[b..b + |s|][|s| - 1] == t[b + |s| - 1] == x[b + |s| - 1 - at];
  }

  /** A start tag that is recorded at the place of `tag` after a write that does not end inside it. */
  lemma StrayTag(doc: string, b: nat, tag: string, w: Write, s: string)
    requires At(doc, b, tag) && b < w.at <= |doc| && b + |tag| <= w.at + w.replace && (w.replace > 0 ==> NoChar(w.insert, '>'))
    requires At(SpliceAt(doc, w.at, w.replace, w.insert), b, s) && |s| == |tag| + |w.insert| - w.replace
    requires IsNode(tag, ELEMENT) && IsNode(s, ELEMENT)
    ensures b + |tag| <= w.at && |w.insert| == w.replace && s == tag
  {
    hide At, SpliceAt, NodeAt, Splice;
    var doc' := SpliceAt(doc, w.at, w.replace, w.insert);
    NodeProgress(s, 1);
    if b + |tag| <= w.at {
      FrontStays(doc, b, tag, w.at, w.replace, w.insert);
      TwoTags(doc', b, s, tag);
    } else if b + |s| <= w.at {
      FrontStays(doc, b, s, w.at, w.replace, w.insert);
      TwoTags(doc, b, s, tag);
    } else {
      EndsInside(doc, b, s, w.at, w.replace, w.insert);
    }
  }

  /** After a call that strays no content has that element with a start tag at its place and the records that the call
      leaves, unless the call replaces text behind the tag by text of the same length. */
  lemma StrayLost(doc: string, elem: Elems, free: nat, c: Content, p: nat, w: Write, a: Elems, fa: nat, c': Content)
    requires Represents(doc, elem, free, c) && p in Ids(c) && IsNode(Subtree(c, p).stag, ELEMENT) && !Within(c, p, w)
    requires |Before(c, p)| < w.at <= |doc| && (w.replace > 0 ==> NoChar(w.insert, '>'))
    requires Represents(SpliceAt(doc, w.at, w.replace, w.insert), a, fa, c') && p in Ids(c') && IsNode(Subtree(c', p).stag, ELEMENT)
    requires p < |a| && p < |elem| && a[p].nStart == elem[p].nStart && a[p].startTagLen == elem[p].startTagLen + |w.insert| - w.replace
    ensures elem[p].StartContent() <= w.at && |w.insert| == w.replace && Subtree(c', p).stag == Subtree(c, p).stag
  {
    hide Represents, Before, SpliceAt, Offsets, At, IsNode;
    ElementAt(doc, elem, free, c, p);
    ElementAt(SpliceAt(doc, w.at, w.replace, w.insert), a, fa, c', p);
    TagThere(doc, elem, free, c, p);
    TagThere(SpliceAt(doc, w.at, w.replace, w.insert), a, fa, c', p);
    StrayTag(doc, |Before(c, p)|, Subtree(c, p).stag, w, Subtree(c', p).stag);
  }

  lemma AfterSetAt(a: Elems, c: Content, p: nat, d: int)
    requires 0 < p < |a|
    ensures var e := AfterSet(a, c, p, d); |e| == |a| && e[p].nStart == a[p].nStart && e[p].startTagLen == a[p].startTagLen + d
  {
    hide Adjusted, Chain, InRange, Distinct, Following, Around;
    if CanAdjust(Stretched(a, p, d), c, p) {
      NoZero(c);
      AdjustedAt(Stretched(a, p, d), c, p, d, false, p);
      AroundFollowing(c, p, false);
    }
  }

  /** Two documents with the same text and records have the same start tag. */
  lemma SameTag(doc: string, a: Elems, f: nat, c: Content, p: nat, s: string, t: string)
    requires Represents(doc, a, f, Restarted(c, p, s)) && Represents(doc, a, f, Restarted(c, p, t)) && p in Ids(c) && Subtree(c, p).Elem?
    ensures s == t
  {
    hide Represents, Restarted, Before, Offsets;
    RestartedIs(c, p, s);
    RestartedIs(c, p, t);
    ElementAt(doc, a, f, Restarted(c, p, s), p);
    ElementAt(doc, a, f, Restarted(c, p, t), p);
    TagThere(doc, a, f, Restarted(c, p, s), p);
    TagThere(doc, a, f, Restarted(c, p, t), p);
  }

  lemma RestartedSelf(c: Content, p: nat)
    requires p in Ids(c)
    ensures Subtree(c, p).Elem? ==> Restarted(c, p, Subtree(c, p).stag) == c
  {
    WithSelf(c, p);
  }

  /** The call changes the start tag and nothing else, leaves a start tag that the end tag closes, and keeps the index in
      step with the text, exactly when the condition that can be checked before the call holds. */
  lemma SetExact(doc: string, elem: Elems, free: nat, c: Content, p: nat, name: string, value: string)
    requires Represents(doc, elem, free, c) && p in Ids(c) && Subtree(c, p).Elem? && TagFits(Subtree(c, p).stag, Subtree(c, p).etag) && NoChar(value, '>')
    ensures var w := WriteIn(c, p, name, value);
            KeepsTag(c, p, w) <==>
            exists s :: TagFits(s, Subtree(c, p).etag) &&
                        Represents(SpliceAt(doc, w.at, w.replace, w.insert), AfterSet(elem, Edited(c, p, w), p, |w.insert| - w.replace), free, Restarted(c, p, s))
  {
    hide Represents, Restarted, SpliceAt, AfterSet, KeepsTag, FindFrom, Strays, Same, Within, NewTag, Before, TagFits, WriteIn;
    var w := WriteIn(c, p, name, value);
    var doc', a := SpliceAt(doc, w.at, w.replace, w.insert), AfterSet(elem, Edited(c, p, w), p, |w.insert| - w.replace);
    WriteFacts(doc, elem, free, c, p, name, value);
    ElementIs(doc, elem, free, c, p);
    AttribReady(doc, elem, free, c, p, w);
    EditedIs(c, p, w);
    if KeepsTag(c, p, w) {
      var s := NewTag(c, p, w);
      KeptTagFits(c, p, w);
      assert TagFits(s, Subtree(c, p).etag) && Represents(doc', a, free, Restarted(c, p, s));
    }
    forall s | TagFits(s, Subtree(c, p).etag) && Represents(doc', a, free, Restarted(c, p, s)) ensures KeepsTag(c, p, w) {
      KeptBack(doc, elem, free, c, p, name, value, s);
    }
  }

  lemma ElementIs(doc: string, elem: Elems, free: nat, c: Content, p: nat)
    requires Represents(doc, elem, free, c) && p in Ids(c)
    ensures 0 < p < |elem| && Subtree(c, p).Elem?
  {
    hide Offsets, Linked, Shape;
    ElementAt(doc, elem, free, c, p);
  }

  lemma EditedIs(c: Content, p: nat, w: Write)
    requires p in Ids(c) && Subtree(c, p).Elem?
    ensures Edited(c, p, w) == Restarted(c, p, NewTag(c, p, w))
  {
    hide Restarted, Splice;
    RestartedSelf(c, p);
  }

  lemma KeptTagFits(c: Content, p: nat, w: Write)
    requires Subtree(c, p).Elem? && TagFits(Subtree(c, p).stag, Subtree(c, p).etag) && KeepsTag(c, p, w)
    ensures TagFits(NewTag(c, p, w), Subtree(c, p).etag) && !Strays(c, p, w)
  {
    hide TagFits, Same, Splice;
  }

  lemma KeptBack(doc: string, elem: Elems, free: nat, c: Content, p: nat, name: string, value: string, s: string)
    requires Represents(doc, elem, free, c) && p in Ids(c) && Subtree(c, p).Elem? && NoChar(value, '>')
    requires TagFits(Subtree(c, p).stag, Subtree(c, p).etag) && TagFits(s, Subtree(c, p).etag)
    requires var w := WriteIn(c, p, name, value);
             Represents(SpliceAt(doc, w.at, w.replace, w.insert), AfterSet(elem, Edited(c, p, w), p, |w.insert| - w.replace), free, Restarted(c, p, s))
    ensures KeepsTag(c, p, WriteIn(c, p, name, value))
  {
    hide Represents, Restarted, SpliceAt, AfterSet, FindFrom, Same, Within, NewTag, Before, Subtree, WriteIn, IsNode, Closes;
    var w := WriteIn(c, p, name, value);
    var doc', a := SpliceAt(doc, w.at, w.replace, w.insert), AfterSet(elem, Edited(c, p, w), p, |w.insert| - w.replace);
    WriteFacts(doc, elem, free, c, p, name, value);
    ElementIs(doc, elem, free, c, p);
    if Within(c, p, w) {
      AttribReady(doc, elem, free, c, p, w);
      SameTag(doc', a, free, c, p, s, NewTag(c, p, w));
    } else {
      AfterSetAt(elem, Edited(c, p, w), p, |w.insert| - w.replace);
      RestartedIs(c, p, s);
      WriteNoGt(c, p, name, value);
      StrayLost(doc, elem, free, c, p, w, a, free, Restarted(c, p, s));
      RestartedSelf(c, p);
      RepresentsParts(doc, elem, free, c);
      RepresentsParts(doc', a, free, c);
      SpliceSame(doc, w);
    }
  }

  lemma WriteLong(c: Content, p: nat, name: string, value: string)
    ensures var w := WriteIn(c, p, name, value); 0 < w.at ==> 2 <= |w.insert|
  {
    hide FindFrom, Render, Before;
  }

  lemma WriteNoGt(c: Content, p: nat, name: string, value: string)
    requires NoChar(value, '>')
    ensures var w := WriteIn(c, p, name, value); w.replace > 0 ==> NoChar(w.insert, '>')
  {
    hide FindFrom, Render, Before;
  }

  lemma SpliceSame(doc: string, w: Write)
    requires 0 <= w.at <= |doc| && SpliceAt(doc, w.at, w.replace, w.insert) == doc && |w.insert| == w.replace
    ensures Same(doc, w)
  {
    var t := SpliceAt(doc, w.at, w.replace, w.insert);
    assert t[w.at..w.at + w.replace] == w.insert;
  }

  // ---- Tags that are lists of attributes ----

  /** On a list of attributes the write is that of the attribute, so it stays inside the tag and makes it the list with
      the attribute set. */
  lemma TagEdited(doc: string, elem: Elems, free: nat, c: Content, p: nat, t: Tag, name: string, value: string)
    requires Represents(doc, elem, free, c) && HasTag(c, p, t) && NoChar(value, '\"') && (FirstMatch(t.attrs, name) == |t.attrs| ==> NameOk(name))
    ensures var w := WriteIn(c, p, name, value);
            Within(c, p, w) && NewTag(c, p, w) == RenderTag(SetAttr(t, name, value)) && (WF(c) ==> KeepsTag(c, p, w))
  {
    hide Represents, RenderTag, SetAttr, TagOk, SetPlace, SetReplace, SetInsert, Before, At, FindFrom, WF, NameOk, TagFits, Splice, WriteIn, FirstMatch;
    var w := WriteIn(c, p, name, value);
    TagThere(doc, elem, free, c, p);
    WriteFacts(doc, elem, free, c, p, name, value);
    WriteOfTag(doc, |Before(c, p)|, t, name, value);
    SetAttrText(t, name, value);
    if WF(c) {
      RestartedWF(c, p, "");
      SetTagFits(t, name, value, Subtree(c, p).etag);
    }
  }

  lemma SetTagFits(t: Tag, name: string, value: string, e: string)
    requires TagOk(t) && NoChar(value, '\"') && (FirstMatch(t.attrs, name) == |t.attrs| ==> NameOk(name)) && TagFits(RenderTag(t), e)
    ensures TagFits(RenderTag(SetAttr(t, name, value)), e)
  {
    hide RenderTag, TagOk, NameOk, FirstMatch, NodeAt, NameOf, Match;
    SetAttrOk(t, name, value);
    TagIsStart(t);
    TagIsStart(SetAttr(t, name, value));
  }

  lemma WriteOfTag(doc: string, b: nat, t: Tag, name: string, value: string)
    requires TagOk(t) && At(doc, b, RenderTag(t)) && b + 1 <= |doc|
    ensures WriteFor(FindFrom(doc, b + 1, name, Nothing, false, false), name, value) == Write(b + SetPlace(t, name), SetReplace(t, name), SetInsert(t, name, value))
  {
    hide FindFrom, At, TagOk, RenderTag, RenderAttrs, AttrOffset, QuoteOffset, FirstMatch;
    FindInTag(doc, b, t, name);
    var k := FirstMatch(t.attrs, name);
    if k < |t.attrs| { AttrFits(t, k); }
  }

  lemma AttrFits(t: Tag, k: nat)
    requires TagOk(t) && k < |t.attrs|
    ensures |t.attrs[k].quote| == if t.attrs[k].quote == "" then 0 else 1
  {
    assert AttrOk(t.attrs[k]);
  }

  // ---- Reading the attribute back ----

  lemma {:induction false} AttrAt(s: string, i: nat, attrs: seq<Attr>, k: nat)
    requires k < |attrs| && At(s, i, RenderAttrs(attrs))
    ensures At(s, i + AttrOffset(attrs, k), RenderAttr(attrs[k]))
    decreases k
  {
    hide RenderAttr, At;
    AtSplit(s, i, RenderAttr(attrs[0]), RenderAttrs(attrs[1..]));
    if k > 0 {
      AttrAt(s, i + |RenderAttr(attrs[0])|, attrs[1..], k - 1);
    }
  }

  /** The escaped value of the first matching attribute of a tag is found and unescaped. */
  lemma ValueBack(table: seq<string>, s: string, i: nat, u: Tag, name: string, value: string)
    requires Escaping.KnowsXml(table) && TagOk(u) && At(s, i, RenderTag(u))
    requires var k := FirstMatch(u.attrs, name); k < |u.attrs| && u.attrs[k].value == Escaping.Escape(value, true, false) && u.attrs[k].quote == "\""
    ensures i + 1 <= |s|
    ensures var f := FindFrom(s, i + 1, name, Nothing, false, false);
            f.Attrib? && f.l <= f.r && f.quoted && Escaping.Unescape(table, s, f.l, f.r) == value
  {
    hide TagOk, RenderTag, FindFrom, Escaping.KnowsXml, Escaping.Escape, Escaping.Unescape, At, QuoteOffset, RenderAttr, AttrOffset, RenderAttrs, RenderClose, FirstMatch;
    FindInTag(s, i, u, name);
    FindTagPieces(s, i, u);
    var k, b := FirstMatch(u.attrs, name), i + 1 + |u.name|;
    var v := b + AttrOffset(u.attrs, k);
    AttrAt(s, b, u.attrs, k);
    AttrPieces(s, v, u.attrs[k]);
    Escaping.UnescapeOfEscape(table, s, v + QuoteOffset(u.attrs[k]) + 1, value, true);
  }

  /** After `x_SetAttrib`, `x_GetAttrib` of the same attribute finds the value that was set. */
  lemma AttribBack(table: seq<string>, doc: string, elem: Elems, free: nat, c: Content, p: nat, t: Tag, name: string, value: string)
    requires Escaping.KnowsXml(table) && p in Ids(c) && TagOk(SetAttr(t, name, Escaping.Escape(value, true, false)))
    requires Represents(doc, elem, free, Restarted(c, p, RenderTag(SetAttr(t, name, Escaping.Escape(value, true, false))))) && Subtree(c, p).Elem?
    ensures p < |elem| && 0 <= elem[p].nStart < |doc|
    ensures var f := FindFrom(doc, elem[p].nStart + 1, name, Nothing, false, false);
            f.Attrib? && f.l <= f.r && f.quoted && Escaping.Unescape(table, doc, f.l, f.r) == value
  {
    hide Represents, TagOk, RenderTag, SetAttr, FindFrom, Escaping.KnowsXml, Escaping.Escape, Escaping.Unescape, At, Before, Restarted, Subtree, Ids, FirstMatch;
    var e := Escaping.Escape(value, true, false);
    var u := SetAttr(t, name, e);
    RestartedIs(c, p, RenderTag(u));
    TagThere(doc, elem, free, Restarted(c, p, RenderTag(u)), p);
    SetThenFind(t, name, e);
    ValueBack(table, doc, elem[p].nStart, u, name, value);
  }

  lemma RestartedIs(c: Content, p: nat, s: string)
    requires p in Ids(c) && Subtree(c, p).Elem?
    ensures p in Ids(Restarted(c, p, s)) && Subtree(Restarted(c, p, s), p).Elem? && Subtree(Restarted(c, p, s), p).stag == s
  {
    var n := Subtree(c, p);
    WithBelow(c, p, s, n.kids, n.etag);
  }

  lemma FindTagPieces(s: string, i: nat, t: Tag)
    requires TagOk(t) && At(s, i, RenderTag(t))
    ensures At(s, i + 1 + |t.name|, RenderAttrs(t.attrs))
  {
    hide FindFrom;
    FindTagName(s, i, t, "");
  }

  // ---- Reading back on any tag ----

  /** Where the search is when it takes the turn in which it ends. */
  datatype Turn = Turn(n: nat, seen: Seen, equal: bool, quoted: bool)

  datatype Move = Ends | Goes(t: Turn)

  /** One turn of the search. */
  function OneTurn(s: string, x: Turn, name: string): (r: Move)
    requires x.n <= |s|
    ensures r.Goes? ==> x.n < r.t.n <= |s| && (!x.seen.Nothing? ==> !r.t.seen.Nothing?)
  {
    var m := SkipWhite(s, x.n);
    if m == |s| then Ends else
    var w := WordAt(s, m, x.equal);
    if x.equal || w.quoted then
      if x.seen.Wanted? then Ends else Goes(Turn(w.next, x.seen, false, w.quoted))
    else if s[m] == '=' then Goes(Turn(w.next, x.seen, true, false))
    else if s[m] == '>' || s[m] == '/' || s[m] == '?' || x.seen.Wanted? then Ends
    else Goes(Turn(w.next, if x.seen.TagName? && Match(s[w.l..w.r], name) then Wanted(w.l, w.r) else TagName, false, false))
  }

  function LastTurn(s: string, x: Turn, name: string): (t: Turn)
    requires x.n <= |s|
    ensures x.n <= t.n <= |s| && (!x.seen.Nothing? ==> !t.seen.Nothing?) && OneTurn(s, t, name).Ends?
    decreases |s| - x.n
  {
    match OneTurn(s, x, name)
    case Ends => x
    case Goes(t) => LastTurn(s, t, name)
  }

  function FindTurn(s: string, x: Turn, name: string): Found
    requires x.n <= |s|
  {
    FindFrom(s, x.n, name, x.seen, x.equal, x.quoted)
  }

  lemma TurnFinds(s: string, x: Turn, name: string)
    requires x.n <= |s| && OneTurn(s, x, name).Goes?
    ensures FindTurn(s, x, name) == FindTurn(s, OneTurn(s, x, name).t, name)
  {
    hide SkipWhite, WordAt;
  }

  lemma {:induction false} LastTurnFinds(s: string, x: Turn, name: string)
    requires x.n <= |s|
    ensures FindTurn(s, x, name) == FindTurn(s, LastTurn(s, x, name), name)
    decreases |s| - x.n
  {
    hide OneTurn, FindTurn;
    if OneTurn(s, x, name).Goes? {
      TurnFinds(s, x, name);
      LastTurnFinds(s, OneTurn(s, x, name).t, name);
    }
  }

  /** Two texts agree up to `k`. */
  predicate Agree(s: string, t: string, k: nat) {
    k <= |s| && k <= |t| && forall i :: 0 <= i < k ==> s[i] == t[i]
  }

  lemma {:induction false} SkipAgree(s: string, t: string, k: nat, n: nat)
    requires Agree(s, t, k) && n <= k && SkipWhite(s, n) < k
    ensures SkipWhite(t, n) == SkipWhite(s, n)
    decreases k - n
  {
    if White(s[n]) { SkipAgree(s, t, k, n + 1); }
  }

  lemma {:induction false} QuoteAgree(s: string, t: string, k: nat, n: nat, q: char)
    requires Agree(s, t, k) && n <= k && QuoteEnd(s, n, q) < k
    ensures QuoteEnd(t, n, q) == QuoteEnd(s, n, q)
    decreases k - n
  {
    if s[n] != q { QuoteAgree(s, t, k, n + 1, q); }
  }

  lemma {:induction false} WordAgree(s: string, t: string, k: nat, n: nat, value: bool)
    requires Agree(s, t, k) && n <= k && WordEnd(s, n, value) <= k && (WordEnd(s, n, value) < k || (k < |t| && White(t[k])))
    ensures WordEnd(t, n, value) == WordEnd(s, n, value)
    decreases k - n
  {
    if n < k && n < WordEnd(s, n, value) { WordAgree(s, t, k, n + 1, value); }
  }

  /** A word in front of `k` is cut alike from both. */
  lemma WordSame(s: string, t: string, k: nat, m: nat, value: bool)
    requires Agree(s, t, k) && m < k < |s| && WordAt(s, m, value).next <= k
    requires WordAt(s, m, value).next < k || (!value && s[m] == '=') || (k < |t| && White(t[k]))
    ensures WordAt(t, m, value) == WordAt(s, m, value)
  {
    hide QuoteEnd, WordEnd;
    if IsQuote(s[m]) {
      QuoteAgree(s, t, k, m + 1, s[m]);
    } else if !value && s[m] == '=' {
      assert WordEnd(s, m, false) == m && WordEnd(t, m, false) == m by { NoWord(s, m); NoWord(t, m); }
    } else {
      WordEnds(s, m, value);
      if WordEnd(s, m, value) == m { SpecialSame(s, t, m, value); } else { WordAgree(s, t, k, m, value); }
    }
  }

  lemma NoWord(s: string, m: nat)
    requires m < |s| && s[m] == '='
    ensures WordEnd(s, m, false) == m
  {
  }

  lemma WordEnds(s: string, m: nat, value: bool)
    requires m < |s| && !IsQuote(s[m])
    ensures WordEnd(s, m, value) <= WordAt(s, m, value).next
  {
  }

  lemma SpecialSame(s: string, t: string, m: nat, value: bool)
    requires m < |s| && m < |t| && s[m] == t[m] && WordEnd(s, m, value) == m
    ensures WordEnd(t, m, value) == m
  {
  }

  lemma SliceAgree(s: string, t: string, k: nat, a: nat, b: nat)
    requires Agree(s, t, k) && a <= b <= k
    ensures s[a..b] == t[a..b]
  {
  }

  lemma SameTurn(s: string, t: string, k: nat, x: Turn, name: string)
    requires x.n <= k < |s| && Agree(s, t, k) && OneTurn(s, x, name).Goes?
    requires var y := OneTurn(s, x, name).t; y.n <= k && (y.n < k || y.equal || (k < |t| && White(t[k])))
    ensures OneTurn(t, x, name) == OneTurn(s, x, name)
  {
    hide QuoteEnd, WordEnd, SkipWhite, Match;
    var m := SkipWhite(s, x.n);
    SkipAgree(s, t, k, x.n);
    WordSame(s, t, k, m, x.equal);
    var w := WordAt(s, m, x.equal);
    SliceAgree(s, t, k, w.l, w.r);
  }

  /** The search takes the same turns in both texts, up to its last turn in the first. */
  lemma {:induction false} SameTurns(s: string, t: string, k: nat, x: Turn, name: string)
    requires x.n <= k < |s| && Agree(s, t, k)
    requires var y := LastTurn(s, x, name); y.n <= k && (y.n < k || y.equal || (k < |t| && White(t[k])))
    ensures FindTurn(t, x, name) == FindTurn(t, LastTurn(s, x, name), name)
    decreases |s| - x.n
  {
    hide OneTurn, FindTurn, Agree;
    if OneTurn(s, x, name).Goes? {
      var y := OneTurn(s, x, name).t;
      Later(s, y, name);
      SameTurn(s, t, k, x, name);
      assert k <= |t| by { AgreeLen(s, t, k); }
      TurnFinds(t, x, name);
      SameTurns(s, t, k, y, name);
    }
  }

  lemma AgreeLen(s: string, t: string, k: nat)
    requires Agree(s, t, k)
    ensures k <= |t|
  {
  }

  lemma Later(s: string, x: Turn, name: string)
    requires x.n <= |s|
    ensures LastTurn(s, x, name) == x || x.n < LastTurn(s, x, name).n
  {
    hide OneTurn;
  }

  function FirstTurn(n: nat): Turn {
    Turn(n, Nothing, false, false)
  }

  /** The attribute is there with a value, or it is not there and the name is one that the search finds. */
  predicate Valued(doc: string, n: nat, name: string)
    requires n <= |doc|
  {
    var x := LastTurn(doc, FirstTurn(n), name);
    if x.seen.Wanted? then x.equal else x.seen.TagName? && NameOk(name)
  }

  /** No turn that looks for a value has a quoted word in front of it. */
  lemma {:induction false} NotQuoted(s: string, x: Turn, name: string)
    requires x.n <= |s| && (x.equal ==> !x.quoted)
    ensures var y := LastTurn(s, x, name); y.equal ==> !y.quoted
    decreases |s| - x.n
  {
    hide SkipWhite, WordAt;
    if OneTurn(s, x, name).Goes? { NotQuoted(s, OneTurn(s, x, name).t, name); }
  }

  /** The last turn is where the write goes. */
  lemma TurnPlace(s: string, n: nat, name: string, value: string)
    requires n <= |s| && Valued(s, n, name)
    requires var w := WriteFor(FindFrom(s, n, name, Nothing, false, false), name, value); w.at < |s|
    ensures var x := LastTurn(s, FirstTurn(n), name); var w := WriteFor(FindFrom(s, n, name, Nothing, false, false), name, value);
            if x.seen.Wanted? then w.at == SkipWhite(s, x.n) && w.insert == "\"" + value + "\""
            else !x.equal && w.at == x.n && w.replace == 0 && w.insert == " " + name + "=" + ("\"" + value + "\"")
  {
    hide FindFrom, SkipWhite, OneTurn, LastTurn;
    LastTurnFinds(s, FirstTurn(n), name);
    NotQuoted(s, FirstTurn(n), name);
    LastStep(s, LastTurn(s, FirstTurn(n), name), name);
  }

  /** What the last turn finds. */
  lemma LastStep(s: string, x: Turn, name: string)
    requires x.n <= |s| && OneTurn(s, x, name).Ends? && (x.equal ==> !x.quoted) && (if x.seen.Wanted? then x.equal else x.seen.TagName?)
    ensures var m := SkipWhite(s, x.n);
            match FindTurn(s, x, name)
            case Attrib(l, r, q) => x.seen.Wanted? && l - (if q then 1 else 0) == m
            case NoAttrib(k) => !x.seen.Wanted? && ((k == x.n && !x.equal) || k == |s|)
  {
    hide QuoteEnd, WordEnd, SkipWhite;
  }

  /** What `x_SetAttrib` writes is found again. */
  lemma WrittenFound(s: string, n: nat, name: string, value: string)
    requires n <= |s| && Valued(s, n, name) && NoChar(value, '\"')
    requires var w := WriteFor(FindFrom(s, n, name, Nothing, false, false), name, value); n <= w.at && w.at + w.replace < |s|
    ensures var w := WriteFor(FindFrom(s, n, name, Nothing, false, false), name, value);
            var t, v := Splice(s, w.at, w.replace, w.insert), w.at + |w.insert| - |value| - 1;
            n <= |t| && v + |value| <= |t| && FindFrom(t, n, name, Nothing, false, false) == Attrib(v, v + |value|, true) && At(t, v, value)
  {
    hide FindFrom, LastTurn, SkipWhite, NameOk, WriteFor, Splice, Agree, OneTurn;
    var x := LastTurn(s, FirstTurn(n), name);
    var w := WriteFor(FindFrom(s, n, name, Nothing, false, false), name, value);
    var t := Splice(s, w.at, w.replace, w.insert);
    TurnPlace(s, n, name, value);
    SpliceAgree(s, w.at, w.replace, w.insert);
    if x.seen.Wanted? {
      SkipMore(s, x.n);
      SameTurns(s, t, w.at, FirstTurn(n), name);
      ValueFound(s, t, x, w.at, name, value);
    } else {
      SameTurns(s, t, w.at, FirstTurn(n), name);
      NewFound(t, x, w.at, name, value);
    }
  }

  lemma SkipMore(s: string, n: nat)
    requires n <= |s|
    ensures n <= SkipWhite(s, n)
  {
  }

  lemma SpliceAgree(s: string, n: nat, r: nat, x: string)
    requires n + r < |s|
    ensures var t := Splice(s, n, r, x); Agree(s, t, n) && At(t, n, x) && n + |x| < |t| && (x != "" ==> t[n] == x[0])
  {
  }

  lemma ValueFound(s: string, t: string, x: Turn, at: nat, name: string, value: string)
    requires x.n <= at < |s| && at == SkipWhite(s, x.n) && Agree(s, t, at) && At(t, at, "\"" + value + "\"") && NoChar(value, '\"')
    requires x.seen.Wanted? && x.equal && at + |value| + 2 <= |t|
    ensures FindFrom(t, x.n, name, x.seen, x.equal, x.quoted) == Attrib(at + 1, at + 1 + |value|, true) && At(t, at + 1, value)
  {
    hide FindFrom, SkipWhite, QuoteEnd;
    AtSplit3(t, at, "\"", value, "\"");
    CharAt0(t, at, "\"");
    CharAt0(t, at + 1 + |value|, "\"");
    WhiteAgree(s, t, at, x.n);
    QuoteEndAt(t, at + 1, value, '\"');
    StepValue(t, x.n, at, at + 1 + |value|, name, x.seen, x.quoted);
  }

  lemma {:induction false} WhiteAgree(s: string, t: string, k: nat, n: nat)
    requires Agree(s, t, k) && n <= k && SkipWhite(s, n) == k < |t| && !White(t[k])
    ensures SkipWhite(t, n) == k
    decreases k - n
  {
    if n < k { WhiteAgree(s, t, k, n + 1); }
  }

  lemma NewFound(t: string, x: Turn, at: nat, name: string, value: string)
    requires x.n == at && x.seen.TagName? && !x.equal && NameOk(name) && NoChar(value, '\"') && At(t, at, " " + name + "=" + ("\"" + value + "\""))
    ensures var v := at + |name| + 3; FindFrom(t, x.n, name, x.seen, x.equal, x.quoted) == Attrib(v, v + |value|, true) && At(t, v, value)
  {
    hide FindFrom, NameOk, At, RenderAttr;
    var a := Attr(" ", name, "", "", "\"", value);
    NewAttrText(name, value);
    assert AttrOk(a) by { NewAttrOk(a, name, value); }
    AttrPieces(t, at, a);
    FindName(t, at, a, name, x.quoted);
    assert Match(name, name);
    FindValue(t, at, a, name, Wanted(at + 1, at + 1 + |name|));
  }

  /** On every start tag: when the write lies inside the tag, and the attribute either has a value or is new with a name
      that can be found, `x_GetAttrib` finds the value that `x_SetAttrib` has set. */
  lemma SetThenGet(table: seq<string>, doc: string, elem: Elems, free: nat, c: Content, p: nat, name: string, value: string)
    requires Escaping.KnowsXml(table) && Represents(doc, elem, free, c) && p in Ids(c)
    requires |Before(c, p)| + 1 <= |doc| && Valued(doc, |Before(c, p)| + 1, name)
    requires Within(c, p, WriteIn(c, p, name, Escaping.Escape(value, true, false)))
    ensures var w := WriteIn(c, p, name, Escaping.Escape(value, true, false));
            var t, n := Render(Edited(c, p, w)), |Before(c, p)| + 1;
            n <= |t| && var f := FindFrom(t, n, name, Nothing, false, false);
            f.Attrib? && f.l <= f.r && f.quoted && Escaping.Unescape(table, t, f.l, f.r) == value
  {
    hide Represents, FindFrom, Escaping.KnowsXml, Escaping.Escape, Escaping.Unescape, At, Before, Edited, Valued, WriteFor, Render, Splice, SpliceAt, WriteIn;
    hide Within, NewTag, Subtree, Shape, Linked, Distinct, RootOk, Ids;
    var e := Escaping.Escape(value, true, false);
    var w, n := WriteIn(c, p, name, e), |Before(c, p)| + 1;
    RepresentsParts(doc, elem, free, c);
    WriteFacts(doc, elem, free, c, p, name, e);
    EditedText(c, p, w);
    WithinEnds(doc, elem, free, c, p, w);
    SpliceAtIs(doc, w);
    Escaping.EscapeNoQuote(value, false);
    WrittenFound(doc, n, name, e);
    Escaping.UnescapeOfEscape(table, Splice(doc, w.at, w.replace, w.insert), w.at + |w.insert| - |e| - 1, value, true);
  }

  lemma SpliceAtIs(doc: string, w: Write)
    requires 0 <= w.at && w.at + w.replace <= |doc|
    ensures SpliceAt(doc, w.at, w.replace, w.insert) == Splice(doc, w.at, w.replace, w.insert)
  {
  }

  lemma WithinEnds(doc: string, elem: Elems, free: nat, c: Content, p: nat, w: Write)
    requires Represents(doc, elem, free, c) && p in Ids(c) && Within(c, p, w)
    ensures |Before(c, p)| < w.at && w.at + w.replace < |doc|
  {
    hide Represents, Before, Render;
    TagThere(doc, elem, free, c, p);
  }

  // ---- Three inputs on which the condition does not hold ----

  /** A tag `<a...>` in which no attribute has a value. */
  lemma LooseTag(w: string)
    requires w != "" && EndName(w[0]) && w[|w| - 1] != '/' && forall k :: 0 <= k < |w| ==> Inert(w[k], NoQuote, false)
    ensures IsStart("<a" + w + ">", false) && NameOf("<a" + w + ">") == "a"
  {
    hide Run, Past;
    var s := "<a" + w + ">";
    assert s[1..1 + |"a"|] == "a";
    RunToName(s, "a");
    NameEnds(s, 2, Tag("a", [], "", false));
    var x := EndNameAt(2, NameState());
    MidAt("<a", w, ">");
    RunInert(s, 2, w, x, "a");
    PastIs(x, w);
    GtStep(s, 2 + |w|, Past(x, w), "a");
  }

  lemma {:induction false} NoQuoteEnd(s: string, i: nat, q: char)
    requires i <= |s| && forall k :: i <= k < |s| ==> s[k] != q
    ensures QuoteEnd(s, i, q) == |s|
    decreases |s| - i
  {
    if i < |s| { NoQuoteEnd(s, i + 1, q); }
  }

  lemma EndTagA()
    ensures IsNode("</a>", END_TAG) && NameOf("</a>") == "a"
  {
    EndTag("a");
    assert "</" + "a" + ">" == "</a>";
  }

  /** `<a "x>t</a>`: for the tokenizer the tag ends at the first `>`, for `FindAttrib` the quote opens a text. */
  const LONE_QUOTE: Content := Elem("", 1, "<a \"x>", End("t"), "</a>", End(""))

  /** A new attribute of that element is put behind its end tag. */
  lemma LoneQuoteStrays()
    ensures WF(LONE_QUOTE) && Render(LONE_QUOTE) == "<a \"x>t</a>"
    ensures WriteIn(LONE_QUOTE, 1, "b", "v") == Write(11, 0, " b=\"v\"") && Strays(LONE_QUOTE, 1, WriteIn(LONE_QUOTE, 1, "b", "v"))
  {
    hide IsStart, NameOf, IsNode, FindFrom;
    LooseTag(" \"x");
    assert "<a" + " \"x" + ">" == "<a \"x>";
    EndTagA();
    assert Render(End("t")) == "t" && Render(End("")) == "";
    assert Render(LONE_QUOTE) == "" + ("<a \"x>" + "t" + "</a>") + "" == "<a \"x>t</a>";
    LoneQuoteFound();
    assert " b=\"v\"" == " " + "b" + "=" + ("\"" + "v" + "\"");
  }

  lemma LoneQuoteFound()
    ensures FindFrom("<a \"x>t</a>", 1, "b", Nothing, false, false) == NoAttrib(11)
  {
    hide FindFrom;
    var s := "<a \"x>t</a>";
    assert WordEnd(s, 2, false) == 2;
    StepName(s, 1, 1, 2, "b", Nothing, false);
    NoQuoteEnd(s, 4, '\"');
    assert SkipWhite(s, 2) == 3 && s[3] == '\"';
    StepOpenQuote(s, 2, 3, "b");
  }

  lemma StepOpenQuote(s: string, n: nat, m: nat, name: string)
    requires n <= |s| && SkipWhite(s, n) == m < |s| && IsQuote(s[m]) && QuoteEnd(s, m + 1, s[m]) == |s|
    ensures FindFrom(s, n, name, TagName, false, false) == NoAttrib(|s|)
  {
    assert FindFrom(s, |s|, name, TagName, false, true) == NoAttrib(|s|);
  }

  /** `<a b>t</a>`: when `b` is set to `x=`, the name is replaced by the quoted value, and the equal sign in it makes the
      closing quote open another value. */
  lemma NameReplaced()
    ensures IsStart("<a b>", false) && WriteFor(FindFrom("<a b>t</a>", 1, "b", Nothing, false, false), "b", "x=") == Write(3, 1, "\"x=\"")
    ensures Splice("<a b>", 3, 1, "\"x=\"") == "<a \"x=\">" && !TagFits("<a \"x=\">", "</a>")
  {
    hide FindFrom, IsStart, Closes, NameOf, Splice, NodeAt;
    LooseTag(" b");
    assert "<a" + " b" + ">" == "<a b>";
    NameFound();
    NameSpliced();
    OpenValue();
    assert !IsStart("<a \"x=\">", false) by { NoStart("<a \"x=\">"); }
  }

  lemma NameSpliced()
    ensures Splice("<a b>", 3, 1, "\"x=\"") == "<a \"x=\">"
  {
    assert "<a b>"[..3] == "<a " && "<a b>"[4..] == ">";
  }

  lemma NoStart(s: string)
    requires NodeAt(s, 1).typ == BAD
    ensures !IsStart(s, false)
  {
  }

  lemma NameFound()
    ensures FindFrom("<a b>t</a>", 1, "b", Nothing, false, false) == Attrib(3, 4, false)
  {
    hide FindFrom;
    var s := "<a b>t</a>";
    assert WordEnd(s, 2, false) == 2 && WordEnd(s, 4, false) == 4;
    StepName(s, 1, 1, 2, "b", Nothing, false);
    assert SkipWhite(s, 2) == 3 && s[3..4] == "b" && Match("b", "b");
    StepName(s, 2, 3, 4, "b", TagName, false);
    StepNameEnds(s, 4, "b", 3, 4);
  }

  lemma StepNameEnds(s: string, n: nat, name: string, l: nat, r: nat)
    requires n < |s| && s[n] == '>'
    ensures FindFrom(s, n, name, Wanted(l, r), false, false) == Attrib(l, r, false)
  {
  }

  lemma OpenValue()
    ensures NodeAt("<a \"x=\">", 1).typ == BAD
  {
    hide Run, Past;
    var s := "<a \"x=\">";
    assert s[1..1 + |"a"|] == "a";
    RunToName(s, "a");
    NameEnds(s, 2, Tag("a", [], "", false));
    var x := EndNameAt(2, NameState());
    assert At(s, 2, " \"x") && At(s, 7, ">");
    RunInert(s, 2, " \"x", x, "a");
    PastIs(x, " \"x");
    var y := Past(x, " \"x");
    EqualStep(s, 5, y, "a");
    var z := y.(equals := true, d2 := y.d1, d1 := '=');
    OpenQuote(s, 6, z, "a");
    var u := z.(quote := InDouble, equals := false, d2 := z.d1, d1 := '\"');
    RunInert(s, 7, ">", u, "a");
    PastIs(u, ">");
    RunsOut(s, Past(u, ">"));
  }

  lemma RunsOut(s: string, st: Scan)
    ensures Run(s, 1, |s|, st).eof && Run(s, 1, |s|, st).st == st
  {
  }

  /** `<a b= />` is an empty element, although the slash is the value of `b`; when `b` is set it is none any more. */
  lemma SlashReplaced()
    ensures IsStart("<a b= />", true) && WriteFor(FindFrom("<a b= />", 1, "b", Nothing, false, false), "b", "v") == Write(6, 1, "\"v\"")
    ensures Splice("<a b= />", 6, 1, "\"v\"") == "<a b= \"v\">" && !TagFits("<a b= \"v\">", "")
  {
    hide FindFrom, IsStart;
    SlashValue();
    SlashFound();
    assert "<a b= />"[..6] == "<a b= " && "<a b= />"[7..] == ">";
    QuotedTag();
  }

  lemma QuotedTag()
    ensures !IsStart("<a b= \"v\">", true)
  {
    var t := Tag("a", [Attr(" ", "b", "", " ", "\"", "v")], "", false);
    hide IsNode, NameOf;
    assert RenderAttr(t.attrs[0]) == " b= \"v\"";
    assert RenderAttrs(t.attrs) == " b= \"v\"" + RenderAttrs([]);
    assert RenderTag(t) == "<a b= \"v\">";
    TagIsStart(t);
  }

  lemma SlashFound()
    ensures FindFrom("<a b= />", 1, "b", Nothing, false, false) == Attrib(6, 7, false)
  {
    hide FindFrom;
    var s := "<a b= />";
    assert WordEnd(s, 2, false) == 2 && WordEnd(s, 4, false) == 4 && WordEnd(s, 7, true) == 7;
    StepName(s, 1, 1, 2, "b", Nothing, false);
    assert SkipWhite(s, 2) == 3 && s[3..4] == "b" && Match("b", "b");
    StepName(s, 2, 3, 4, "b", TagName, false);
    StepEqual(s, 4, 4, "b", Wanted(3, 4), false);
    assert SkipWhite(s, 5) == 6;
    StepWord(s, 5, 6, 7, "b", Wanted(3, 4), false);
  }

  lemma SlashValue()
    ensures IsStart("<a b= />", true)
  {
    hide Run, PastAttr, RenderAttr;
    var s := "<a b= />";
    var a := Attr(" ", "b", "", " ", "", "/");
    assert RenderAttr(a) == " b= /" by { SlashAttr(); }
    assert s[1..1 + |"a"|] == "a" && At(s, 2, " b= /");
    RunToName(s, "a");
    NameEnds(s, 2, Tag("a", [], "", false));
    var x := EndNameAt(2, NameState());
    RunAttr(s, 2, a, x, "a");
    GtStep(s, 7, PastAttr(x, a), "a");
  }

  lemma SlashAttr()
    ensures RenderAttr(Attr(" ", "b", "", " ", "", "/")) == " b= /"
  {
  }
}
