/** What the calls do, said of the elements and their neighbours: where a new element stands and which one is current
    behind each call. */
module Calls {
  import opened Content
  import opened Index
  import opened Edit
  import opened Links
  import opened Effect
  import opened Represent
  import opened Position
  import opened AddElem
  import opened NewElem
  import opened RemoveElem
  import opened Navigate
  import opened Cursor
  import opened Chars
  import GetData
  import Escaping
  import Runs

  // ---- A new element ----

  /** `s'` is the list `s` with `t` in it: directly in front of `rel` or directly behind it, or, when `rel` is 0, at the
      front or at the end. */
  predicate Beside(s: seq<nat>, s': seq<nat>, rel: nat, insert: bool, t: nat) {
    exists j :: 0 <= j <= |s| && s' == s[..j] + [t] + s[j..] && BesideAt(s, rel, insert, j)
  }

  predicate BesideAt(s: seq<nat>, rel: nat, insert: bool, j: nat)
    requires j <= |s|
  {
    if rel == 0 then j == (if insert then 0 else |s|)
    else if insert then j < |s| && s[j] == rel
    else j > 0 && s[j - 1] == rel
  }

  /** The document `c'` is `c` with one more element, `t`, beside `rel` in the list below `p`; it has these tags and this
      content. */
  predicate NewIn(c: Content, c': Content, p: nat, rel: nat, insert: bool, t: nat, stag: string, kids: Content, etag: string) {
    && t != 0 && t !in Ids(c) && Ids(c') == Ids(c) + {t} && Beside(TopSeq(Below(c, p)), TopSeq(Below(c', p)), rel, insert, t)
    && var n := Subtree(c', t);
       n.Elem? && n.stag == stag && n.kids == kids && n.etag == etag
  }

  /** The element `id` of a list has these tags and this content. */
  predicate HasElem(k: Content, id: nat, s: string, n: Content, e: string) {
    id in Ids(k) && var x := Subtree(k, id); x.Elem? && x.stag == s && x.kids == n && x.etag == e
  }

  lemma HeadHas(k: Content, id: nat, s: string, n: Content, e: string)
    ensures HasElem(InsertHead(k, id, s, n, e), id, s, n, e)
  {
  }

  lemma {:induction false} LastHas(k: Content, id: nat, s: string, n: Content, e: string)
    requires id !in Ids(k)
    ensures HasElem(InsertLast(k, id, s, n, e), id, s, n, e)
  {
    match k
    case End(_) =>
    case Mark(_, _, r) => LastHas(r, id, s, n, e);
    case Elem(_, _, _, _, _, r) => LastHas(r, id, s, n, e);
  }

  lemma {:induction false} AfterHas(k: Content, rel: nat, id: nat, s: string, n: Content, e: string)
    requires id !in Ids(k) && rel in Top(k)
    ensures HasElem(InsertAfter(k, rel, id, s, n, e), id, s, n, e)
  {
    match k
    case Mark(_, _, r) => AfterHas(r, rel, id, s, n, e);
    case Elem(_, i, _, _, _, r) => if i == rel { HeadHas(r, id, s, n, e); } else { AfterHas(r, rel, id, s, n, e); }
  }

  lemma {:induction false} BeforeHas(k: Content, rel: nat, id: nat, s: string, n: Content, e: string)
    requires id !in Ids(k) && rel in Top(k)
    ensures HasElem(InsertBefore(k, rel, id, s, n, e), id, s, n, e)
  {
    match k
    case Mark(_, _, r) => BeforeHas(r, rel, id, s, n, e);
    case Elem(_, i, _, _, _, r) => if i != rel { BeforeHas(r, rel, id, s, n, e); }
  }

  lemma InsertHas(k: Content, w: Where, id: nat, s: string, n: Content, e: string)
    requires id !in Ids(k) && CanInsert(k, w)
    ensures HasElem(Insert(k, w, id, s, n, e), id, s, n, e)
  {
    match w
    case Only =>
    case Head => HeadHas(k, id, s, n, e);
    case Last => LastHas(k, id, s, n, e);
    case Behind(rel) => AfterHas(k, rel, id, s, n, e);
    case InFront(rel) => BeforeHas(k, rel, id, s, n, e);
  }

  /** What an element's new content holds the document holds. */
  lemma {:induction false} WithHasElem(c: Content, p: nat, s: string, k: Content, e: string, id: nat, s': string, n: Content, e': string)
    requires p in Ids(c) && id !in Ids(c) && HasElem(k, id, s', n, e')
    ensures HasElem(With(c, p, s, k, e), id, s', n, e')
  {
    match c
    case Mark(_, _, r) => WithHasElem(r, p, s, k, e, id, s', n, e');
    case Elem(_, i, _, k0, _, r) =>
      if i != p {
        if p in Ids(k0) { WithHasElem(k0, p, s, k, e, id, s', n, e'); } else { WithHasElem(r, p, s, k, e, id, s', n, e'); }
      }
  }

  /** Where an element is added. */
  lemma PlaceBeside(c: Content, p: nat, rel: nat, insert: bool, k': Content, id: nat)
    requires var w := WhereFor(c, p, rel, insert); CanInsert(Below(c, p), w) && Inserted(Below(c, p), k', id, PlaceOf(Below(c, p), w))
    ensures Beside(TopSeq(Below(c, p)), TopSeq(k'), rel, insert, id)
  {
    hide Below, Distinct;
    var k := Below(c, p);
    var s, j := TopSeq(k), PlaceOf(k, WhereFor(c, p, rel, insert));
    TopSeqFacts(k);
    assert BesideAt(s, rel, insert, j);
  }

  lemma AddedIs(c: Content, p: nat, rel: nat, insert: bool, id: nat, s: string, n: Content, e: string)
    requires CanAdd(c, p, WhereFor(c, p, rel, insert), id, s, n, e)
    ensures NewIn(c, Added(c, p, WhereFor(c, p, rel, insert), id, s, n, e), p, rel, insert, id, s, n, e)
  {
    hide Insert, WhereFor, Shape, ShapedTags, CanInsert, PlaceOf, Distinct, Inserted, Beside, Opened, Closed;
    var w := WhereFor(c, p, rel, insert);
    var k, c' := Insert(Below(c, p), w, id, s, n, e), Added(c, p, w, id, s, n, e);
    NoZero(c);
    AddedSlots(c, p, w, id, s, n, e);
    BelowIds(c, p);
    InsertHas(Below(c, p), w, id, s, n, e);
    PlaceBeside(c, p, rel, insert, k, id);
    if p != 0 {
      var x := Subtree(c, p);
      WithHasElem(c, p, Opened(x), k, Closed(x), id, s, n, e);
      WithBelow(c, p, Opened(x), k, Closed(x));
    }
  }

  // ---- A removed element ----

  /** `s'` is the list `s` without `t`, and `prev` the one in front of it, or 0. */
  predicate Without(s: seq<nat>, s': seq<nat>, t: nat, prev: nat) {
    exists j :: 0 <= j < |s| && WithoutAt(s, s', t, prev, j)
  }

  predicate WithoutAt(s: seq<nat>, s': seq<nat>, t: nat, prev: nat, j: nat)
    requires j < |s|
  {
    s[j] == t && s' == s[..j] + s[j + 1..] && prev == if j == 0 then 0 else s[j - 1]
  }

  /** The document `c'` is `c` without the child `t` of `p` and what is below it; `prev` is the sibling in front of it. */
  predicate NoLongerIn(c: Content, c': Content, p: nat, t: nat, prev: nat) {
    && t in Ids(c) && t !in Ids(c') && Ids(c') == Ids(c) - ({t} + Ids(Below(c, t)))
    && Without(TopSeq(Below(c, p)), TopSeq(Below(c', p)), t, prev)
  }

  lemma RemovedIs(c: Content, p: nat, t: nat)
    requires CanRemove(c, p, t)
    ensures NoLongerIn(c, Removed(c, p, t), p, t, PreviousOf(c, p, t))
  {
    hide Edit.Remove, Shape, IndexOf, Gone;
    assert Distinct(c);
    hide Distinct;
    var k, c' := Below(c, p), Removed(c, p, t);
    NoZero(c);
    BelowIds(c, p);
    BelowDistinct(c, p);
    TopSeqFacts(k);
    RemovedSlots(c, p, t);
    RemoveSlots(k, t);
    var j := IndexOf(TopSeq(k), t);
    if p != 0 { WithBelow(c, p, Subtree(c, p).stag, Edit.Remove(k, t), Subtree(c, p).etag); }
    assert Below(c', p) == Edit.Remove(k, t);
    assert TopSeq(k)[j] == t && TopSeq(Edit.Remove(k, t)) == TopSeq(k)[..j] + TopSeq(k)[j + 1..];
    GoneIs(c, p, t);
    assert WithoutAt(TopSeq(k), TopSeq(Edit.Remove(k, t)), t, PreviousOf(c, p, t), j);
    assert Without(TopSeq(k), TopSeq(Edit.Remove(k, t)), t, PreviousOf(c, p, t));
  }

  /** What is below an element below another one. */
  lemma {:induction false} SubtreeInside(c: Content, p: nat, t: nat)
    requires Distinct(c) && p in Ids(c) && t in Ids(Subtree(c, p).kids)
    ensures t in Ids(c) && Subtree(c, t) == Subtree(Subtree(c, p).kids, t)
  {
    SubtreeIds(c, p);
    match c
    case Mark(_, _, r) => SubtreeInside(r, p, t);
    case Elem(_, i, _, k, _, r) =>
      if i != p {
        if p in Ids(k) {
          SubtreeIds(k, p);
          SubtreeInside(k, p, t);
        } else {
          SubtreeIds(r, p);
          SubtreeInside(r, p, t);
        }
      }
  }

  lemma GoneIs(c: Content, p: nat, t: nat)
    requires Distinct(c) && IsParent(c, p) && t in Top(Below(c, p))
    ensures t in Ids(c) && Gone(Below(c, p), t) == {t} + Ids(Below(c, t)) && t in Gone(Below(c, p), t)
  {
    NoZero(c);
    BelowIds(c, p);
    TopSeqFacts(Below(c, p));
    SubtreeIds(Below(c, p), t);
    if p != 0 { SubtreeInside(c, p, t); }
  }

  // ---- The calls ----

  /** What a call is told about the new element: the parent, the sibling it goes beside, and behind the call the element. */
  lemma AddIs(s: Runs.State, name: string, value: string, f: NodeFlags)
    requires Runs.StateOk(s) && !s.strayed && !(f.child && s.main == 0)
    ensures var x := Runs.Apply(s, Runs.Add(name, value, f));
            var p, rel, t := if f.child then s.main else s.parent, if f.child then s.child else s.main, if f.child then x.child else x.main;
            && NewIn(s.tree, x.tree, p, rel, f.insert, t, StagOf(name, value, f), KidsOf(value, f), EtagOf(name, value))
            && x.parent == s.parent && (if f.child then x.main == s.main else x.child == 0)
  {
    hide Shape, Distinct, StagOf, KidsOf, EtagOf, Added, NewIn, CursorOk, WhereFor;
    var p, rel := if f.child then s.main else s.parent, if f.child then s.child else s.main;
    Runs.CursorRel(s);
    CursorParent(s.tree, s.parent, s.main, s.child);
    Runs.AddFits(s.tree, p, rel, f.insert, s.free, name, value, f);
    AddedIs(s.tree, p, rel, f.insert, s.free, StagOf(name, value, f), KidsOf(value, f), EtagOf(name, value));
  }

  lemma AddKeepsIds(s: Runs.State, name: string, value: string, f: NodeFlags)
    requires Runs.StateOk(s) && !s.strayed && !(f.child && s.main == 0)
    ensures Ids(s.tree) <= Ids(Runs.Apply(s, Runs.Add(name, value, f)).tree)
  {
    hide Runs.StateOk, Runs.Apply, Beside;
    AddIs(s, name, value, f);
  }

  lemma NoAdd(s: Runs.State, name: string, value: string, f: NodeFlags)
    requires f.child && s.main == 0
    ensures Runs.Apply(s, Runs.Add(name, value, f)) == s
  {
  }

  lemma RemoveIs(s: Runs.State, below: bool)
    requires Runs.StateOk(s) && !s.strayed && Runs.Target(s, below) != 0
    ensures var x, p := Runs.Apply(s, Runs.Remove(below)), if below then s.main else s.parent;
            && NoLongerIn(s.tree, x.tree, p, Runs.Target(s, below), if below then x.child else x.main)
            && x.parent == s.parent && (if below then x.main == s.main else x.child == 0)
  {
    hide Shape, Distinct, Removed, NoLongerIn, PreviousOf;
    CursorParent(s.tree, s.parent, s.main, s.child);
    RemovedIs(s.tree, if below then s.main else s.parent, Runs.Target(s, below));
  }

  /** The element has the new content, its parent and its siblings stay, and so does the cursor. */
  lemma TextIs(s: Runs.State, below: bool, data: string, g: NodeFlags)
    requires Runs.StateOk(s) && !s.strayed && Runs.Target(s, below) != 0 && Ids(Below(s.tree, Runs.Target(s, below))) == {}
    ensures var x, t := Runs.Apply(s, Runs.SetText(below, data, g)), Runs.Target(s, below);
            Below(x.tree, t) == DataOf(data, g) && t in Ids(x.tree) && x == s.(tree := x.tree)
  {
    hide Shape, Distinct, DataOf, Opened, Closed, CursorOk;
    var t := Runs.Target(s, below);
    Runs.TargetIn(s, below);
    SubtreeIds(s.tree, t);
    var n := Subtree(s.tree, t);
    WithBelow(s.tree, t, Opened(n), DataOf(data, g), Closed(n));
  }

  // ---- Searching ----

  /** The element has the name that is asked for, or any name will do. */
  predicate Named(c: Content, i: nat, name: string) {
    name == "" || var n := Subtree(c, i); n.Elem? && Match(WordOf(n.stag), name)
  }

  /** The places of a list from which a search behind `t` goes on. */
  function SearchFrom(s: seq<nat>, t: nat): (j: nat)
    ensures j <= |s|
  {
    if t != 0 && t in s then IndexOf(s, t) + 1 else 0
  }

  /** `r` is the first element of the list from the place `from` on that has the name, or 0 when none has it. */
  predicate Finds(c: Content, s: seq<nat>, from: nat, name: string, r: nat) {
    if r == 0 then forall j :: from <= j < |s| ==> !Named(c, s[j], name)
    else exists j :: from <= j < |s| && s[j] == r && Named(c, r, name) && forall k :: from <= k < j ==> !Named(c, s[k], name)
  }

  lemma {:induction false} ListFinds(c: Content, k: Content, s: seq<nat>, from: nat, name: string)
    requires from <= |s| && s[from..] == TopSeq(k) && Distinct(k) && forall i :: i in Top(k) ==> SameTag(c, k, i)
    ensures Finds(c, s, from, name, FirstNamed(k, name))
    decreases k
  {
    hide WordOf, Match;
    match k
    case End(_) =>
    case Mark(_, _, r) =>
      forall i | i in Top(r) ensures SameTag(c, r, i) { assert i in Top(k) && SameTag(c, k, i); }
      ListFinds(c, r, s, from, name);
    case Elem(_, id, g, _, _, r) =>
      assert id in Top(k) && SameTag(c, k, id);
      assert s[from] == s[from..][0] == id && s[from + 1..] == s[from..][1..] == TopSeq(r);
      assert Named(c, id, name) <==> name == "" || Match(WordOf(g), name);
      if !Named(c, id, name) {
        TopSeqFacts(r);
        forall i | i in Top(r) ensures SameTag(c, r, i) { assert i in Top(k) && SameTag(c, k, i); }
        ListFinds(c, r, s, from + 1, name);
      }
  }

  lemma {:induction false} RestSeq(k: Content, t: nat)
    requires t in Top(k) && Distinct(k)
    ensures t in Ids(k) && Subtree(k, t).Elem? && IndexOf(TopSeq(k), t) < |TopSeq(k)|
    ensures TopSeq(Subtree(k, t).rest) == TopSeq(k)[IndexOf(TopSeq(k), t) + 1..]
  {
    hide IndexOf;
    TopSeqFacts(k);
    match k
    case Mark(_, _, r) => RestSeq(r, t);
    case Elem(_, i, _, _, _, r) =>
      TopSeqFacts(r);
      if i == t {
        IndexOfFirst(k);
      } else {
        RestSeq(r, t);
        IndexOfBehind(k, t);
      }
  }

  /** The search among the children of `p` behind `t` finds the first one with the name, and fails when none has it. */
  lemma SearchIs(c: Content, p: nat, t: nat, name: string)
    requires Distinct(c) && IsParent(c, p) && (t != 0 ==> t in Top(Below(c, p)))
    ensures var s := TopSeq(Below(c, p)); Finds(c, s, SearchFrom(s, t), name, FirstNamed(SiblingsAfter(c, p, t), name))
  {
    hide IndexOf, Distinct, Below, FirstNamed, Finds;
    var k := Below(c, p);
    BelowDistinct(c, p);
    TopSeqFacts(k);
    if t != 0 {
      RestSeq(k, t);
      RestDistinct(k, t);
    } else {
      assert TopSeq(k)[0..] == TopSeq(k);
    }
    var l := SiblingsAfter(c, p, t);
    forall i | i in Top(l) ensures SameTag(c, l, i) {
      if t != 0 { RestIn(k, t, i); }
      SubtreeTag(c, p, i);
    }
    ListFinds(c, l, TopSeq(k), SearchFrom(TopSeq(k), t), name);
  }

  // ---- Reading a new element ----

  lemma {:induction false} NameEndIs(s: string, i: nat, b: nat)
    requires i <= b < |s| && EndAnyName(s[b]) && forall k :: i <= k < b ==> !EndAnyName(s[k])
    ensures NameEnd(s, i) == b
    decreases b - i
  {
    if i < b { NameEndIs(s, i + 1, b); }
  }

  /** The name of a new element is read back. */
  lemma NewName(doc: string, q: nat, name: string, value: string, f: NodeFlags)
    requires At(doc, q, StagOf(name, value, f)) && name != "" && forall k :: 0 <= k < |name| ==> !EndAnyName(name[k])
    ensures q + 1 <= |doc| && NameFrom(doc, q + 1) == name
  {
    var s := StagOf(name, value, f);
    var t := s[1 + |name|..];
    assert s == "<" + name + t && t != "" && EndAnyName(t[0]);
    AtSplit3(doc, q, "<", name, t);
    assert doc[q + 1..q + 1 + |name|] == name;
    forall k | q + 1 <= k < q + 1 + |name| ensures !EndAnyName(doc[k]) { assert doc[k] == name[k - q - 1]; }
    assert doc[q + 1 + |name|..q + 1 + |name| + |t|][0] == t[0];
    NameEndIs(doc, q + 1, q + 1 + |name|);
    assert SkipWhite(doc, q + 1) == q + 1 by { assert !White(doc[q + 1]); }
  }

  /** What is read of an element that has been added: the name and the text that it was added with. */
  lemma GetAfterAdd(table: seq<string>, doc: string, elem: Elems, free: nat, c: Content, id: nat, name: string, value: string, f: NodeFlags)
    requires Represents(doc, elem, free, c) && HasElem(c, id, StagOf(name, value, f), KidsOf(value, f), EtagOf(name, value))
    requires Escaping.KnowsXml(table) && (f.cdata || !f.refs) && name != "" && forall k :: 0 <= k < |name| ==> !EndAnyName(name[k])
    ensures id < |elem| && 0 <= elem[id].nStart < |doc| && NameFrom(doc, elem[id].nStart + 1) == name
    ensures elem[id].IsEmptyElement() <==> value == ""
    ensures value != "" ==> 0 <= elem[id].StartContent() <= elem[id].StartContent() + elem[id].ContentLen() <= |doc|
                            && GetData.RangeData(table, doc, elem[id].StartContent(), elem[id].StartContent() + elem[id].ContentLen()) == GetData.Fetched(value)
  {
    hide Offsets, Linked, Shape, DataOf, Escaping.KnowsXml, GetData.RangeData, NameFrom, EndAnyName, StagOf, KidsOf, EtagOf, Before, After, Render, ShapedTags, Distinct;
    ElementAt(doc, elem, free, c, id);
    var s, k, e := StagOf(name, value, f), KidsOf(value, f), EtagOf(name, value);
    var b, a := Before(c, id), After(c, id);
    NewParts(name, value, f);
    ThreeParts(doc, b, s, Render(k), e, a);
    NewName(doc, |b|, name, value, f);
    if value != "" { GetData.DataBack(table, doc, |b| + |s|, value, f); }
  }

  lemma NewParts(name: string, value: string, f: NodeFlags)
    ensures 0 < |StagOf(name, value, f)| && (EtagOf(name, value) == "" <==> value == "")
    ensures KidsOf(value, f) == if value != "" then DataOf(value, f) else End("")
  {
    hide DataOf;
  }

  lemma ThreeParts(doc: string, b: string, s: string, k: string, e: string, a: string)
    requires doc == b + (s + k + e) + a
    ensures At(doc, |b|, s) && At(doc, |b| + |s|, k) && |b| + |s| + |k| + |e| <= |doc|
  {
    assert doc == b + s + (k + e + a);
    MidAt(b, s, k + e + a);
    assert doc == (b + s) + k + (e + a);
    MidAt(b + s, k, e + a);
  }
}
