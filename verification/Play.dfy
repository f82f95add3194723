/** Sessions on the object itself: any sequence of calls, from a text that is read to the text that the calls leave. */
module Playing {
  import opened Content
  import opened Index
  import opened ParseIndex
  import opened ParseState
  import opened Repairs
  import opened Represent
  import opened Position
  import opened Edit
  import opened AddElem
  import opened NewElem
  import opened Calls
  import opened Runs
  import opened InStep
  import SavedPositions
  import SavedRuns
  import opened Markup

  /** One call; `Move` stands for the calls that move the cursor. */
  method Call(m: CMarkup, op: Op)
    requires m.Valid() && m.Saving() && Allowed(m.View(), op) && !Apply(m.View(), op).strayed
    modifies m`doc, m`elem, m`iPosFree, m`iPosDeleted, m`iPosParent, m`iPos, m`iPosChild, m`tree, m.savedPos`saved, m.savedPos.Buckets()
    ensures m.Valid() && m.Saving() && m.View() == Apply(old(m.View()), op)
    ensures m.savedPos.saved == SavedRuns.SavedStep(old(m.savedPos.saved), old(m.View()), op)
  {
    hide CMarkup.Saving, Represents, Marked, Apply, SavedPositions.SavedIn;
    match op
    case Add(name, value, f) => var _ := m.AddElem(name, value, f);
    case SetText(below, data, f) => var _ := m.SetData(below, data, f);
    case Remove(below) =>
      if below { var _ := m.RemoveChildElem(); } else { var _ := m.RemoveElem(); }
    case SetAttr(below, attrib, text, refs) => var _ := m.SetAttrib(below, attrib, text, refs);
    case Move(parent, main, child) =>
      MoveIs(m.View(), op);
      m.iPosParent, m.iPos, m.iPosChild := parent, main, child;
      m.StillSaving();
  }

  /** Any sequence of calls in which none writes outside the tag that it is to change: the object goes through the states
      that the specification goes through, and of the saved positions those vanish whose elements have gone. */
  method Play(m: CMarkup, ops: seq<Op>)
    requires m.Valid() && m.Saving() && AllAllowed(m.View(), ops) && !ApplyAll(m.View(), ops).strayed
    modifies m`doc, m`elem, m`iPosFree, m`iPosDeleted, m`iPosParent, m`iPos, m`iPosChild, m`tree, m.savedPos`saved, m.savedPos.Buckets()
    ensures m.Valid() && m.Saving() && m.View() == ApplyAll(old(m.View()), ops)
    ensures m.savedPos.saved == SavedRuns.SavedRun(old(m.savedPos.saved), old(m.View()), ops)
    decreases |ops|
  {
    hide CMarkup.Saving, CMarkup.Valid, Apply, Allowed, SavedRuns.SavedStep;
    if ops != [] {
      StraysOn(Apply(m.View(), ops[0]), ops[1..]);
      Call(m, ops[0]);
      Play(m, ops[1..]);
    }
  }

  /** A run that has strayed has strayed for good. */
  lemma {:induction false} StraysOn(s: State, ops: seq<Op>)
    ensures s.strayed ==> ApplyAll(s, ops).strayed
    decreases |ops|
  {
    hide Apply;
    if ops != [] && s.strayed {
      StrayStays(s, ops[0]);
      StraysOn(Apply(s, ops[0]), ops[1..]);
    }
  }

  lemma StrayStays(s: State, op: Op)
    requires s.strayed
    ensures Apply(s, op) == s
  {
  }

  /** An element is added, and then a child: the second one stands below the first one, and nothing else does, and the
      first one stands where it was put. */
  method AddTwo(m: CMarkup, a: string, x: string, f: NodeFlags, b: string, y: string, g: NodeFlags) returns (first: nat, second: nat)
    requires m.Valid() && m.Saving() && !f.child && g.child
    modifies m`doc, m`elem, m`iPosFree, m`iPosParent, m`iPos, m`iPosChild, m`tree
    ensures m.Valid() && m.iPosParent == old(m.iPosParent) && m.iPos == first && m.iPosChild == second
    ensures first !in old(Ids(m.tree)) && second !in old(Ids(m.tree)) && first in Top(Below(m.tree, m.iPosParent)) && TopSeq(Below(m.tree, first)) == [second]
    ensures HasElem(m.tree, second, StagOf(b, y, g), KidsOf(y, g), EtagOf(b, y))
  {
    hide CMarkup.Saving, Represents, Marked, Apply, StagOf, KidsOf, EtagOf, HasElem;
    var _ := m.AddElem(a, x, f);
    first := m.iPos;
    ghost var c, kids := m.tree, KidsOf(x, f);
    assert Below(c, first) == kids && first in Ids(c);
    NoChildrenYet(a, x, f);
    var ok := m.AddElem(b, y, g);
    second := m.iPosChild;
    OnlyChild(c, m.tree, first, g.insert, second, StagOf(b, y, g), KidsOf(y, g), EtagOf(b, y));
  }

  lemma NoChildrenYet(name: string, value: string, f: NodeFlags)
    ensures TopSeq(KidsOf(value, f)) == []
  {
    hide KidsOf, Represent.Shape;
    NewShape(name, value, f);
    NoIds(KidsOf(value, f));
  }

  lemma OnlyChild(c: Content, c': Content, p: nat, insert: bool, t: nat, s: string, k: Content, e: string)
    requires NewIn(c, c', p, 0, insert, t, s, k, e) && TopSeq(Below(c, p)) == []
    ensures TopSeq(Below(c', p)) == [t] && HasElem(c', t, s, k, e)
  {
  }

  // ---- From text to text ----

  /** What a session begins with. */
  function ReadState(doc: string): State {
    State(Repaired(doc), 0, 0, 0, 1 + Count(Repaired(doc)), false)
  }

  lemma ReadGood(doc: string, elem: Elems, free: nat)
    requires ParseDoc(doc) == Done(Erase(Repaired(doc)), |doc|) && Represents(doc, elem, free, Repaired(doc)) && free == 1 + Count(Repaired(doc))
    ensures StateOk(ReadState(doc)) && Good(ReadState(doc))
  {
    hide ParseDoc, WFDoc, Linked, Offsets, Shape, Distinct, Repaired, Erase;
    ParsedIff(Repaired(doc));
  }

  /** A text is read, any calls are made whose guards hold, and another object reads the text that they leave: its index
      is the one that the calls have maintained, up to the numbering of slots. */
  method Session(szDoc: string, ops: seq<Op>) returns (m: CMarkup, n: CMarkup)
    requires ParseDoc(szDoc).Done? && AllAllowed(ReadState(szDoc), ops) && AllGuarded(ReadState(szDoc), ops)
    ensures fresh(m) && m.Valid() && m.View() == ApplyAll(ReadState(szDoc), ops) && m.doc == Render(m.tree)
    ensures fresh(n) && n.doc == m.doc && 0 < |n.elem| && !n.elem[0].illFormed && SameIndex(m.elem, m.tree, n.elem, n.tree)
  {
    hide ParseDoc, AllAllowed, AllGuarded, ApplyAll, Repaired, Marked, CursorOk, SameIndex, WFDoc, Render, Shape, Linked, Offsets, Distinct;
    m := new CMarkup(szDoc);
    assert m.iPosFree == 1 + Count(m.tree) by { IndexedFree(m.doc, m.elem, m.iPosFree, m.tree); }
    ReadGood(szDoc, m.elem, m.iPosFree);
    RunGood(ReadState(szDoc), ops);
    Play(m, ops);
    n := m.Reparse();
  }

  lemma IndexedFree(doc: string, elem: Elems, free: nat, c: Content)
    requires Indexed(doc, elem, free, c)
    ensures free == 1 + Count(c)
  {
  }

  lemma MoveIs(s: State, op: Op)
    requires op.Move? && !s.strayed
    ensures Apply(s, op) == State(s.tree, op.parent, op.main, op.child, s.free, false)
  {
  }
}
