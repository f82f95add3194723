/** Runs of edits: what each call does to the content and the cursor, and exactly which calls keep a
    well-formed document well-formed. */
module Runs {
  import opened Chars
  import opened Content
  import opened Index
  import opened Edit
  import opened Effect
  import opened Represent
  import opened Position
  import opened AddElem
  import opened NewElem
  import opened SetData
  import opened RemoveElem
  import opened SetAttrib
  import opened InStep
  import Escaping

  /** The content, the cursor and the next free slot.  When a call has strayed, that is, has written outside the start
      tag that it was to change, nothing more is said of the document. */
  datatype State = State(tree: Content, parent: nat, main: nat, child: nat, free: nat, strayed: bool)

  /** The calls that change the document, and the moves of the cursor.  `below` stands for the calls that
      work on the child position. */
  datatype Op =
    | Add(name: string, value: string, f: NodeFlags)
    | SetText(below: bool, data: string, g: NodeFlags)
    | Remove(below: bool)
    | SetAttr(below: bool, attrib: string, text: string, refs: bool)
    | Move(parent: nat, main: nat, child: nat)

  /** The element a call works on. */
  function Target(s: State, below: bool): nat {
    if below then s.child else s.main
  }

  /** What SetAttrib writes. */
  function WriteOf(s: State, op: Op): Write
    requires op.SetAttr?
  {
    WriteIn(s.tree, Target(s, op.below), op.attrib, Escaping.Escape(op.text, true, op.refs))
  }

  function Apply(s: State, op: Op): State {
    if s.strayed then s else
    match op
    case Add(name, value, f) =>
      if f.child && s.main == 0 then s else
      var p, rel := if f.child then s.main else s.parent, if f.child then s.child else s.main;
      var c := Added(s.tree, p, WhereFor(s.tree, p, rel, f.insert), s.free, StagOf(name, value, f), KidsOf(value, f), EtagOf(name, value));
      if f.child then State(c, s.parent, s.main, s.free, s.free + 1, false) else State(c, p, s.free, 0, s.free + 1, false)
    case SetText(below, data, g) =>
      var p := Target(s, below);
      if p == 0 || Ids(Below(s.tree, p)) != {} then s else s.(tree := Filled(s.tree, p, DataOf(data, g)))
    case Remove(below) =>
      if Target(s, below) == 0 then s
      else if below then State(Removed(s.tree, s.main, s.child), s.parent, s.main, PreviousOf(s.tree, s.main, s.child), s.free, false)
      else State(Removed(s.tree, s.parent, s.main), s.parent, PreviousOf(s.tree, s.parent, s.main), 0, s.free, false)
    case SetAttr(below, _, _, _) =>
      var p := Target(s, below);
      if p == 0 || s.main == 0 then s
      else if Strays(s.tree, p, WriteOf(s, op)) then s.(strayed := true)
      else s.(tree := Edited(s.tree, p, WriteOf(s, op)))
    case Move(parent, main, child) =>
      State(s.tree, parent, main, child, s.free, false)
  }

  /** What holds of the state of a document whose index represents it. */
  predicate StateOk(s: State) {
    && Shape(s.tree) && Distinct(s.tree) && CursorOk(s.tree, s.parent, s.main, s.child)
    && s.free != 0 && SlotsBelow(s.tree, s.free)
  }

  /** The cursor moves to a place in the document. */
  predicate Allowed(s: State, op: Op) {
    op.Move? ==> CursorOk(s.tree, op.parent, op.main, op.child)
  }

  /** The tag of an element that gets content can be split, if it must be. */
  predicate Splits(c: Content, p: nat) {
    var n := Subtree(c, p);
    p != 0 && n.Elem? && n.etag == "" ==> CanSplit(n.stag)
  }

  /** The pieces that a call writes fit together with the tags around them. */
  predicate Fits(s: State, op: Op) {
    match op
    case Add(name, value, f) =>
      (f.child && s.main == 0) ||
      (ElemOk(StagOf(name, value, f), KidsOf(value, f), EtagOf(name, value)) && Splits(s.tree, if f.child then s.main else s.parent))
    case SetText(below, _, _) =>
      var p := Target(s, below);
      p == 0 || Ids(Below(s.tree, p)) != {} || Splits(s.tree, p)
    case SetAttr(below, _, _, _) =>
      var p := Target(s, below);
      p == 0 || s.main == 0 || KeepsTag(s.tree, p, WriteOf(s, op))
    case _ => true
  }

  /** The call removes the first element of the document, behind which, after nothing but white space, an instruction
      `<?>` stands: it comes to the start of the document, where it is not complete. */
  predicate Uncovers(s: State, op: Op) {
    op.Remove? &&
    var t, p, c := Target(s, op.below), if op.below then s.main else s.parent, s.tree;
    t != 0 && p == 0 && c.Elem? && c.id == t && c.text == "" && c.rest.Mark? && AllWhite(c.rest.text) && "<?>" <= c.rest.mark
  }

  /** The call puts an element in front of an instruction that begins with `<?>` at the start of the document: there
      it ended later than it does anywhere else. */
  predicate Covers(s: State, op: Op) {
    op.Add? && !(op.f.child && s.main == 0) && !Quiet(Render(s.tree)) &&
    var p, rel := if op.f.child then s.main else s.parent, if op.f.child then s.child else s.main;
    p == 0 && WhereFor(s.tree, p, rel, op.f.insert).Head?
  }

  /** The condition, to be checked before the call, under which the document stays well-formed. */
  predicate Guard(s: State, op: Op) {
    Fits(s, op) && !Uncovers(s, op) && !Covers(s, op)
  }

  /** The document is well-formed, and no call has strayed. */
  predicate Good(s: State) {
    !s.strayed && WFDoc(s.tree)
  }

  lemma TargetIn(s: State, below: bool)
    requires StateOk(s) && Target(s, below) != 0
    ensures Target(s, below) in Ids(s.tree) && IsParent(s.tree, s.main)
    ensures CanRemove(s.tree, if below then s.main else s.parent, Target(s, below))
  {
    hide Shape, Distinct;
    CursorParent(s.tree, s.parent, s.main, s.child);
    var p := if below then s.main else s.parent;
    Links.TopSeqFacts(Below(s.tree, p));
    BelowIds(s.tree, p);
  }

  lemma AddGuard(s: State, op: Op)
    requires StateOk(s) && !s.strayed && WF(s.tree) && op.Add?
    ensures WF(Apply(s, op).tree) <==> Fits(s, op)
  {
    hide StagOf, KidsOf, EtagOf, Added, ElemOk, Shape, Distinct, Ids, CanSplit, WF, Below, Top, ShapedTags;
    var f := op.f;
    if !(f.child && s.main == 0) {
      CursorParent(s.tree, s.parent, s.main, s.child);
      var p, rel := if f.child then s.main else s.parent, if f.child then s.child else s.main;
      AddFits(s.tree, p, rel, f.insert, s.free, op.name, op.value, f);
      AddedWF(s.tree, p, WhereFor(s.tree, p, rel, f.insert), s.free, StagOf(op.name, op.value, f), KidsOf(op.value, f), EtagOf(op.name, op.value));
    }
  }

  lemma AddFits(c: Content, p: nat, rel: nat, insert: bool, id: nat, name: string, value: string, f: NodeFlags)
    requires Shape(c) && Distinct(c) && IsParent(c, p) && (rel != 0 ==> rel in Top(Below(c, p))) && id != 0 && id !in Ids(c)
    ensures CanAdd(c, p, WhereFor(c, p, rel, insert), id, StagOf(name, value, f), KidsOf(value, f), EtagOf(name, value))
  {
    hide StagOf, KidsOf, EtagOf, Shape, ShapedTags, Distinct;
    NewShape(name, value, f);
    if rel != 0 { HasChild(Below(c, p), rel); }
  }

  lemma HasChild(k: Content, t: nat)
    requires t in Top(k)
    ensures k != End("")
  {
  }

  lemma TextGuard(s: State, op: Op)
    requires StateOk(s) && !s.strayed && WF(s.tree) && op.SetText?
    ensures WF(Apply(s, op).tree) <==> Fits(s, op)
  {
    hide DataOf, Shape, Distinct, CanSplit, WF, Top, Opened, Closed;
    var p := Target(s, op.below);
    if p != 0 && Ids(Below(s.tree, p)) == {} {
      TargetIn(s, op.below);
      DataWF(op.data, op.g);
      WFFilled(s.tree, p, DataOf(op.data, op.g));
    }
  }

  lemma RemoveKeeps(s: State, op: Op)
    requires StateOk(s) && !s.strayed && WF(s.tree) && op.Remove?
    ensures WF(Apply(s, op).tree)
  {
    hide Shape, Distinct, Edit.Remove;
    if Target(s, op.below) != 0 {
      TargetIn(s, op.below);
      RemovedWF(s.tree, if op.below then s.main else s.parent, Target(s, op.below));
    }
  }

  lemma RemovedWF(c: Content, p: nat, t: nat)
    requires CanRemove(c, p, t) && WF(c)
    ensures WF(Removed(c, p, t))
  {
    hide IsMark, IsStart, Closes, Edit.Remove;
    NoZero(c);
    if p != 0 {
      WFSubtree(c, p);
      var n := Subtree(c, p);
      HasKids(c, p, t);
      WFRemove(n.kids, t);
      WFWith(c, p, n.stag, Edit.Remove(n.kids, t), n.etag);
    } else {
      WFRemove(c, t);
    }
  }

  lemma AttrGuard(s: State, op: Op)
    requires StateOk(s) && !s.strayed && WF(s.tree) && op.SetAttr?
    ensures !Apply(s, op).strayed && WF(Apply(s, op).tree) <==> Fits(s, op)
  {
    hide Shape, Distinct, WF, WriteIn, Strays, KeepsTag, Edited;
    var p := Target(s, op.below);
    if p != 0 && s.main != 0 {
      TargetIn(s, op.below);
      EditedWF(s.tree, p, WriteOf(s, op));
    }
  }

  /** A call keeps well-formed content well-formed exactly when its pieces fit. */
  lemma ApplyWF(s: State, op: Op)
    requires StateOk(s) && !s.strayed && WF(s.tree) && Allowed(s, op)
    ensures !Apply(s, op).strayed && WF(Apply(s, op).tree) <==> Fits(s, op)
  {
    hide Shape, Distinct, WF;
    match op
    case Add(_, _, _) => AddGuard(s, op);
    case SetText(_, _, _) => TextGuard(s, op);
    case Remove(_) => RemoveKeeps(s, op);
    case SetAttr(_, _, _, _) => AttrGuard(s, op);
    case Move(_, _, _) =>
  }

  // ---- The start of the document ----

  lemma {:induction false} WithHead(c: Content, p: nat, s: string, k: Content, e: string)
    ensures HeadMark(With(c, p, s, k, e)) <==> HeadMark(c)
  {
  }

  lemma {:induction false} InsertedHead(c: Content, w: Where, id: nat, s: string, n: Content, e: string)
    ensures HeadMark(Insert(c, w, id, s, n, e)) ==> HeadMark(c)
  {
  }

  lemma RemovedHead(c: Content, t: nat)
    ensures HeadMark(Edit.Remove(c, t)) <==>
            HeadMark(c) || (c.Elem? && c.id == t && c.text == "" && c.rest.Mark? && AllWhite(c.rest.text) && "<?>" <= c.rest.mark)
  {
  }

  lemma HeadOfRemove(s: State, op: Op)
    requires StateOk(s) && !s.strayed && !HeadMark(s.tree) && op.Remove?
    ensures HeadMark(Apply(s, op).tree) <==> Uncovers(s, op)
  {
    hide With, Edit.Remove, HeadMark, Shape, Distinct;
    var c := s.tree;
    if Target(s, op.below) != 0 {
      TargetIn(s, op.below);
      var p, t := if op.below then s.main else s.parent, Target(s, op.below);
      if p == 0 {
        RemovedHead(c, t);
      } else {
        WithHead(c, p, Subtree(c, p).stag, Edit.Remove(Subtree(c, p).kids, t), Subtree(c, p).etag);
      }
    }
  }

  lemma HeadOfAdd(s: State, op: Op)
    requires StateOk(s) && !s.strayed && !HeadMark(s.tree) && op.Add?
    ensures !HeadMark(Apply(s, op).tree)
  {
    hide StagOf, KidsOf, EtagOf, Insert, With, Opened, Closed, HeadMark, Shape, Distinct, WhereFor;
    forall p, t, k, e { WithHead(s.tree, p, t, k, e); }
    forall w, id, t, n, e { InsertedHead(s.tree, w, id, t, n, e); }
  }

  /** Only the removal of an element brings an instruction `<?>` to the start of the document. */
  lemma HeadAfter(s: State, op: Op)
    requires StateOk(s) && !s.strayed && !HeadMark(s.tree)
    ensures HeadMark(Apply(s, op).tree) <==> Uncovers(s, op)
  {
    hide DataOf, With, Opened, Closed, HeadMark, Shape, Distinct, WriteIn, Strays, NewTag, Within;
    match op
    case Add(_, _, _) => HeadOfAdd(s, op);
    case Remove(_) => HeadOfRemove(s, op);
    case Move(_, _, _) =>
    case _ => forall p, t, k, e { WithHead(s.tree, p, t, k, e); }
  }

  /** A call whose pieces fit makes a document begin with `<?>` exactly when it uncovers such an instruction. */
  lemma QuietAfter(s: State, op: Op)
    requires StateOk(s) && !s.strayed && WF(s.tree) && Quiet(Render(s.tree)) && Allowed(s, op) && Fits(s, op)
    ensures Quiet(Render(Apply(s, op).tree)) <==> !Uncovers(s, op)
  {
    hide StateOk, Allowed, Apply, WF, Fits, Uncovers, Render, Quiet;
    var c := Apply(s, op).tree;
    ApplyWF(s, op);
    if HeadMark(s.tree) { HeadRenders(s.tree); }
    HeadAfter(s, op);
    if HeadMark(c) {
      HeadRenders(c);
    } else if !Quiet(Render(c)) {
      NotQuiet(c);
    }
  }

  lemma NotQuiet(c: Content)
    requires WF(c) && !Quiet(Render(c))
    ensures HeadMark(c)
  {
    hide WF, Render;
    FirstInstruction(c);
  }

  /** A call on a well-formed document that does not begin with `<?>`. */
  lemma QuietGood(s: State, op: Op)
    requires StateOk(s) && !s.strayed && WF(s.tree) && Quiet(Render(s.tree)) && Allowed(s, op)
    ensures Good(Apply(s, op)) <==> Guard(s, op)
  {
    hide StateOk, Allowed, Apply, WF, Fits, Uncovers, HeadMark, Render;
    var c := Apply(s, op).tree;
    ApplyWF(s, op);
    if HeadMark(s.tree) { HeadRenders(s.tree); }
    HeadAfter(s, op);
    if Uncovers(s, op) { RemoveFits(s, op); }
    if WF(c) {
      HeadOfWF(c);
    } else if WFDoc(c) && !Quiet(Render(c)) {
      HeadOfDoc(c);
    }
  }

  lemma RemoveFits(s: State, op: Op)
    requires Uncovers(s, op)
    ensures Fits(s, op)
  {
  }

  /** The state with the instruction at the start of the document left out. */
  function Beheaded(s: State): State
    requires s.tree.Mark?
  {
    s.(tree := s.tree.rest)
  }

  lemma BeheadedOk(s: State, op: Op)
    requires StateOk(s) && s.tree.Mark?
    ensures StateOk(Beheaded(s)) && (Allowed(s, op) <==> Allowed(Beheaded(s), op))
  {
  }

  lemma BeheadedFits(s: State, op: Op)
    requires StateOk(s) && s.tree.Mark? && !op.SetAttr?
    ensures Fits(s, op) <==> Fits(Beheaded(s), op)
  {
    hide StagOf, KidsOf, EtagOf, ElemOk, CanSplit;
  }

  /** All calls but one that puts an element in front of it leave the instruction alone. */
  lemma BeheadedApply(s: State, op: Op)
    requires StateOk(s) && !s.strayed && s.tree.Mark? && !Quiet(Render(s.tree)) && !Covers(s, op) && !op.SetAttr?
    ensures Apply(s, op).tree == Mark(s.tree.text, s.tree.mark, Apply(Beheaded(s), op).tree) && !Apply(s, op).strayed && !Apply(Beheaded(s), op).strayed
  {
    hide StagOf, KidsOf, EtagOf, DataOf, Opened, Closed, IndexOf, CursorOk, Shape, Distinct, Render;
    match op
    case Add(_, _, _) => BeheadedAdd(s, op);
    case SetText(_, _, _) =>
    case Remove(_) =>
    case Move(_, _, _) =>
  }

  lemma BeheadedAdd(s: State, op: Op)
    requires StateOk(s) && !s.strayed && s.tree.Mark? && !Quiet(Render(s.tree)) && !Covers(s, op) && op.Add?
    ensures Apply(s, op).tree == Mark(s.tree.text, s.tree.mark, Apply(Beheaded(s), op).tree) && !Apply(s, op).strayed && !Apply(Beheaded(s), op).strayed
  {
    hide StagOf, KidsOf, EtagOf, Opened, Closed, Shape, Distinct, Render;
    CursorParent(s.tree, s.parent, s.main, s.child);
  }

  /** A call on a document that begins with an instruction `<?>...?>`. */
  lemma LongGood(s: State, op: Op)
    requires StateOk(s) && !s.strayed && WFDoc(s.tree) && !Quiet(Render(s.tree)) && Allowed(s, op)
    ensures Good(Apply(s, op)) <==> Guard(s, op)
  {
    hide StateOk, Allowed, Apply, WF, Fits, Render, FirstPI, Covers;
    var c := s.tree;
    HeadOfDoc(c);
    if Covers(s, op) {
      CoveredLost(s, op);
    } else if op.SetAttr? {
      LongAttr(s, op);
    } else {
      BeheadedOk(s, op);
      ApplyWF(Beheaded(s), op);
      BeheadedFits(s, op);
      BeheadedApply(s, op);
      HeadRenders(Apply(s, op).tree);
    }
  }

  lemma LongAttr(s: State, op: Op)
    requires StateOk(s) && !s.strayed && WFDoc(s.tree) && HeadMark(s.tree) && op.SetAttr?
    ensures Good(Apply(s, op)) <==> Fits(s, op)
  {
    hide Shape, Distinct, WF, WriteIn, Same, NewTag, Within, Render, TagFits, FirstPI, Ids;
    var c, p := s.tree, Target(s, op.below);
    HeadRenders(c);
    if p != 0 && s.main != 0 {
      TargetIn(s, op.below);
      var w := WriteOf(s, op);
      assert p in Ids(c.rest) && Subtree(c, p) == Subtree(c.rest, p) by { MarkIds(c, p); }
      RestartedWF(c.rest, p, NewTag(c, p, w));
      if Within(c, p, w) {
        assert Restarted(c, p, NewTag(c, p, w)) == Mark(c.text, c.mark, Restarted(c.rest, p, NewTag(c, p, w)));
        HeadRenders(Restarted(c, p, NewTag(c, p, w)));
      }
    }
  }

  lemma MarkIds(c: Content, p: nat)
    requires c.Mark?
    ensures (p in Ids(c) <==> p in Ids(c.rest)) && Subtree(c, p) == Subtree(c.rest, p)
  {
  }

  lemma CoveredLost(s: State, op: Op)
    requires StateOk(s) && !s.strayed && WFDoc(s.tree) && HeadMark(s.tree) && Covers(s, op)
    ensures !Good(Apply(s, op))
  {
    hide StagOf, KidsOf, EtagOf, ElemOk, Shape, Distinct, Render, FirstPI, IsMark, IsStart, Closes;
    HeadRenders(s.tree);
    HeadShort(s.tree.mark);
    var c := Apply(s, op).tree;
    assert c.Elem? && c.rest == Edit.SetText(s.tree, EOL);
    assert WF(c) ==> WF(c.rest);
  }

  /** A call keeps a well-formed document well-formed, and writes where it should, exactly when its guard holds. */
  lemma ApplyGood(s: State, op: Op)
    requires StateOk(s) && Good(s) && Allowed(s, op)
    ensures Good(Apply(s, op)) <==> Guard(s, op)
  {
    hide StateOk, Allowed, Apply, WF, Guard, Render, FirstPI;
    if Quiet(Render(s.tree)) {
      QuietGood(s, op);
    } else {
      LongGood(s, op);
    }
  }

  // ---- Runs ----

  lemma AddKeepsOk(s: State, op: Op)
    requires StateOk(s) && !s.strayed && op.Add?
    ensures StateOk(Apply(s, op))
  {
    hide StagOf, KidsOf, EtagOf, Added, Shape, Distinct, Ids, Below, Top, ShapedTags, CursorOk;
    var f := op.f;
    if !(f.child && s.main == 0) {
      CursorParent(s.tree, s.parent, s.main, s.child);
      var p, rel := if f.child then s.main else s.parent, if f.child then s.child else s.main;
      var w, st, k, et := WhereFor(s.tree, p, rel, f.insert), StagOf(op.name, op.value, f), KidsOf(op.value, f), EtagOf(op.name, op.value);
      CursorRel(s);
      AddFits(s.tree, p, rel, f.insert, s.free, op.name, op.value, f);
      AddedShape(s.tree, p, w, s.free, st, k, et);
      AddedSlots(s.tree, p, w, s.free, st, k, et);
      CursorAdded(s.tree, s.parent, s.main, s.child, f.child, w, s.free, st, k, et);
    }
  }

  lemma CursorRel(s: State)
    requires CursorOk(s.tree, s.parent, s.main, s.child)
    ensures (s.main != 0 ==> s.main in Top(Below(s.tree, s.parent))) && (s.child != 0 ==> s.child in Top(Below(s.tree, s.main)))
    ensures IsParent(s.tree, s.parent)
  {
  }

  lemma TextKeepsOk(s: State, op: Op)
    requires StateOk(s) && !s.strayed && op.SetText?
    ensures StateOk(Apply(s, op))
  {
    hide DataOf, Shape, Distinct, Filled, CursorOk;
    var p := Target(s, op.below);
    if p != 0 && Ids(Below(s.tree, p)) == {} {
      TargetIn(s, op.below);
      DataShape(op.data, op.g);
      SubtreeShape(s.tree, p);
      FilledShape(s.tree, p, DataOf(op.data, op.g));
      FilledSlots(s.tree, p, DataOf(op.data, op.g));
      CursorFilled(s.tree, p, DataOf(op.data, op.g), s.parent, s.main, s.child);
    }
  }

  lemma RemoveKeepsOk(s: State, op: Op)
    requires StateOk(s) && !s.strayed && op.Remove?
    ensures StateOk(Apply(s, op))
  {
    hide Shape, Distinct, Removed, CursorOk, Ids, IndexOf;
    if Target(s, op.below) != 0 {
      TargetIn(s, op.below);
      var p := if op.below then s.main else s.parent;
      RemovedShape(s.tree, p, Target(s, op.below));
      RemovedSlots(s.tree, p, Target(s, op.below));
      CursorRemoved(s.tree, s.parent, s.main, s.child, op.below);
    }
  }

  lemma AttrKeepsOk(s: State, op: Op)
    requires StateOk(s) && op.SetAttr?
    ensures StateOk(Apply(s, op))
  {
    hide Shape, Distinct, CursorOk, WriteIn, Restarted, Strays, NewTag;
    var p := Target(s, op.below);
    if p != 0 && s.main != 0 {
      TargetIn(s, op.below);
      var w := WriteOf(s, op);
      if Within(s.tree, p, w) {
        EditedText(s.tree, p, w);
        WriteLong(s.tree, p, op.attrib, Escaping.Escape(op.text, true, op.refs));
        RestartedShape(s.tree, p, NewTag(s.tree, p, w));
        RestartedSlots(s.tree, p, NewTag(s.tree, p, w));
        CursorRestarted(s.tree, p, NewTag(s.tree, p, w), s.parent, s.main, s.child);
      }
    }
  }

  lemma ApplyOk(s: State, op: Op)
    requires StateOk(s) && Allowed(s, op)
    ensures StateOk(Apply(s, op))
  {
    if !s.strayed {
      match op
      case Add(_, _, _) => AddKeepsOk(s, op);
      case SetText(_, _, _) => TextKeepsOk(s, op);
      case Remove(_) => RemoveKeepsOk(s, op);
      case SetAttr(_, _, _, _) => AttrKeepsOk(s, op);
      case Move(_, _, _) =>
    }
  }

  function ApplyAll(s: State, ops: seq<Op>): State
    decreases |ops|
  {
    if ops == [] then s else ApplyAll(Apply(s, ops[0]), ops[1..])
  }

  predicate AllAllowed(s: State, ops: seq<Op>)
    decreases |ops|
  {
    ops == [] || (Allowed(s, ops[0]) && AllAllowed(Apply(s, ops[0]), ops[1..]))
  }

  predicate AllGuarded(s: State, ops: seq<Op>)
    decreases |ops|
  {
    ops == [] || (Guard(s, ops[0]) && AllGuarded(Apply(s, ops[0]), ops[1..]))
  }

  /** The document is well-formed after the run and after every part of it that ends earlier. */
  predicate AlwaysGood(s: State, ops: seq<Op>)
    decreases |ops|
  {
    Good(s) && (ops == [] || AlwaysGood(Apply(s, ops[0]), ops[1..]))
  }

  /** A run keeps a well-formed document well-formed all the way exactly when every call's guard holds. */
  lemma {:induction false} RunGood(s: State, ops: seq<Op>)
    requires StateOk(s) && Good(s) && AllAllowed(s, ops)
    ensures StateOk(ApplyAll(s, ops)) && (AlwaysGood(s, ops) <==> AllGuarded(s, ops))
    ensures AllGuarded(s, ops) ==> Good(ApplyAll(s, ops))
    decreases |ops|
  {
    hide StateOk, Allowed, Guard, Apply, Good;
    if ops != [] {
      ApplyGood(s, ops[0]);
      ApplyOk(s, ops[0]);
      if Good(Apply(s, ops[0])) {
        RunGood(Apply(s, ops[0]), ops[1..]);
      } else {
        RunOk(Apply(s, ops[0]), ops[1..]);
      }
    }
  }

  lemma {:induction false} RunOk(s: State, ops: seq<Op>)
    requires StateOk(s) && AllAllowed(s, ops)
    ensures StateOk(ApplyAll(s, ops))
    decreases |ops|
  {
    hide StateOk, Allowed, Apply;
    if ops != [] {
      ApplyOk(s, ops[0]);
      RunOk(Apply(s, ops[0]), ops[1..]);
    }
  }
}
