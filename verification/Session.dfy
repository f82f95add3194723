/** A whole session of edits: a document that has been parsed, any run of calls, and the index at the end. */
module Session {
  import opened Content
  import opened Index
  import opened Represent
  import opened Runs
  import opened InStep

  /** After a run of calls whose guards hold, the index that the calls have maintained is the one that the parser builds
      from the text they have left: `b` is what `x_ParseDoc` leaves of that text. */
  lemma RunInStep(s: State, ops: seq<Op>, doc: string, a: Elems, fa: nat, b: Elems, fb: nat, d: Content)
    requires StateOk(s) && Good(s) && AllAllowed(s, ops) && AllGuarded(s, ops)
    requires Represents(doc, a, fa, ApplyAll(s, ops).tree) && ReadAs(doc, b, fb, d)
    ensures !b[0].illFormed && SameIndex(a, ApplyAll(s, ops).tree, b, d) && a[0].nLength == b[0].nLength == |doc|
  {
    hide Represents, WFDoc, ApplyAll, SameIndex, StateOk, AllAllowed, AllGuarded, ParseDoc;
    RunGood(s, ops);
    var c := ApplyAll(s, ops).tree;
    InStepIff(doc, a, fa, c, b, fb, d);
    Lengths(doc, a, fa, c);
    Lengths(doc, b, fb, d);
  }

  lemma Lengths(doc: string, a: Elems, fa: nat, c: Content)
    requires Represents(doc, a, fa, c)
    ensures 0 < |a| && a[0].nLength == |doc|
  {
    hide Linked, Shape, Offsets;
  }

  /** And when a call's guard does not hold, it is not: the parser marks the text as ill-formed or builds another index. */
  lemma GuardNeeded(s: State, op: Op, doc: string, a: Elems, fa: nat, b: Elems, fb: nat, d: Content)
    requires StateOk(s) && Good(s) && Allowed(s, op) && !Apply(s, op).strayed
    requires Represents(doc, a, fa, Apply(s, op).tree) && ReadAs(doc, b, fb, d)
    ensures !b[0].illFormed && SameIndex(a, Apply(s, op).tree, b, d) <==> Guard(s, op)
  {
    hide Represents, WFDoc, SameIndex, StateOk, Allowed, Guard, ReadAs, Apply;
    ApplyGood(s, op);
    InStepIff(doc, a, fa, Apply(s, op).tree, b, fb, d);
  }

  /** The parser reads the content that a call leaves back from its text exactly when the guard held before the call. */
  lemma ReadBackIff(s: State, op: Op)
    requires StateOk(s) && Good(s) && Allowed(s, op)
    ensures var c := Apply(s, op).tree;
            !Apply(s, op).strayed && ParseDoc(Render(c)) == Done(Erase(c), |Render(c)|) <==> Guard(s, op)
  {
    hide WFDoc, StateOk, Allowed, Guard, ParseDoc, Apply, Render, Erase;
    ApplyGood(s, op);
    ParsedIff(Apply(s, op).tree);
  }
}
