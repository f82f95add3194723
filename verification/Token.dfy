/** The tokenizer of Baselib/Markup.cpp: a scanner that cuts one node off the front of a text. */
module Token {
  import opened Chars

  const ELEMENT := 1
  const TEXT := 2
  const WHITESPACE := 4
  const CDATA := 8
  const PI := 16
  const COMMENT := 32
  const DOCTYPE := 64
  const END_TAG := 0
  const BAD := -1
  const END_OF_DOCUMENT := -2

  /** The parse bits of which at most one is set at a time before a terminator is chosen. */
  datatype Phase = NoPhase | OpenTag | Bang | Dash | Bracket | TextOrWs

  /** The parse bits that say whether the scan is inside an attribute value. */
  datatype Quote = NoQuote | InSingle | InDouble | Unquoted

  /** The terminator looked for (`pFindEnd`). */
  datatype End = NoEnd | LtEnd | GtEnd | PIEnd | CommentEnd | CDATAEnd {
    function Text(): string {
      match this
      case NoEnd => ""
      case LtEnd => "<"
      case GtEnd => ">"
      case PIEnd => "?>"
      case CommentEnd => "-->"
      case CDATAEnd => "]]>"
    }

    function Len(): nat {
      match this
      case NoEnd => 0
      case LtEnd => 1
      case GtEnd => 1
      case PIEnd => 2
      case _ => 3
    }
  }

  /** The local variables of the scan: the parse bits, the terminator, the node type so far, where
      the tag name lies, and the last two characters seen inside a start tag (`\0` for none). */
  datatype Scan = Scan(
    phase: Phase, doctype: bool, quote: Quote, equals: bool,
    end: End, typ: int, inName: bool, name: nat, nameLen: nat,
    d1: char, d2: char, empty: bool)
  {
    predicate AnyFlag() {
      phase != NoPhase || doctype || quote != NoQuote || equals
    }

    function Find(e: End, t: int): Scan {
      this.(phase := NoPhase, end := e, typ := t)
    }

    function FindNamed(e: End, t: int, at: nat): Scan {
      this.(phase := NoPhase, end := e, typ := t, inName := true, name := at)
    }
  }

  const START := Scan(NoPhase, false, NoQuote, false, NoEnd, BAD, false, 0, 0, '\0', '\0', false)

  datatype Outcome = More(st: Scan) | Stop(st: Scan, next: nat)

  /** True when the `>` at `i` completes a terminator of more than one character.  `base` is the
      offset of the node in the document: the code compares the absolute offset of `>` with the
      length of the terminator. */
  predicate Completes(s: string, base: nat, i: nat, end: End)
    requires i < |s|
  {
    base + i > end.Len() && end.Len() <= i + 1 &&
    (end == PIEnd ==> s[i - 1] == '?') &&
    (end == CommentEnd ==> s[i - 2] == '-' && s[i - 1] == '-') &&
    (end == CDATAEnd ==> s[i - 2] == ']' && s[i - 1] == ']')
  }

  function InQuoted(c: char, a: Scan): Scan {
    if a.quote != NoQuote then
      if c == '\"' && a.quote == InDouble then a.(quote := NoQuote)
      else if c == '\'' && a.quote == InSingle then a.(quote := NoQuote)
      else if a.quote == Unquoted && White(c) then a.(quote := NoQuote)
      else a
    else if c == '\"' && a.equals then a.(quote := InDouble, equals := false)
    else if c == '\'' && a.equals then a.(quote := InSingle, equals := false)
    else if c == '=' && a.d1 != '=' && !a.equals then a.(equals := true)
    else if a.equals && !White(c) then a.(quote := Unquoted, equals := false)
    else a
  }

  predicate ClosesEmpty(a: Scan) {
    a.typ == ELEMENT && a.d1 == '/' && (a.d2 == '\0' || a.quote != Unquoted || NotSecondLastInVal(a.d2))
  }

  /** A `>` outside quotes while a terminator is being looked for. */
  function AtGt(s: string, base: nat, i: nat, a: Scan): Outcome
    requires i < |s|
  {
    var b := a.(quote := NoQuote);
    if a.end.Len() == 1 then
      var d := b.(end := NoEnd, empty := a.empty || ClosesEmpty(a));
      if d.doctype then More(d) else Stop(d, i + 1)
    else if Completes(s, base, i, a.end) then
      var d := b.(end := NoEnd);
      if d.doctype then More(d) else Stop(d, i + 1)
    else More(b)
  }

  /** One character while a terminator is being looked for. */
  function StepEnd(s: string, base: nat, i: nat, a: Scan): Outcome
    requires i < |s|
  {
    var c := s[i];
    if c == '>' && a.quote != InSingle && a.quote != InDouble then
      AtGt(s, base, i, a)
    else if c == '<' && (a.typ == TEXT || a.typ == BAD) then
      Stop(a, i)
    else if a.typ == ELEMENT || a.typ == BAD then
      More(InQuoted(c, a).(d2 := a.d1, d1 := c))
    else if a.typ == DOCTYPE then
      More(a.(quote := ToggleQuote(c, a.quote)))
    else
      More(a)
  }

  function ToggleQuote(c: char, q: Quote): Quote {
    if c == '\"' && q != InSingle then if q == InDouble then NoQuote else InDouble
    else if c == '\'' && q != InDouble then if q == InSingle then NoQuote else InSingle
    else q
  }

  /** One character while the kind of node is still open, or between the tags of a DOCTYPE. */
  function StepFlags(c: char, i: nat, a: Scan): Outcome {
    match a.phase
    case TextOrWs =>
      if c == '<' then Stop(a.(typ := WHITESPACE), i)
      else More(if White(c) then a else a.Find(LtEnd, TEXT))
    case OpenTag => More(AfterLt(c, i, a))
    case NoPhase =>
      if a.doctype && c == '<' then More(a.(phase := OpenTag))
      else if a.doctype && c == '>' then Stop(a.(typ := DOCTYPE), i + 1)
      else More(a)
    case _ => More(AfterBang(c, a))
  }

  /** The character after `<` decides the kind of node. */
  function AfterLt(c: char, i: nat, a: Scan): Scan {
    if NameStart(c) then a.FindNamed(GtEnd, ELEMENT, i)
    else if c == '/' then a.FindNamed(GtEnd, END_TAG, i + 1)
    else if c == '!' then a.(phase := Bang)
    else if c == '?' then a.FindNamed(PIEnd, PI, i + 1)
    else a.Find(GtEnd, BAD)
  }

  /** The characters after `<!` tell comments, CDATA sections and document types apart. */
  function AfterBang(c: char, a: Scan): Scan {
    match a.phase
    case Dash => if c == '-' then a.Find(CommentEnd, COMMENT) else a.Find(GtEnd, BAD)
    case Bracket => if c == 'C' then a.Find(CDATAEnd, CDATA) else a.Find(GtEnd, BAD)
    case _ =>
      if c == '-' then a.(phase := Dash)
      else if a.doctype then a.Find(GtEnd, if DocTypeStart(c) then DOCTYPE else BAD)
      else if c == '[' then a.(phase := Bracket)
      else if c == 'D' then a.(phase := NoPhase, doctype := true)
      else a.Find(GtEnd, BAD)
  }

  /** At the end of a tag name its length is fixed and the last two characters are forgotten. */
  function EndNameAt(i: nat, st: Scan): Scan {
    if st.inName then
      st.(inName := false, nameLen := if st.name <= i then i - st.name else 0, d1 := '\0', d2 := '\0')
    else st
  }

  function Step(s: string, base: nat, i: nat, st: Scan): Outcome
    requires i < |s|
  {
    var c := s[i];
    var a := EndNameAt(i, st);
    if st.inName && !EndName(c) then More(st)
    else if a.end != NoEnd then StepEnd(s, base, i, a)
    else if a.AnyFlag() then StepFlags(c, i, a)
    else if c == '<' then More(a.(phase := OpenTag))
    else if White(c) then More(a.(typ := WHITESPACE, phase := TextOrWs))
    else More(a.Find(LtEnd, TEXT))
  }

  /** Runs the scanner from offset `i`; at the end of the text it stops there with `eof`. */
  datatype Result = Result(st: Scan, next: nat, eof: bool)

  function Run(s: string, base: nat, i: nat, st: Scan): (r: Result)
    requires i <= |s|
    ensures i <= r.next <= |s|
    decreases |s| - i
  {
    if i == |s| then Result(st, i, true)
    else match Step(s, base, i, st)
      case More(st') => Run(s, base, i + 1, st')
      case Stop(st', n) => Result(st', n, false)
  }

  /** A node as the parser sees it: its type, its length, its tag name and the empty-tag flag. */
  datatype Node = Node(typ: int, len: nat, name: nat, nameLen: nat, empty: bool)

  function NodeOf(r: Result): Node {
    Node(if r.eof && r.st.typ != TEXT && r.st.typ != WHITESPACE then BAD else r.st.typ,
         r.next, r.st.name, r.st.nameLen, r.st.empty)
  }

  /** The node at the front of `s`, where `s` is the document from offset `base` on. */
  function NodeAt(s: string, base: nat): (n: Node)
    ensures n.len <= |s|
  {
    if s == "" then Node(END_OF_DOCUMENT, 0, 0, 0, false)
    else NodeOf(Run(s, base, 0, START))
  }

  // ---- What every scan keeps ----

  /** The types of the nodes that open with `<` and end with their own `>`. */
  predicate MarkupType(t: int) {
    t == ELEMENT || t == END_TAG || t == CDATA || t == PI || t == COMMENT || t == DOCTYPE
  }

  predicate TextType(t: int) {
    t == TEXT || t == WHITESPACE
  }

  /** Holds from the first character after an opening `<` on. */
  predicate Tagged(st: Scan, i: nat) {
    && st.phase != TextOrWs && (MarkupType(st.typ) || st.typ == BAD)
    && st.end != LtEnd && (st.end == NoEnd ==> st.AnyFlag() && !st.inName)
    && 1 <= i && (st.phase == Bang ==> 2 <= i) && (st.phase == Dash || st.phase == Bracket || st.doctype ==> 3 <= i)
    && (st.end == PIEnd ==> 2 <= i) && (st.end.Len() == 3 ==> 4 <= i)
    && (st.end != NoEnd ==> st.phase == NoPhase)
    && (st.end == NoEnd && !st.doctype ==> st.phase != NoPhase)
    && (st.typ == ELEMENT || st.typ == END_TAG ==> 0 < st.name)
    && (if st.inName then st.name <= i else st.name + st.nameLen <= i)
  }

  /** Holds from the first character of a node that does not open with `<`. */
  predicate Texting(st: Scan) {
    && !st.doctype && st.quote == NoQuote && !st.equals && !st.inName
    && (if st.phase == TextOrWs then st.end == NoEnd && st.typ == WHITESPACE
        else st.phase == NoPhase && st.end == LtEnd && st.typ == TEXT)
  }

  /** What one step does to a state that `Tagged` describes. */
  predicate TaggedOutcome(o: Outcome, c: char, i: nat) {
    match o
    case More(st) => Tagged(st, i + 1)
    case Stop(st, n) =>
      (MarkupType(st.typ) || st.typ == BAD) &&
      (if st.typ == BAD then i <= n <= i + 1 else n == i + 1 && c == '>') &&
      !st.inName && st.name + st.nameLen <= n && (st.typ == ELEMENT || st.typ == END_TAG ==> 0 < st.name)
  }

  lemma TaggedAtGt(s: string, base: nat, i: nat, st: Scan)
    requires i < |s| && Tagged(st, i) && !st.inName && st.end != NoEnd && s[i] == '>'
    ensures TaggedOutcome(AtGt(s, base, i, st), s[i], i)
  {
  }

  lemma InQuotedKeeps(c: char, a: Scan)
    ensures InQuoted(c, a) == a.(quote := InQuoted(c, a).quote, equals := InQuoted(c, a).equals)
  {
  }

  lemma TaggedStepEnd(s: string, base: nat, i: nat, st: Scan)
    requires i < |s| && Tagged(st, i) && !st.inName && st.end != NoEnd
    ensures TaggedOutcome(StepEnd(s, base, i, st), s[i], i)
  {
    if s[i] == '>' && st.quote != InSingle && st.quote != InDouble {
      TaggedAtGt(s, base, i, st);
    } else if st.typ == ELEMENT || st.typ == BAD {
      InQuotedKeeps(s[i], st);
    }
  }

  lemma TaggedAfterLt(c: char, i: nat, st: Scan)
    requires Tagged(st, i) && !st.inName && st.end == NoEnd && st.phase == OpenTag
    ensures Tagged(AfterLt(c, i, st), i + 1)
  {
  }

  lemma TaggedAfterBang(c: char, i: nat, st: Scan)
    requires Tagged(st, i) && !st.inName && st.end == NoEnd && st.phase in {Bang, Dash, Bracket}
    ensures Tagged(AfterBang(c, st), i + 1)
  {
  }

  lemma TaggedStepFlags(c: char, i: nat, st: Scan)
    requires Tagged(st, i) && !st.inName && st.end == NoEnd
    ensures TaggedOutcome(StepFlags(c, i, st), c, i)
  {
    if st.phase == OpenTag {
      TaggedAfterLt(c, i, st);
    } else if st.phase != NoPhase {
      TaggedAfterBang(c, i, st);
    }
  }

  lemma TaggedStep(s: string, base: nat, i: nat, st: Scan)
    requires i < |s| && Tagged(st, i)
    ensures TaggedOutcome(Step(s, base, i, st), s[i], i)
  {
    if !st.inName || EndName(s[i]) {
      var a := EndNameAt(i, st);
      if a.end != NoEnd {
        TaggedStepEnd(s, base, i, a);
      } else {
        TaggedStepFlags(s[i], i, a);
      }
    }
  }

  lemma {:induction false} TaggedRun(s: string, base: nat, i: nat, st: Scan)
    requires i <= |s| && Tagged(st, i)
    ensures var n := NodeOf(Run(s, base, i, st));
            && (MarkupType(n.typ) || n.typ == BAD)
            && i <= n.len
            && (n.typ != BAD ==> i < n.len && s[n.len - 1] == '>' && n.name + n.nameLen <= n.len && !Run(s, base, i, st).eof)
            && (n.typ == ELEMENT || n.typ == END_TAG ==> 0 < n.name)
    decreases |s| - i
  {
    if i < |s| {
      TaggedStep(s, base, i, st);
      match Step(s, base, i, st)
      case More(st') => TaggedRun(s, base, i + 1, st');
      case Stop(_, _) =>
    }
  }

  lemma {:induction false} TextingRun(s: string, base: nat, i: nat, st: Scan)
    requires i <= |s| && Texting(st)
    ensures var n := NodeOf(Run(s, base, i, st)); TextType(n.typ) && i <= n.len && NoLt(s[i..n.len])
    decreases |s| - i
  {
    if i < |s| && s[i] != '<' {
      match Step(s, base, i, st)
      case More(st') =>
        TextingRun(s, base, i + 1, st');
        assert s[i..Run(s, base, i, st).next] == [s[i]] + s[i + 1..Run(s, base, i, st).next];
      case Stop(_, _) =>
    }
  }

  /** Every node but the end of the document is non-empty, so cutting nodes off the front of a
      document makes progress; text nodes hold no `<`, and every other node opens with one. */
  lemma NodeProgress(s: string, base: nat)
    requires s != ""
    ensures var n := NodeAt(s, base);
            && 1 <= n.len <= |s| && n.typ != END_OF_DOCUMENT
            && (TextType(n.typ) <==> s[0] != '<')
            && (TextType(n.typ) ==> NoLt(s[..n.len]))
            && (MarkupType(n.typ) ==>
                  2 <= n.len && s[n.len - 1] == '>' && n.name + n.nameLen <= n.len)
            && (n.typ == ELEMENT || n.typ == END_TAG ==> 0 < n.name)
            && (TextType(n.typ) || MarkupType(n.typ) || n.typ == BAD)
  {
    var st := Step(s, base, 0, START).st;
    assert Step(s, base, 0, START).More?;
    if s[0] == '<' {
      TaggedRun(s, base, 1, st);
    } else {
      TextingRun(s, base, 1, st);
      var n := NodeAt(s, base);
      assert s[..n.len] == [s[0]] + s[1..n.len];
    }
  }

  // ---- A node that ends with its own `>` depends on its own characters only ----

  /** Offsets between which the scan cannot tell: it only notices a `<?>` at offset 0. */
  predicate SameBase(s: string, b: nat, b': nat) {
    |s| > 0 && s[0] == '<' && (b == b' || ((b >= 1 || !("<?>" <= s)) && (b' >= 1 || !("<?>" <= s))))
  }

  lemma StepEndAgree(s: string, t: string, b: nat, b': nat, i: nat, st: Scan)
    requires i < |s| && i < |t| && s[..i + 1] == t[..i + 1]
    requires Tagged(st, i) && st.end != NoEnd
    requires SameBase(s, b, b')
    ensures StepEnd(s, b, i, st) == StepEnd(t, b', i, st)
  {
    assert s[i] == s[..i + 1][i] == t[..i + 1][i] == t[i];
    if st.end.Len() > 1 {
      assert s[i - 1] == s[..i + 1][i - 1] == t[..i + 1][i - 1] == t[i - 1];
      if st.end.Len() == 3 {
        assert s[i - 2] == s[..i + 1][i - 2] == t[..i + 1][i - 2] == t[i - 2];
      } else if i == 2 && s[2] == '>' && s[1] == '?' {
        assert s[..3] == "<?>";
      }
    }
  }

  lemma StepAgree(s: string, t: string, b: nat, b': nat, i: nat, st: Scan)
    requires i < |s| && i < |t| && s[..i + 1] == t[..i + 1]
    requires Tagged(st, i)
    requires SameBase(s, b, b')
    ensures Step(s, b, i, st) == Step(t, b', i, st)
  {
    assert s[i] == s[..i + 1][i] == t[..i + 1][i] == t[i];
    if !st.inName || EndName(s[i]) {
      var a := EndNameAt(i, st);
      if a.end != NoEnd {
        StepEndAgree(s, t, b, b', i, a);
      }
    }
  }

  lemma {:induction false} RunAgree(s: string, t: string, b: nat, b': nat, i: nat, st: Scan)
    requires i <= |s| && Tagged(st, i)
    requires SameBase(s, b, b')
    requires var r := Run(s, b, i, st); NodeOf(r).typ != BAD && r.next <= |t| && s[..r.next] == t[..r.next]
    ensures Run(t, b', i, st) == Run(s, b, i, st)
    decreases |s| - i
  {
    TaggedRun(s, b, i, st);
    var r := Run(s, b, i, st);
    assert s[..i + 1] == s[..r.next][..i + 1] == t[..r.next][..i + 1] == t[..i + 1];
    StepAgree(s, t, b, b', i, st);
    TaggedStep(s, b, i, st);
    match Step(s, b, i, st)
    case More(st') => RunAgree(s, t, b, b', i + 1, st');
    case Stop(_, _) =>
  }

  /** Locality: what follows a complete tag, comment, instruction, CDATA section or DOCTYPE does
      not matter, and neither does its offset, except for `<?>` at offset 0. */
  lemma NodeLocal(s: string, t: string, b: nat, b': nat)
    requires SameBase(s, b, b')
    requires var n := NodeAt(s, b); n.typ != BAD && n.len <= |t| && s[..n.len] == t[..n.len]
    ensures NodeAt(t, b') == NodeAt(s, b)
  {
    NodeProgress(s, b);
    var n := NodeAt(s, b);
    assert s[0] == s[..n.len][0] == t[..n.len][0] == t[0];
    RunAgree(s, t, b, b', 1, Step(s, b, 0, START).st);
  }
}
