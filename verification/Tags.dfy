/** How the scanner treats the tags the editor writes: start tags, end tags, empty-element tags,
    CDATA sections, and the split of an empty-element tag. */
module Tags {
  import opened Chars
  import opened Token
  import opened Content

  /** The scan is inside a start tag, at or behind its name. */
  predicate InTag(st: Scan, i: nat) {
    && st.typ == ELEMENT && st.end == GtEnd && st.phase == NoPhase && !st.doctype && !st.empty
    && 2 <= i && 0 < st.name && (if st.inName then st.name <= i else st.name + st.nameLen <= i)
  }

  /** No character of `name` ends a tag name. */
  predicate NameChars(name: string) {
    forall i :: 0 <= i < |name| ==> !EndName(name[i])
  }

  /** A name the tokenizer takes as the name of an element. */
  predicate ValidName(name: string) {
    name != "" && NameStart(name[0]) && NameChars(name)
  }

  /** The state right behind `<` and the first character of a name. */
  function NameState(): Scan {
    START.(end := GtEnd, typ := ELEMENT, inName := true, name := 1)
  }

  lemma RunOpen(s: string)
    requires |s| >= 2 && s[0] == '<' && NameStart(s[1])
    ensures Run(s, 1, 0, START) == Run(s, 1, 2, NameState()) && InTag(NameState(), 2)
  {
    var a := START.(phase := OpenTag);
    assert Step(s, 1, 0, START) == More(a);
    assert Step(s, 1, 1, a) == More(NameState());
    assert Run(s, 1, 0, START) == Run(s, 1, 1, a);
  }

  lemma {:induction false} RunName(s: string, i: nat, j: nat, st: Scan)
    requires i <= j <= |s| && st.inName && forall k :: i <= k < j ==> !EndName(s[k])
    ensures Run(s, 1, i, st) == Run(s, 1, j, st)
    decreases j - i
  {
    if i < j {
      assert Step(s, 1, i, st) == More(st);
      RunName(s, i + 1, j, st);
    }
  }

  /** Up to the end of the name of a start tag. */
  lemma RunToName(s: string, name: string)
    requires ValidName(name) && |name| + 1 < |s| && s[0] == '<' && s[1..1 + |name|] == name
    ensures Run(s, 1, 0, START) == Run(s, 1, 1 + |name|, NameState())
  {
    forall k | 0 <= k < |name| ensures s[k + 1] == name[k] {
      assert s[1..1 + |name|][k] == name[k];
    }
    RunOpen(s);
    RunName(s, 2, 1 + |name|, NameState());
  }

  /** `<name>` */
  lemma PlainTag(name: string)
    requires ValidName(name)
    ensures IsStart("<" + name + ">", false) && NameOf("<" + name + ">") == name
  {
    var s := "<" + name + ">";
    var j := 1 + |name|;
    assert s[1..j] == name && s[j] == '>';
    RunToName(s, name);
    var a := EndNameAt(j, NameState());
    assert Step(s, 1, j, NameState()) == AtGt(s, 1, j, a);
  }

  /** `<name/>` */
  lemma EmptyTag(name: string)
    requires ValidName(name)
    ensures IsStart("<" + name + "/>", true) && NameOf("<" + name + "/>") == name
  {
    var s := "<" + name + "/>";
    var j := 1 + |name|;
    assert s[1..j] == name && s[j] == '/' && s[j + 1] == '>';
    RunToName(s, name);
    var a := EndNameAt(j, NameState());
    assert Step(s, 1, j, NameState()) == StepEnd(s, 1, j, a) == More(a.(d1 := '/'));
    var b := a.(d1 := '/');
    assert Step(s, 1, j + 1, b) == AtGt(s, 1, j + 1, b);
    assert Run(s, 1, j, NameState()) == Run(s, 1, j + 1, b);
  }

  /** `<name />` */
  lemma EmptyTagWithSpace(name: string)
    requires ValidName(name)
    ensures IsStart("<" + name + " />", true) && NameOf("<" + name + " />") == name
  {
    var s := "<" + name + " />";
    var j := 1 + |name|;
    assert s[1..j] == name && s[j] == ' ' && s[j + 1] == '/' && s[j + 2] == '>';
    RunToName(s, name);
    var a := EndNameAt(j, NameState());
    var b := a.(d1 := ' ');
    var c := b.(d1 := '/', d2 := ' ');
    assert Step(s, 1, j, NameState()) == StepEnd(s, 1, j, a) == More(b);
    assert Step(s, 1, j + 1, b) == StepEnd(s, 1, j + 1, b) == More(c);
    assert Step(s, 1, j + 2, c) == AtGt(s, 1, j + 2, c);
    assert Run(s, 1, j, NameState()) == Run(s, 1, j + 1, b) == Run(s, 1, j + 2, c);
  }

  /** `</name>` */
  lemma EndTag(name: string)
    requires NameChars(name)
    ensures IsNode("</" + name + ">", END_TAG) && NameOf("</" + name + ">") == name
  {
    var s := "</" + name + ">";
    var j := 2 + |name|;
    assert s[2..j] == name && s[j] == '>' && s[0] == '<' && s[1] == '/';
    var a := START.(phase := OpenTag);
    var b := START.(end := GtEnd, typ := END_TAG, inName := true, name := 2);
    assert Step(s, 1, 0, START) == More(a);
    assert Step(s, 1, 1, a) == More(b);
    assert Run(s, 1, 0, START) == Run(s, 1, 1, a) == Run(s, 1, 2, b);
    forall k | 0 <= k < |name| ensures s[k + 2] == name[k] {
      assert s[2..j][k] == name[k];
    }
    RunName(s, 2, j, b);
    assert Step(s, 1, j, b) == AtGt(s, 1, j, EndNameAt(j, b));
  }

  // ---- What is not a start tag ----

  /** The scan is in markup that cannot turn out to be a start tag. */
  predicate NotATag(st: Scan) {
    st.phase != TextOrWs && (st.doctype || (st.typ != ELEMENT && st.phase != OpenTag)) &&
    (st.end == NoEnd ==> st.AnyFlag() && !st.inName)
  }

  lemma NotATagStep(s: string, i: nat, st: Scan)
    requires i < |s| && NotATag(st)
    ensures match Step(s, 1, i, st) case More(st') => NotATag(st') case Stop(st', _) => st'.typ != ELEMENT
  {
    if !st.inName || EndName(s[i]) {
      var a := EndNameAt(i, st);
      assert NotATag(a);
      if a.end != NoEnd {
        NotATagEnd(s, i, a);
      } else if a.phase == Bang || a.phase == Dash || a.phase == Bracket {
        assert NotATag(AfterBang(s[i], a));
      }
    }
  }

  lemma NotATagEnd(s: string, i: nat, a: Scan)
    requires i < |s| && NotATag(a) && a.end != NoEnd && !a.inName
    ensures match StepEnd(s, 1, i, a) case More(st') => NotATag(st') case Stop(st', _) => st'.typ != ELEMENT
  {
    InQuotedKeeps(s[i], a);
  }

  lemma {:induction false} NotATagRun(s: string, i: nat, st: Scan)
    requires i <= |s| && NotATag(st)
    ensures NodeOf(Run(s, 1, i, st)).typ != ELEMENT
    decreases |s| - i
  {
    if i < |s| {
      NotATagStep(s, i, st);
      match Step(s, 1, i, st)
      case More(st') => NotATagRun(s, i + 1, st');
      case Stop(_, _) =>
    }
  }

  /** A start tag opens with `<` and a character that can start a name. */
  lemma StartTagOpens(s: string)
    requires IsNode(s, ELEMENT)
    ensures |s| >= 3 && s[0] == '<' && NameStart(s[1]) && s[|s| - 1] == '>'
  {
    NodeProgress(s, 1);
    var a := START.(phase := OpenTag);
    assert Step(s, 1, 0, START) == More(a);
    assert Run(s, 1, 0, START) == Run(s, 1, 1, a);
    if !NameStart(s[1]) {
      var b := AfterLt(s[1], 1, a);
      assert Step(s, 1, 1, a) == More(b);
      NotATagRun(s, 2, b);
    }
  }

  /** With a name free of separators, the empty-element tag is one exactly for valid names. */
  lemma NameIff(name: string)
    requires NameChars(name)
    ensures IsStart("<" + name + "/>", true) <==> ValidName(name)
  {
    var s := "<" + name + "/>";
    assert s[1] == if name == "" then '/' else name[0];
    if ValidName(name) {
      EmptyTag(name);
    }
    if IsStart(s, true) {
      StartTagOpens(s);
    }
  }

  // ---- Splitting an empty-element tag ----

  lemma InTagStep(s: string, i: nat, st: Scan)
    requires i < |s| && InTag(st, i)
    ensures match Step(s, 1, i, st)
            case More(st') => InTag(st', i + 1)
            case Stop(st', n) => n == i + 1 && s[i] == '>' && st'.typ == ELEMENT
  {
    if !st.inName || EndName(s[i]) {
      InTagEnd(s, i, EndNameAt(i, st));
    }
  }

  lemma InTagEnd(s: string, i: nat, a: Scan)
    requires i < |s| && InTag(a, i) && !a.inName
    ensures match StepEnd(s, 1, i, a)
            case More(st') => InTag(st', i + 1)
            case Stop(st', n) => n == i + 1 && s[i] == '>' && st'.typ == ELEMENT
  {
    InQuotedKeeps(s[i], a);
  }

  /** Behind the name, the scan remembers the last character. */
  predicate Remembers(s: string, i: nat, st: Scan)
    requires 0 < i <= |s|
  {
    if st.inName then !EndName(s[i - 1]) else st.d1 == s[i - 1]
  }

  lemma RemembersStep(s: string, i: nat, st: Scan)
    requires 0 < i < |s| && InTag(st, i) && Remembers(s, i, st) && Step(s, 1, i, st).More?
    ensures Remembers(s, i + 1, Step(s, 1, i, st).st)
  {
    if !st.inName || EndName(s[i]) {
      var a := EndNameAt(i, st);
      InQuotedKeeps(s[i], a);
      assert Step(s, 1, i, st) == StepEnd(s, 1, i, a);
    }
  }

  /** Two texts with a common beginning, in which no tag ends, are scanned alike up to there. */
  lemma {:induction false} CommonRun(s: string, t: string, i: nat, j: nat, st: Scan)
    requires 0 < i <= j <= |s| && j <= |t| && s[..j] == t[..j] && InTag(st, i) && s[0] == '<' && Remembers(s, i, st)
    requires j < Run(s, 1, i, st).next || Run(s, 1, i, st).eof
    ensures var x := StateAt(s, i, j, st);
            InTag(x, j) && Run(s, 1, i, st) == Run(s, 1, j, x) && Run(t, 1, i, st) == Run(t, 1, j, x) && Remembers(s, j, x)
    decreases j - i
  {
    if i < j {
      assert s[..i + 1] == s[..j][..i + 1] == t[..j][..i + 1] == t[..i + 1];
      InTagStep(s, i, st);
      InTagIsTagged(st, i);
      StepAgree(s, t, 1, 1, i, st);
      assert Step(s, 1, i, st).More?;
      RemembersStep(s, i, st);
      CommonRun(s, t, i + 1, j, Step(s, 1, i, st).st);
    }
  }

  /** The state of the scan from `i` on when it is at `j`. */
  function StateAt(s: string, i: nat, j: nat, st: Scan): Scan
    requires i <= j <= |s|
    decreases j - i
  {
    if i == j then st else StateAt(s, i + 1, j, Step(s, 1, i, st).st)
  }

  lemma InTagIsTagged(st: Scan, i: nat)
    requires InTag(st, i)
    ensures Tagged(st, i)
  {
  }

  /** The start tag that `x_InsertNew` makes of an empty-element tag. */
  function SplitTag(s: string): string
    requires |s| >= 2
  {
    s[..|s| - 2] + ">"
  }

  lemma LastStep(s: string, i: nat, st: Scan)
    requires i + 1 == |s| && InTag(st, i) && !Run(s, 1, i, st).eof
    ensures var a := EndNameAt(i, st); var r := Run(s, 1, i, st).st;
            && s[i] == '>' && a.quote != InSingle && a.quote != InDouble
            && r.empty == ClosesEmpty(a) && r.name == a.name && r.nameLen == a.nameLen
  {
    var a := EndNameAt(i, st);
    InTagStep(s, i, st);
    assert Step(s, 1, i, st).Stop?;
    assert Step(s, 1, i, st) == StepEnd(s, 1, i, a) == AtGt(s, 1, i, a);
  }

  lemma LastTwo(s: string, i: nat, st: Scan)
    requires i + 2 == |s| && InTag(st, i)
    requires Run(s, 1, i, st).next == |s| && !Run(s, 1, i, st).eof && Run(s, 1, i, st).st.empty
    ensures var a := EndNameAt(i, st); var r := Run(s, 1, i, st).st;
            && s[i] == '/' && a.quote != InSingle && a.quote != InDouble && (a.d1 == '/' ==> a.quote != Unquoted)
            && r.name == a.name && r.nameLen == a.nameLen
  {
    InTagStep(s, i, st);
    var b := Step(s, 1, i, st).st;
    assert Step(s, 1, i, st).More?;
    assert Run(s, 1, i, st) == Run(s, 1, i + 1, b);
    LastStep(s, i + 1, b);
    if !st.inName || EndName(s[i]) {
      var a := EndNameAt(i, st);
      assert Step(s, 1, i, st) == StepEnd(s, 1, i, a) == More(InQuoted(s[i], a).(d2 := a.d1, d1 := s[i]));
      InQuotedKeeps(s[i], a);
    }
  }

  lemma SplitEnd(t: string, i: nat, st: Scan)
    requires i + 1 == |t| && t[i] == '>' && InTag(st, i)
    requires EndNameAt(i, st).quote != InSingle && EndNameAt(i, st).quote != InDouble
    ensures var r := Run(t, 1, i, st); var a := EndNameAt(i, st);
            !r.eof && r.next == |t| && r.st.typ == ELEMENT && r.st.empty == ClosesEmpty(a) && r.st.name == a.name && r.st.nameLen == a.nameLen
  {
    var a := EndNameAt(i, st);
    assert Step(t, 1, i, st) == AtGt(t, 1, i, a);
  }

  /** Splitting an empty-element tag gives a plain start tag of the same name, unless the tag ends
      with `//>`: then what is left is again an empty-element tag. */
  lemma SplitTagIff(s: string)
    requires IsStart(s, true)
    ensures |s| >= 4 && IsNode(SplitTag(s), ELEMENT) && NameOf(SplitTag(s)) == NameOf(s)
    ensures IsStart(SplitTag(s), false) <==> s[|s| - 3] != '/'
  {
    StartTagOpens(s);
    RunOpen(s);
    var t, j := SplitTag(s), |s| - 2;
    if |s| == 3 {
      LastStep(s, 2, NameState());
    }
    assert t[..2] == s[..2] && s[0] == t[0] && s[1] == t[1];
    RunOpen(t);
    assert s[..j] == t[..j];
    CommonRun(s, t, 2, j, NameState());
    var st := StateAt(s, 2, j, NameState());
    LastTwo(s, j, st);
    SplitEnd(t, j, st);
    NameKept(s, t, j);
  }

  lemma NameKept(s: string, t: string, j: nat)
    requires j <= |s| && j <= |t| && s[..j] == t[..j]
    requires var n := NodeAt(s, 1); NodeAt(t, 1).name == n.name && NodeAt(t, 1).nameLen == n.nameLen && n.name + n.nameLen <= j
    ensures NameOf(t) == NameOf(s)
  {
    hide NodeAt;
    var n := NodeAt(s, 1);
    assert s[n.name..n.name + n.nameLen] == s[..j][n.name..n.name + n.nameLen] == t[n.name..n.name + n.nameLen];
  }

  // ---- The name of a start tag ----

  /** The end of the tag name that begins at `i`. */
  function NameStop(s: string, i: nat): (j: nat)
    requires i <= |s|
    ensures i <= j <= |s| && (forall k :: i <= k < j ==> !EndName(s[k])) && (j < |s| ==> EndName(s[j]))
    decreases |s| - i
  {
    if i == |s| || EndName(s[i]) then i else NameStop(s, i + 1)
  }

  /** Once a tag name is read, it stays. */
  lemma {:induction false} NameStays(s: string, i: nat, st: Scan)
    requires i <= |s| && InTag(st, i) && !st.inName
    ensures Run(s, 1, i, st).st.name == st.name && Run(s, 1, i, st).st.nameLen == st.nameLen
    decreases |s| - i
  {
    if i < |s| {
      InTagEnd(s, i, st);
      InQuotedKeeps(s[i], st);
      assert Step(s, 1, i, st) == StepEnd(s, 1, i, st);
      match Step(s, 1, i, st)
      case More(st') => NameStays(s, i + 1, st');
      case Stop(_, _) =>
    }
  }

  /** The name of a start tag runs from behind `<` to the first white space, `/` or `>`. */
  lemma NameOfTag(s: string)
    requires IsNode(s, ELEMENT)
    ensures |s| >= 3 && 2 <= NameStop(s, 1) < |s| && NameOf(s) == s[1..NameStop(s, 1)]
  {
    StartTagOpens(s);
    var j := NameStop(s, 1);
    RunOpen(s);
    assert !EndName(s[1]) && EndName(s[|s| - 1]);
    RunName(s, 2, j, NameState());
    var a := EndNameAt(j, NameState());
    assert Step(s, 1, j, NameState()) == StepEnd(s, 1, j, a);
    InTagEnd(s, j, a);
    InQuotedKeeps(s[j], a);
    match Step(s, 1, j, NameState()) {
      case More(st') => NameStays(s, j + 1, st');
      case Stop(_, _) =>
    }
    assert NodeAt(s, 1).name == 1 && NodeAt(s, 1).nameLen == j - 1;
  }

  // ---- Tags inside a document ----

  /** An instruction does not become a tag. */
  lemma {:induction false} InstructionRun(s: string, base: nat, i: nat, st: Scan)
    requires i <= |s| && st.typ == PI && st.end == PIEnd && !st.doctype
    ensures NodeOf(Run(s, base, i, st)).typ in {PI, BAD}
    decreases |s| - i
  {
    if i < |s| {
      if !st.inName || EndName(s[i]) {
        var a := EndNameAt(i, st);
        assert Step(s, base, i, st) == StepEnd(s, base, i, a);
      }
      match Step(s, base, i, st)
      case More(st') => InstructionRun(s, base, i + 1, st');
      case Stop(_, _) =>
    }
  }

  lemma NotInstruction(s: string, base: nat)
    requires s != "" && NodeAt(s, base).typ in {ELEMENT, END_TAG}
    ensures s[0] == '<' && !("<?>" <= s)
  {
    NodeProgress(s, base);
    if "<?>" <= s {
      var a := START.(phase := OpenTag);
      var b := START.(end := PIEnd, typ := PI, inName := true, name := 2);
      assert s[..3] == "<?>" && s[1] == s[..3][1] == '?';
      assert Step(s, base, 0, START) == More(a) && Step(s, base, 1, a) == More(b);
      assert Run(s, base, 0, START) == Run(s, base, 1, a) == Run(s, base, 2, b);
      InstructionRun(s, base, 2, b);
    }
  }

  /** A tag of the document, taken out of it, is the same tag, with the same name. */
  lemma TagToken(doc: string, q: nat)
    requires q < |doc| && NodeIn(doc, q).typ in {ELEMENT, END_TAG}
    ensures var n := NodeIn(doc, q);
            && 2 <= n.len && q + n.len <= |doc| && NodeAt(doc[q..q + n.len], 1) == n && IsNode(doc[q..q + n.len], n.typ)
            && NameIn(doc, q) == NameOf(doc[q..q + n.len]) && doc[q] == '<'
  {
    hide NodeAt, NodeIn;
    TagNode(doc, q);
    var n := NodeIn(doc, q);
    var t := doc[q..q + n.len];
    TagTaken(doc[q..], q, n);
    assert doc[q..][..n.len] == t;
    assert NodeAt(t, 1) == n && |t| == n.len;
    SubSlice(doc, q, n.len, n.name, n.name + n.nameLen);
    assert NameOf(t) == t[n.name..n.name + n.nameLen];
  }

  lemma TagNode(doc: string, q: nat)
    requires q < |doc| && NodeIn(doc, q).typ in {ELEMENT, END_TAG}
    ensures var n := NodeIn(doc, q);
            n == NodeAt(doc[q..], q) && 2 <= n.len && q + n.len <= |doc| && n.name + n.nameLen <= n.len && doc[q] == '<'
  {
    hide NodeAt;
    NodeProgress(doc[q..], q);
  }

  lemma TagTaken(s: string, base: nat, n: Node)
    requires s != "" && NodeAt(s, base) == n && n.typ in {ELEMENT, END_TAG} && n.len <= |s|
    ensures NodeAt(s[..n.len], 1) == n
  {
    hide NodeAt;
    NotInstruction(s, base);
    assert s[..n.len] == s[..n.len][..n.len];
    NodeLocal(s, s[..n.len], base, 1);
  }

  lemma SubSlice(doc: string, q: nat, n: nat, a: nat, b: nat)
    requires q + n <= |doc| && a <= b <= n
    ensures doc[q..q + n][a..b] == doc[q + a..q + b]
  {
    var u, v := doc[q..q + n][a..b], doc[q + a..q + b];
    assert |u| == |v| == b - a;
    assert forall i :: 0 <= i < b - a ==> u[i] == doc[q..q + n][a + i] == v[i];
  }
}
