/** The scanner cuts every text as the grammar says. */
module Cutting {
  import opened Chars
  import opened Token
  import opened Content
  import opened Grammar

  // ---- Inside a tag ----

  /** Where the scan of a tag is. */
  datatype Mode = Plainly | Awaiting | Quoted(q: char) | Barely

  function NextMode(m: Mode, c: char): Mode {
    match m
    case Plainly => if c == '=' then Awaiting else Plainly
    case Awaiting => if White(c) then Awaiting else if c == '\"' || c == '\'' then Quoted(c) else Barely
    case Quoted(q) => if c == q then Plainly else m
    case Barely => if White(c) then Plainly else Barely
  }

  predicate InMode(st: Scan, m: Mode, bad: bool) {
    && st.end == GtEnd && st.phase == NoPhase && !st.inName && st.typ == (if bad then BAD else ELEMENT)
    && match m
       case Plainly => st.quote == NoQuote && !st.equals
       case Awaiting => st.quote == NoQuote && st.equals
       case Quoted(q) => !st.equals && (if q == '\"' then st.quote == InDouble else q == '\'' && st.quote == InSingle)
       case Barely => st.quote == Unquoted && !st.equals
  }

  function EndIn(s: string, i: nat, m: Mode, bad: bool): (e: TagEnd)
    requires i <= |s|
    ensures TagEnds(s, i, e, bad)
  {
    match m
    case Plainly => TagPlain(s, i, bad)
    case Awaiting => TagValue(s, i, bad)
    case Quoted(q) => TagQuoted(s, i, q, bad)
    case Barely => TagBare(s, i, bad)
  }

  predicate EndsNow(c: char, m: Mode, bad: bool) {
    (c == '>' && !m.Quoted?) || (c == '<' && bad)
  }

  lemma FirstStep(s: string, i: nat, P: char -> bool)
    requires i < |s|
    ensures FirstChar(s, i, P) == if P(s[i]) then i else FirstChar(s, i + 1, P)
  {
  }

  lemma PlainStep(s: string, i: nat, bad: bool)
    requires i < |s|
    ensures TagPlain(s, i, bad) ==
            if s[i] == '>' then Closed(i, false, false) else if s[i] == '=' then TagValue(s, i + 1, bad)
            else if bad && s[i] == '<' then CutOff(i) else TagPlain(s, i + 1, bad)
  {
    hide TagValue;
    FirstStep(s, i, PlainStops(bad));
  }

  lemma ValueStep(s: string, i: nat, bad: bool)
    requires i < |s|
    ensures TagValue(s, i, bad) ==
            if White(s[i]) then TagValue(s, i + 1, bad) else if s[i] == '>' then Closed(i, false, true)
            else if bad && s[i] == '<' then CutOff(i) else if s[i] == '\"' || s[i] == '\'' then TagQuoted(s, i + 1, s[i], bad)
            else TagBare(s, i + 1, bad)
  {
    hide TagQuoted, TagBare;
    FirstStep(s, i, NotWhite());
  }

  lemma QuotedStep(s: string, i: nat, q: char, bad: bool)
    requires i < |s|
    ensures TagQuoted(s, i, q, bad) ==
            if s[i] == q then TagPlain(s, i + 1, bad) else if bad && s[i] == '<' then CutOff(i) else TagQuoted(s, i + 1, q, bad)
  {
    hide TagPlain;
    FirstStep(s, i, QuoteStops(q, bad));
  }

  lemma BareStep(s: string, i: nat, bad: bool)
    requires i < |s|
    ensures TagBare(s, i, bad) ==
            if s[i] == '>' then Closed(i, true, false) else if White(s[i]) then TagPlain(s, i + 1, bad)
            else if bad && s[i] == '<' then CutOff(i) else TagBare(s, i + 1, bad)
  {
    hide TagPlain;
    FirstStep(s, i, BareStops(bad));
  }

  /** One character of a tag. */
  lemma EndStep(s: string, i: nat, m: Mode, bad: bool)
    requires i < |s| && (m.Quoted? ==> m.q == '\"' || m.q == '\'')
    ensures EndIn(s, i, m, bad) ==
            if !EndsNow(s[i], m, bad) then EndIn(s, i + 1, NextMode(m, s[i]), bad)
            else if s[i] == '>' then Closed(i, m.Barely?, m.Awaiting?) else CutOff(i)
  {
    hide TagPlain, TagValue, TagQuoted, TagBare;
    match m
    case Plainly => PlainStep(s, i, bad);
    case Awaiting => ValueStep(s, i, bad);
    case Quoted(q) => QuotedStep(s, i, q, bad);
    case Barely => BareStep(s, i, bad);
  }

  lemma EndOpen(s: string, m: Mode, bad: bool)
    ensures EndIn(s, |s|, m, bad) == Unclosed
  {
  }

  /** Outside values no equals sign stands directly behind another one. */
  predicate Fresh(s: string, i: nat, st: Scan, m: Mode)
    requires i <= |s|
  {
    m.Plainly? && i < |s| && s[i] == '=' ==> st.d1 != '='
  }

  /** The state behind a character that ends nothing. */
  function Passed(st: Scan, c: char): Scan {
    InQuoted(c, st).(d2 := st.d1, d1 := c)
  }

  lemma ModeStep(s: string, base: nat, i: nat, st: Scan, m: Mode, bad: bool)
    requires i < |s| && InMode(st, m, bad) && !EndsNow(s[i], m, bad) && Fresh(s, i, st, m)
    ensures Step(s, base, i, st) == More(Passed(st, s[i])) && InMode(Passed(st, s[i]), NextMode(m, s[i]), bad)
    ensures Fresh(s, i + 1, Passed(st, s[i]), NextMode(m, s[i]))
    ensures var x := Passed(st, s[i]); x == st.(quote := x.quote, equals := x.equals, d1 := s[i], d2 := st.d1)
  {
    InQuotedKeeps(s[i], st);
  }

  /** The last two characters that the scan has seen since it was at `from`, where it remembered `d`. */
  predicate Tracks(s: string, from: nat, i: nat, st: Scan, d: char) {
    && from <= i <= |s| && st.d1 == (if i > from then s[i - 1] else d)
    && (i > from ==> st.d2 == if i > from + 1 then s[i - 2] else d)
  }

  /** A state in front of the `>` that closes the tag, from which the scan goes on like from `st` at `i`. */
  predicate AtClose(s: string, base: nat, i: nat, st: Scan, e: TagEnd, bad: bool, from: nat, d: char, m: Mode, x: Scan) {
    && e.Closed? && i <= e.at < |s| && InMode(x, m, bad) && !m.Quoted? && e.bare == m.Barely? && e.eq == m.Awaiting?
    && x == st.(quote := x.quote, equals := x.equals, d1 := x.d1, d2 := x.d2) && Tracks(s, from, e.at, x, d)
    && Run(s, base, i, st) == Run(s, base, e.at, x)
  }

  /** The scan of a tag ends as the grammar says. */
  lemma {:induction false} TagRun(s: string, base: nat, i: nat, st: Scan, m: Mode, bad: bool, from: nat, d: char)
    requires i <= |s| && InMode(st, m, bad) && Fresh(s, i, st, m) && Tracks(s, from, i, st, d)
    ensures match EndIn(s, i, m, bad)
            case Unclosed => Run(s, base, i, st).eof && Run(s, base, i, st).next == |s| && Run(s, base, i, st).st.typ == st.typ
            case CutOff(at) => !Run(s, base, i, st).eof && Run(s, base, i, st).next == at && Run(s, base, i, st).st.typ == BAD
            case Closed(at, b, q) => exists n, x :: AtClose(s, base, i, st, Closed(at, b, q), bad, from, d, n, x)
    decreases |s| - i
  {
    if i == |s| {
      EndOpen(s, m, bad);
    } else if EndsNow(s[i], m, bad) {
      ModeQuotes(st, m, bad);
      EndStep(s, i, m, bad);
      if s[i] == '>' {
        assert AtClose(s, base, i, st, EndIn(s, i, m, bad), bad, from, d, m, st);
      }
    } else {
      hide InMode, EndIn, InQuoted, Step, Fresh;
      var x, n := Passed(st, s[i]), NextMode(m, s[i]);
      ModeStep(s, base, i, st, m, bad);
      ModeQuotes(st, m, bad);
      EndStep(s, i, m, bad);
      TagRun(s, base, i + 1, x, n, bad, from, d);
      if EndIn(s, i, m, bad).Closed? {
        var k, y :| AtClose(s, base, i + 1, x, EndIn(s, i, m, bad), bad, from, d, k, y);
        assert AtClose(s, base, i, st, EndIn(s, i, m, bad), bad, from, d, k, y);
      }
    }
  }

  lemma ModeQuotes(st: Scan, m: Mode, bad: bool)
    requires InMode(st, m, bad)
    ensures m.Quoted? ==> m.q == '\"' || m.q == '\''
  {
  }

  // ---- Names ----

  lemma {:induction false} NameRun(s: string, base: nat, i: nat, st: Scan)
    requires i <= |s| && st.inName
    ensures Run(s, base, i, st) == Run(s, base, NameEnds(s, i), st)
    decreases |s| - i
  {
    if i < |s| && !EndName(s[i]) {
      assert Step(s, base, i, st) == More(st);
      NameRun(s, base, i + 1, st);
    }
  }

  /** At the end of a name the scan goes on without it. */
  lemma NameOver(s: string, base: nat, i: nat, st: Scan)
    requires i < |s| && EndName(s[i])
    ensures Run(s, base, i, st) == Run(s, base, i, EndNameAt(i, st))
  {
    assert EndNameAt(i, EndNameAt(i, st)) == EndNameAt(i, st);
  }

  // ---- Marks ----

  /** While the end of a comment, an instruction, a section or an end tag is looked for. */
  predicate InMark(st: Scan) {
    && st.end !in {NoEnd, LtEnd} && st.typ in {PI, COMMENT, CDATA, END_TAG} && st.quote == NoQuote && st.phase == NoPhase
    && (st.end == GtEnd <==> st.typ == END_TAG)
  }

  predicate MarkEnds(s: string, base: nat, k: nat, end: End)
    requires k < |s|
  {
    s[k] == '>' && (end == GtEnd || Completes(s, base, k, end))
  }

  /** A state behind a mark that was looked for from `st` on. */
  predicate MarkOver(st: Scan, x: Scan) {
    && x.typ == st.typ && x.doctype == st.doctype && x.end == NoEnd && x.quote == NoQuote && x.phase == NoPhase && !x.inName
    && x.equals == st.equals && x.d1 == (if st.inName then '\0' else st.d1)
    && (!st.inName ==> x.name == st.name && x.nameLen == st.nameLen)
  }

  predicate MarkRuns(s: string, base: nat, i: nat, st: Scan, q: nat, x: Scan)
    requires i <= |s| && q < |s|
  {
    MarkOver(st, x) && Run(s, base, i, st) == if st.doctype then Run(s, base, q + 1, x) else Result(x, q + 1, false)
  }

  ghost predicate MarkGoes(s: string, base: nat, i: nat, st: Scan, q: int)
    requires i <= |s|
  {
    0 <= q < |s| && exists x :: MarkRuns(s, base, i, st, q, x)
  }

  lemma MarkStep(s: string, base: nat, i: nat, st: Scan)
    requires i < |s| && InMark(st) && !MarkEnds(s, base, i, st.end)
    ensures Step(s, base, i, st) == More(if st.inName && !EndName(s[i]) then st else EndNameAt(i, st)) && InMark(EndNameAt(i, st))
  {
  }

  lemma {:induction false} MarkRun(s: string, base: nat, i: nat, st: Scan, q: nat)
    requires i <= q <= |s| && InMark(st) && (forall k :: i <= k < q ==> !MarkEnds(s, base, k, st.end)) && (q < |s| ==> MarkEnds(s, base, q, st.end))
    ensures q == |s| ==> Run(s, base, i, st).eof && Run(s, base, i, st).next == |s| && Run(s, base, i, st).st.typ == st.typ
    ensures q < |s| ==> MarkGoes(s, base, i, st, q)
    decreases |s| - i
  {
    hide Completes;
    if i < q {
      MarkStep(s, base, i, st);
      var y := if st.inName && !EndName(s[i]) then st else EndNameAt(i, st);
      MarkRun(s, base, i + 1, y, q);
      if q < |s| {
        var x :| MarkRuns(s, base, i + 1, y, q, x);
        assert MarkRuns(s, base, i, st, q, x);
      }
    } else if q < |s| {
      var a := EndNameAt(i, st);
      var x := a.(quote := NoQuote, end := NoEnd, empty := a.empty || (a.end == GtEnd && ClosesEmpty(a)));
      assert Step(s, base, i, st) == if st.doctype then More(x) else Stop(x, i + 1);
      assert MarkRuns(s, base, i, st, q, x);
    }
  }

  lemma MarkAt(s: string, base: nat, k: nat, end: End)
    requires k < |s| && end !in {NoEnd, LtEnd} && (end == GtEnd || base + k > end.Len())
    ensures MarkEnds(s, base, k, end) <==> k + 1 >= end.Len() && At(s, k + 1 - end.Len(), end.Text())
  {
    var p := k + 1 - end.Len();
    if p >= 0 {
      var x := s[p..k + 1];
      assert |x| == end.Len() && x[|x| - 1] == s[k] && (|x| > 1 ==> x[|x| - 2] == s[k - 1]) && (|x| > 2 ==> x[0] == s[k - 2]);
      assert x == end.Text() <==> MarkEnds(s, base, k, end);
    }
  }

  /** The mark that is looked for from `i` on is the first one that begins at `i0` or later. */
  lemma MarkFirst(s: string, base: nat, i: nat, st: Scan, i0: nat)
    requires InMark(st) && i <= |s| && i0 <= |s| && i < i0 + st.end.Len()
    requires forall k :: i <= k < |s| && k + 1 < i0 + st.end.Len() ==> !MarkEnds(s, base, k, st.end)
    requires st.end == GtEnd || base + i0 > 1
    ensures var q := FirstAt(s, i0, st.end.Text());
            && (q == |s| ==> Run(s, base, i, st).eof && Run(s, base, i, st).next == |s| && Run(s, base, i, st).st.typ == st.typ)
            && (q < |s| ==> MarkGoes(s, base, i, st, q + st.end.Len() - 1))
  {
    hide InMark, MarkEnds, MarkGoes;
    assert st.end !in {NoEnd, LtEnd} by { MarkKind(st); }
    var q, n := FirstAt(s, i0, st.end.Text()), st.end.Len();
    forall k | i <= k < |s| && i0 + n <= k + 1 ensures MarkEnds(s, base, k, st.end) <==> At(s, k + 1 - n, st.end.Text()) {
      MarkAt(s, base, k, st.end);
    }
    if q < |s| {
      assert At(s, q, st.end.Text());
      var k := q + n - 1;
      assert MarkEnds(s, base, k, st.end);
      MarkRun(s, base, i, st, k);
    } else {
      MarkRun(s, base, i, st, |s|);
    }
  }

  lemma MarkKind(st: Scan)
    requires InMark(st)
    ensures st.end !in {NoEnd, LtEnd}
  {
  }

  // ---- Declarations ----

  function DeclFrom(s: string, i: nat, q: Token.Quote): nat
    requires i <= |s|
  {
    if q == NoQuote || q == Unquoted then Declaration(s, i) else
    var k := FirstChar(s, i, Is(if q == InDouble then '\"' else '\''));
    if k == |s| then k else Declaration(s, k + 1)
  }

  lemma DeclPlain(s: string, i: nat)
    requires i < |s| && s[i] != '>'
    ensures Declaration(s, i) ==
            if s[i] == '\"' then DeclFrom(s, i + 1, InDouble) else if s[i] == '\'' then DeclFrom(s, i + 1, InSingle) else Declaration(s, i + 1)
  {
    hide Declaration, FirstChar, DeclStops, Is;
    FirstStep(s, i, DeclStops());
    StopsAre(s[i]);
    DeclIs(s, i);
    if s[i] != '\"' && s[i] != '\'' { DeclIs(s, i + 1); }
  }

  lemma StopsAre(c: char)
    ensures DeclStops()(c) <==> c == '>' || c == '\"' || c == '\''
  {
  }

  lemma DeclIs(s: string, i: nat)
    requires i <= |s|
    ensures var j := FirstChar(s, i, DeclStops());
            Declaration(s, i) == if j == |s| || s[j] == '>' then j else
                                 var k := FirstChar(s, j + 1, Is(s[j])); if k == |s| then k else Declaration(s, k + 1)
  {
    hide FirstChar;
  }

  lemma DeclQuoted(s: string, i: nat, q: Token.Quote)
    requires i < |s| && (q == InDouble || q == InSingle)
    ensures DeclFrom(s, i, q) == if s[i] == (if q == InDouble then '\"' else '\'') then Declaration(s, i + 1) else DeclFrom(s, i + 1, q)
  {
    hide Declaration;
    FirstStep(s, i, Is(if q == InDouble then '\"' else '\''));
  }

  lemma DeclStep(s: string, i: nat, q: Token.Quote)
    requires i < |s| && q != Unquoted && !(s[i] == '>' && q == NoQuote)
    ensures DeclFrom(s, i, q) == DeclFrom(s, i + 1, ToggleQuote(s[i], q)) && ToggleQuote(s[i], q) != Unquoted
  {
    hide Declaration;
    if q == NoQuote { DeclPlain(s, i); } else { DeclQuoted(s, i, q); }
  }

  lemma DeclBound(s: string, i: nat, q: Token.Quote)
    requires i <= |s|
    ensures i <= DeclFrom(s, i, q) <= |s| && DeclFrom(s, |s|, q) == |s|
  {
  }

  lemma DeclEnds(s: string, i: nat)
    requires i < |s| && s[i] == '>'
    ensures DeclFrom(s, i, NoQuote) == i
  {
  }

  lemma DeclChar(s: string, base: nat, i: nat, st: Scan)
    requires i < |s| && st.typ == DOCTYPE && st.doctype && st.end == GtEnd && st.phase == NoPhase && !st.inName && st.quote != Unquoted
    ensures Step(s, base, i, st) ==
            More(if s[i] == '>' && st.quote == NoQuote then st.(quote := NoQuote, end := NoEnd) else st.(quote := ToggleQuote(s[i], st.quote)))
  {
  }

  lemma {:induction false} DeclRun(s: string, base: nat, i: nat, st: Scan)
    requires i <= |s| && st.typ == DOCTYPE && st.doctype && st.end == GtEnd && st.phase == NoPhase && !st.inName && st.quote != Unquoted
    ensures var q := DeclFrom(s, i, st.quote);
            && i <= q <= |s|
            && (q == |s| ==> Run(s, base, i, st).eof && Run(s, base, i, st).next == |s| && Run(s, base, i, st).st.typ == DOCTYPE)
            && (q < |s| ==> Run(s, base, i, st) == Run(s, base, q + 1, st.(quote := NoQuote, end := NoEnd)))
    decreases |s| - i
  {
    hide Step, Declaration, DeclFrom, ToggleQuote;
    DeclBound(s, i, st.quote);
    if i < |s| {
      DeclChar(s, base, i, st);
      if s[i] == '>' && st.quote == NoQuote {
        DeclEnds(s, i);
      } else {
        DeclStep(s, i, st.quote);
        DeclRun(s, base, i + 1, st.(quote := ToggleQuote(s[i], st.quote)));
      }
    }
  }

  // ---- Document types ----

  /** Between the tags of a document type. */
  predicate InDoc(st: Scan, eq: bool, spent: bool) {
    && st.doctype && st.phase == NoPhase && st.end == NoEnd && st.quote == NoQuote && !st.inName && !TextType(st.typ)
    && st.equals == eq && (!eq ==> (st.d1 == '=' <==> spent))
  }

  /** The scan cuts this piece. */
  predicate Cuts(r: Result, p: Piece) {
    NodeOf(r).typ == p.typ && NodeOf(r).len == p.len
  }

  lemma DocMarks(s: string, i: nat, eq: bool, spent: bool)
    requires i < |s|
    ensures s[i] == '>' ==> DocType(s, i, eq, spent) == Piece(DOCTYPE, i + 1)
    ensures s[i] != '>' && s[i] != '<' ==> DocType(s, i, eq, spent) == DocType(s, i + 1, eq, spent)
    ensures s[i] == '<' ==> DocType(s, i, eq, spent) == DocTypeAt(s, i, eq, spent)
  {
    hide DocTypeAt;
    FirstStep(s, i, TagMarks());
  }

  /** The character that closes a tag inside a document type. */
  lemma CloseStep(s: string, base: nat, at: nat, x: Scan, m: Mode, bad: bool)
    requires at < |s| && s[at] == '>' && InMode(x, m, bad) && !m.Quoted? && x.doctype
    ensures var y := x.(quote := NoQuote, end := NoEnd, empty := x.empty || ClosesEmpty(x));
            Step(s, base, at, x) == More(y) && y.doctype && y.phase == NoPhase && !y.inName && !TextType(y.typ) && y.equals == m.Awaiting?
  {
  }

  /** A tag inside a document type is scanned from `i` on; behind its name, or behind what makes it bad, it begins at `from`. */
  lemma {:induction false} DocTag(s: string, base: nat, i: nat, st: Scan, m: Mode, bad: bool, from: nat, d: char, spent: bool)
    requires 3 <= from <= i <= |s| && InMode(st, m, bad) && Fresh(s, i, st, m) && Tracks(s, from, i, st, d) && st.doctype
    requires (m.Awaiting? && i == from) || (d == '=' <==> spent)
    ensures Cuts(Run(s, base, i, st), DocTypeOn(s, from, EndIn(s, i, m, bad), spent))
    decreases |s| - i, 0
  {
    hide InMode, EndIn, Fresh, DocType, ClosesEmpty, Step;
    assert st.typ == (if bad then BAD else ELEMENT) by { ModeType(st, m, bad); }
    TagRun(s, base, i, st, m, bad, from, d);
    var e := EndIn(s, i, m, bad);
    if e.Closed? {
      var n, x :| AtClose(s, base, i, st, e, bad, from, d, n, x);
      CloseStep(s, base, e.at, x, n, bad);
      var y := x.(quote := NoQuote, end := NoEnd, empty := x.empty || ClosesEmpty(x));
      assert Run(s, base, i, st) == Run(s, base, e.at + 1, y);
      if e.at == from { ClosesAtOnce(s, from, m, bad); }
      DocRun(s, base, e.at + 1, y, e.eq, Spent(s, from, e, spent));
    }
  }

  lemma ModeType(st: Scan, m: Mode, bad: bool)
    requires InMode(st, m, bad)
    ensures st.typ == (if bad then BAD else ELEMENT)
  {
  }

  lemma ClosesAtOnce(s: string, i: nat, m: Mode, bad: bool)
    requires i <= |s| && EndIn(s, i, m, bad).Closed? && EndIn(s, i, m, bad).at == i
    ensures EndIn(s, i, m, bad).eq == m.Awaiting?
  {
  }

  /** A mark inside a document type. */
  lemma {:induction false} DocMark(s: string, base: nat, i: nat, st: Scan, i0: nat, eq: bool, spent: bool)
    requires InMark(st) && i <= |s| && i0 <= |s| && 3 <= i0 && i < i0 + st.end.Len() && i0 <= i
    requires forall k :: i <= k < |s| && k + 1 < i0 + st.end.Len() ==> !MarkEnds(s, base, k, st.end)
    requires st.doctype && st.equals == eq && (if st.inName then !spent else !eq ==> (st.d1 == '=' <==> spent))
    ensures Cuts(Run(s, base, i, st), DocTypeBehind(s, FirstAt(s, i0, st.end.Text()), st.end.Len(), eq, spent))
    decreases |s| - i, 0
  {
    hide MarkEnds, DocType, FirstAt;
    MarkFirst(s, base, i, st, i0);
    var q, n := FirstAt(s, i0, st.end.Text()), st.end.Len();
    if q < |s| {
      var k := q + n - 1;
      var x :| MarkRuns(s, base, i, st, k, x);
      DocRun(s, base, k + 1, x, eq, spent);
    }
  }

  /** Equals signs that do not count. */
  lemma {:induction false} SpentRun(s: string, base: nat, i: nat, st: Scan)
    requires i <= |s| && InMode(st, Plainly, true) && st.d1 == '='
    ensures var k := FirstChar(s, i, NotEquals()); exists x :: SpentTo(s, base, i, st, k, x)
    decreases |s| - i
  {
    if i < |s| && s[i] == '=' {
      var x := st.(d2 := st.d1, d1 := '=');
      assert Step(s, base, i, st) == More(x);
      SpentRun(s, base, i + 1, x);
      var k := FirstChar(s, i, NotEquals());
      var y :| SpentTo(s, base, i + 1, x, k, y);
      assert SpentTo(s, base, i, st, k, y);
    } else {
      assert FirstChar(s, i, NotEquals()) == i;
      assert SpentTo(s, base, i, st, i, st);
    }
  }

  predicate SpentTo(s: string, base: nat, i: nat, st: Scan, k: nat, x: Scan) {
    && i <= k <= |s| && x == st.(d2 := x.d2) && Run(s, base, i, st) == Run(s, base, k, x) && (if k == i then x == st else x.d2 == '=')
    && forall n :: i <= n < k ==> s[n] == '='
  }

  /** A bad tag inside a document type, behind what makes it bad. */
  lemma {:induction false} DocBad(s: string, base: nat, i: nat, st: Scan, eq: bool, spent: bool)
    requires 3 <= i <= |s| && st.end == GtEnd && st.typ == BAD && st.phase == NoPhase && !st.inName && st.quote == NoQuote
    requires st.doctype && st.equals == eq && (!eq ==> (st.d1 == '=' <==> spent))
    ensures Cuts(Run(s, base, i, st), DocTypeOn(s, i, BadTag(s, i, eq, spent), spent))
    decreases |s| - i, 1
  {
    hide DocTypeOn, Cuts;
    if eq {
      DocTag(s, base, i, st, Awaiting, true, i, st.d1, spent);
    } else if spent {
      SpentRun(s, base, i, st);
      var k := FirstChar(s, i, NotEquals());
      var x :| SpentTo(s, base, i, st, k, x);
      assert Tracks(s, i, k, x, '=');
      DocTag(s, base, k, x, Plainly, true, i, '=', spent);
    } else {
      DocTag(s, base, i, st, Plainly, true, i, st.d1, spent);
    }
  }

  /** An element inside a document type, behind the first character of its name. */
  lemma {:induction false} DocElem(s: string, base: nat, i: nat, st: Scan, eq: bool)
    requires 3 <= i <= |s| && st.end == GtEnd && st.typ == ELEMENT && st.phase == NoPhase && st.inName && st.quote == NoQuote && st.doctype && st.equals == eq
    ensures Cuts(Run(s, base, i, st), DocTypeOn(s, NameEnds(s, i), if eq then TagValue(s, NameEnds(s, i), false) else TagPlain(s, NameEnds(s, i), false), false))
    decreases |s| - i, 1
  {
    var k := NameEnds(s, i);
    NameRun(s, base, i, st);
    if k < |s| {
      NameOver(s, base, k, st);
      DocTag(s, base, k, EndNameAt(k, st), if eq then Awaiting else Plainly, false, k, '\0', false);
    } else {
      EndOpen(s, Awaiting, false);
      EndOpen(s, Plainly, false);
    }
  }

  /** A tag, comment and so on inside a document type, from its `<` on. */
  lemma {:induction false} DocNest(s: string, base: nat, j: nat, st: Scan, eq: bool, spent: bool)
    requires 3 <= j < |s| && s[j] == '<' && InDoc(st, eq, spent)
    ensures Cuts(Run(s, base, j, st), DocTypeAt(s, j, eq, spent))
    decreases |s| - j, 2
  {
    hide DocTypeAt, DocTypeOn, DocTypeBehind, FirstAt, FirstChar, BadTag, TagValue, TagPlain, MarkEnds, NameEnds, Step, Cuts, InDoc, StartTag, InMark;
    NestStart(s, base, j, st, eq, spent);
    if j + 1 < |s| {
      var c, x := s[j + 1], AfterLt(s[j + 1], j + 1, st.(phase := OpenTag));
      NestKinds(s, j, eq, spent);
      NestStates(c, j + 1, st, eq, spent);
      if NameStart(c) {
        DocElem(s, base, j + 2, x, eq);
        StartTagIs(s, j, eq);
      } else if c == '/' {
        DocMark(s, base, j + 2, x, j + 2, eq, false);
      } else if c == '?' {
        DocMark(s, base, j + 2, x, j + 1, eq, false);
      } else if c != '!' {
        DocBad(s, base, j + 2, x, eq, spent);
      } else {
        DocBang(s, base, j, x, eq, spent);
      }
    }
  }

  lemma StartTagIs(s: string, j: nat, eq: bool)
    requires j + 2 <= |s|
    ensures StartTag(s, j, eq) == if eq then TagValue(s, NameEnds(s, j + 2), false) else TagPlain(s, NameEnds(s, j + 2), false)
  {
    hide TagValue, TagPlain, NameEnds;
  }

  /** The first two characters. */
  lemma NestStart(s: string, base: nat, j: nat, st: Scan, eq: bool, spent: bool)
    requires 3 <= j < |s| && s[j] == '<' && InDoc(st, eq, spent)
    ensures j + 1 == |s| ==> Cuts(Run(s, base, j, st), DocTypeAt(s, j, eq, spent))
    ensures j + 1 < |s| ==> Run(s, base, j, st) == Run(s, base, j + 2, AfterLt(s[j + 1], j + 1, st.(phase := OpenTag)))
  {
    hide AfterLt, DocTypeOn, DocTypeBehind, StartTag, BadTag, Declaration, FirstAt, NameEnds;
    var o := st.(phase := OpenTag);
    assert Step(s, base, j, st) == More(o);
    if j + 1 < |s| {
      assert Step(s, base, j + 1, o) == More(AfterLt(s[j + 1], j + 1, o));
    }
  }

  lemma NestKinds(s: string, j: nat, eq: bool, spent: bool)
    requires j + 1 < |s|
    ensures NameStart(s[j + 1]) ==> DocTypeAt(s, j, eq, spent) == DocTypeOn(s, NameEnds(s, j + 2), StartTag(s, j, eq), false)
    ensures s[j + 1] == '/' ==> DocTypeAt(s, j, eq, spent) == DocTypeBehind(s, FirstAt(s, j + 2, ">"), 1, eq, false)
    ensures s[j + 1] == '?' ==> DocTypeAt(s, j, eq, spent) == DocTypeBehind(s, FirstAt(s, j + 1, "?>"), 2, eq, false)
    ensures !NameStart(s[j + 1]) && s[j + 1] !in "/?!" ==> DocTypeAt(s, j, eq, spent) == DocTypeOn(s, j + 2, BadTag(s, j + 2, eq, spent), spent)
  {
    hide DocTypeOn, DocTypeBehind, StartTag, BadTag, Declaration, FirstAt, NameEnds;
  }

  lemma NestStates(c: char, i: nat, st: Scan, eq: bool, spent: bool)
    requires InDoc(st, eq, spent)
    ensures var x := AfterLt(c, i, st.(phase := OpenTag));
            && x.doctype && x.equals == eq && x.quote == NoQuote && x.d1 == st.d1 && (!eq ==> (x.d1 == '=' <==> spent))
            && (NameStart(c) ==> x.end == GtEnd && x.typ == ELEMENT && x.phase == NoPhase && x.inName)
            && (c == '/' ==> InMark(x) && x.end == GtEnd && x.inName)
            && (c == '?' ==> InMark(x) && x.end == PIEnd && x.inName)
            && (!NameStart(c) && c !in "/?!" ==> x.end == GtEnd && x.typ == BAD && x.phase == NoPhase && !x.inName)
            && (c == '!' ==> x.phase == Bang && InDoc(x.(phase := NoPhase), eq, spent))
  {
  }

  /** The same behind `<!-`. */
  lemma {:induction false} DocDash(s: string, base: nat, j: nat, st: Scan, eq: bool, spent: bool)
    requires 3 <= j && j + 2 < |s| && s[j] == '<' && s[j + 1] == '!' && s[j + 2] == '-' && InDoc(st.(phase := NoPhase), eq, spent) && st.phase == Dash
    ensures Cuts(Run(s, base, j + 3, st), DocTypeAt(s, j, eq, spent))
    decreases |s| - j, 0
  {
    hide DocTypeOn, DocTypeBehind, FirstAt, FirstChar, BadTag, TagValue, TagPlain, Declaration, MarkEnds, StartTag, NameEnds;
    if j + 3 < |s| {
      var y := AfterBang(s[j + 3], st);
      assert Step(s, base, j + 3, st) == More(y) && Run(s, base, j + 3, st) == Run(s, base, j + 4, y);
      if s[j + 3] == '-' {
        DocMark(s, base, j + 4, y, j + 2, eq, spent);
      } else {
        DocBad(s, base, j + 4, y, eq, spent);
      }
    }
  }

  /** The same behind `<!`. */
  lemma {:induction false} DocBang(s: string, base: nat, j: nat, st: Scan, eq: bool, spent: bool)
    requires 3 <= j && j + 1 < |s| && s[j] == '<' && s[j + 1] == '!' && InDoc(st.(phase := NoPhase), eq, spent) && st.phase == Bang
    ensures Cuts(Run(s, base, j + 2, st), DocTypeAt(s, j, eq, spent))
    decreases |s| - j, 1
  {
    hide DocTypeOn, DocTypeBehind, FirstAt, FirstChar, BadTag, TagValue, TagPlain, Declaration, MarkEnds, StartTag, NameEnds;
    if j + 2 < |s| {
      var c := s[j + 2];
      var x := AfterBang(c, st);
      assert Step(s, base, j + 2, st) == More(x) && Run(s, base, j + 2, st) == Run(s, base, j + 3, x);
      if c == '-' {
        DocDash(s, base, j, x, eq, spent);
      } else if DocTypeStart(c) {
        DocDecl(s, base, j + 3, x, eq, spent);
      } else {
        DocBad(s, base, j + 3, x, eq, spent);
      }
    }
  }

  lemma {:induction false} DocDecl(s: string, base: nat, i: nat, st: Scan, eq: bool, spent: bool)
    requires 3 <= i <= |s| && st.typ == DOCTYPE && st.doctype && st.end == GtEnd && st.phase == NoPhase && !st.inName && st.quote == NoQuote
    requires st.equals == eq && (!eq ==> (st.d1 == '=' <==> spent))
    ensures Cuts(Run(s, base, i, st), DocTypeBehind(s, Declaration(s, i), 1, eq, spent))
    decreases |s| - i, 1
  {
    hide DocType, Declaration;
    DeclRun(s, base, i, st);
    var q := Declaration(s, i);
    if q < |s| { DocRun(s, base, q + 1, st.(quote := NoQuote, end := NoEnd), eq, spent); }
  }

  /** A document type ends as the grammar says. */
  lemma {:induction false} DocRun(s: string, base: nat, i: nat, st: Scan, eq: bool, spent: bool)
    requires 3 <= i <= |s| && InDoc(st, eq, spent)
    ensures Cuts(Run(s, base, i, st), DocType(s, i, eq, spent))
    decreases |s| - i, 3
  {
    hide DocType, DocTypeAt;
    if i == |s| {
      DocOver(s, eq, spent);
    } else {
      DocMarks(s, i, eq, spent);
      if s[i] == '<' {
        DocNest(s, base, i, st, eq, spent);
      } else if s[i] != '>' {
        assert Step(s, base, i, st) == More(st);
        DocRun(s, base, i + 1, st, eq, spent);
      }
    }
  }

  lemma DocOver(s: string, eq: bool, spent: bool)
    ensures DocType(s, |s|, eq, spent) == Piece(BAD, |s|)
  {
  }

  // ---- All nodes ----

  lemma {:induction false} TextRun(s: string, base: nat, i: nat, st: Scan)
    requires i <= |s| && st.end == LtEnd && st.typ == TEXT && st.quote == NoQuote && !st.inName && !st.doctype
    ensures var q := FirstChar(s, i, TagMarks()); Cuts(Run(s, base, i, st), Piece(TEXT, if q < |s| && s[q] == '>' then q + 1 else q))
    decreases |s| - i
  {
    if i < |s| {
      FirstStep(s, i, TagMarks());
      if !TagMarks()(s[i]) {
        assert Step(s, base, i, st) == More(st);
        TextRun(s, base, i + 1, st);
      }
    }
  }

  lemma {:induction false} WhiteRun(s: string, base: nat, i: nat, st: Scan)
    requires i <= |s| && st == START.(phase := TextOrWs, typ := WHITESPACE)
    ensures var w := FirstChar(s, i, NotWhite());
            if w == |s| || s[w] == '<' then Cuts(Run(s, base, i, st), Piece(WHITESPACE, w))
            else Run(s, base, i, st) == Run(s, base, w + 1, START.(end := LtEnd, typ := TEXT))
    decreases |s| - i
  {
    if i < |s| {
      FirstStep(s, i, NotWhite());
      if White(s[i]) {
        assert Step(s, base, i, st) == More(st);
        WhiteRun(s, base, i + 1, st);
      } else if s[i] != '<' {
        assert Step(s, base, i, st) == More(st.Find(LtEnd, TEXT));
      }
    }
  }

  lemma TextFront(s: string, base: nat)
    requires s != "" && s[0] != '<'
    ensures Cuts(Run(s, base, 0, START), TextPiece(s))
  {
    hide TagMarks, NotWhite, FirstChar;
    FirstStep(s, 0, NotWhite());
    assert NotWhite()(s[0]) <==> !White(s[0]) by { WhiteIs(s[0]); }
    var st := START.(end := LtEnd, typ := TEXT);
    if White(s[0]) {
      assert Step(s, base, 0, START) == More(START.(phase := TextOrWs, typ := WHITESPACE));
      WhiteRun(s, base, 1, START.(phase := TextOrWs, typ := WHITESPACE));
      var w := FirstChar(s, 1, NotWhite());
      if w < |s| && s[w] != '<' { TextRun(s, base, w + 1, st); }
    } else {
      assert Step(s, base, 0, START) == More(st);
      TextRun(s, base, 1, st);
    }
  }

  lemma WhiteIs(c: char)
    ensures NotWhite()(c) <==> !White(c)
  {
  }

  /** A tag on its own, behind its name or behind what makes it bad. */
  lemma TopTag(s: string, base: nat, i: nat, st: Scan, m: Mode, bad: bool)
    requires i <= |s| && InMode(st, m, bad) && Fresh(s, i, st, m) && !st.doctype && !st.empty && (st.d1 == '\0' || bad)
    ensures var e, r := EndIn(s, i, m, bad), Run(s, base, i, st);
            match e
            case Unclosed => Cuts(r, Piece(BAD, |s|))
            case CutOff(at) => Cuts(r, Piece(BAD, at))
            case Closed(at, _, _) =>
              Cuts(r, Piece(if bad then BAD else ELEMENT, at + 1)) && r.st.name == st.name && r.st.nameLen == st.nameLen
              && (!bad ==> r.st.empty == EmptyTag(s, i, e))
  {
    hide InMode, EndIn, Fresh, EmptyTag;
    assert st.typ == (if bad then BAD else ELEMENT) by { ModeType(st, m, bad); }
    TagRun(s, base, i, st, m, bad, i, st.d1);
    var e := EndIn(s, i, m, bad);
    if e.Closed? {
      var n, x :| AtClose(s, base, i, st, e, bad, i, st.d1, n, x);
      TopClose(s, base, e.at, x, n, bad);
      if !bad { EmptyClose(s, i, x, n, e); }
    }
  }

  lemma TopClose(s: string, base: nat, at: nat, x: Scan, m: Mode, bad: bool)
    requires at < |s| && s[at] == '>' && InMode(x, m, bad) && !m.Quoted? && !x.doctype
    ensures Run(s, base, at, x) == Result(x.(quote := NoQuote, end := NoEnd, empty := x.empty || ClosesEmpty(x)), at + 1, false)
  {
  }

  lemma EmptyClose(s: string, k: nat, x: Scan, m: Mode, e: TagEnd)
    requires e.Closed? && k <= e.at <= |s| && InMode(x, m, false) && !m.Quoted? && e.bare == m.Barely? && Tracks(s, k, e.at, x, '\0')
    ensures ClosesEmpty(x) <==> EmptyTag(s, k, e)
  {
  }

  lemma TopElem(s: string, base: nat, st: Scan)
    requires |s| >= 2 && st == START.(end := GtEnd, typ := ELEMENT, inName := true, name := 1)
    ensures var e, k, r := StartTag(s, 0, false), NameEnds(s, 2), Run(s, base, 2, st);
            match e
            case Unclosed => Cuts(r, Piece(BAD, |s|))
            case CutOff(at) => Cuts(r, Piece(BAD, at))
            case Closed(at, _, _) => Cuts(r, Piece(ELEMENT, at + 1)) && r.st.name == 1 && r.st.nameLen == k - 1 && r.st.empty == EmptyTag(s, k, e)
  {
    hide EmptyTag, Cuts;
    var k := NameEnds(s, 2);
    NameRun(s, base, 2, st);
    if k < |s| {
      NameOver(s, base, k, st);
      TopTag(s, base, k, EndNameAt(k, st), Plainly, false);
    } else {
      EndOpen(s, Plainly, false);
      NoMore(s, base, st);
    }
  }

  lemma NoMore(s: string, base: nat, st: Scan)
    requires !TextType(st.typ)
    ensures Cuts(Run(s, base, |s|, st), Piece(BAD, |s|))
  {
  }

  lemma TopBad(s: string, base: nat, i: nat, st: Scan)
    requires i <= |s| && st == START.(end := GtEnd)
    ensures Cuts(Run(s, base, i, st), BadPiece(s, i))
  {
    hide Cuts;
    TopTag(s, base, i, st, Plainly, true);
  }

  /** A mark on its own. */
  lemma TopMark(s: string, base: nat, i: nat, st: Scan, i0: nat)
    requires InMark(st) && i <= |s| && i0 <= |s| && i < i0 + st.end.Len() && !st.doctype && (st.end == GtEnd || base + i0 > 1)
    requires forall k :: i <= k < |s| && k + 1 < i0 + st.end.Len() ==> !MarkEnds(s, base, k, st.end)
    ensures Cuts(Run(s, base, i, st), Through(s, i0, st.end.Text(), st.typ))
  {
    hide MarkEnds, FirstAt;
    MarkFirst(s, base, i, st, i0);
    var q := FirstAt(s, i0, st.end.Text());
    if q < |s| {
      var k := q + st.end.Len() - 1;
      var x :| MarkRuns(s, base, i, st, k, x);
    }
  }

  /** What begins with `<!`. */
  lemma BangFront(s: string, base: nat, st: Scan)
    requires |s| >= 2 && s[0] == '<' && s[1] == '!' && st == START.(phase := Bang)
    ensures Cuts(Run(s, base, 2, st), Declared(s))
  {
    hide DocType, Through, BadPiece, MarkEnds;
    if |s| > 2 {
      var x := AfterBang(s[2], st);
      assert Step(s, base, 2, st) == More(x) && Run(s, base, 2, st) == Run(s, base, 3, x);
      if s[2] == 'D' {
        DocRun(s, base, 3, x, false, false);
      } else if s[2] == '-' || s[2] == '[' {
        if |s| > 3 {
          var y := AfterBang(s[3], x);
          assert Step(s, base, 3, x) == More(y) && Run(s, base, 3, x) == Run(s, base, 4, y);
          if s[2] == '-' && s[3] == '-' {
            TopMark(s, base, 4, y, 2);
          } else if s[2] == '[' && s[3] == 'C' {
            SectionStart(s, base);
            TopMark(s, base, 4, y, 4);
          } else {
            TopBad(s, base, 4, y);
          }
        }
      } else {
        TopBad(s, base, 3, x);
      }
    }
  }

  lemma SectionStart(s: string, base: nat)
    requires |s| > 3 && s[2] == '[' && s[3] == 'C'
    ensures forall k :: 4 <= k < |s| && k < 6 ==> !MarkEnds(s, base, k, CDATAEnd)
  {
  }

  lemma InstructionStart(s: string, base: nat)
    requires |s| > 1 && s[1] == '?'
    ensures base == 0 && 2 < |s| ==> !MarkEnds(s, base, 2, PIEnd)
  {
  }

  lemma OtherFront(s: string, base: nat, x: Scan)
    requires |s| > 1 && s[0] == '<' && !NameStart(s[1]) && x == AfterLt(s[1], 1, START.(phase := OpenTag))
    ensures Cuts(Run(s, base, 2, x), Front(s, base)) && Front(s, base).typ != ELEMENT
  {
    hide Through, Declared, BadPiece, StartTag, EmptyTag, MarkEnds, TextPiece, Cuts;
    if s[1] == '/' {
      TopMark(s, base, 2, x, 2);
    } else if s[1] == '?' {
      InstructionStart(s, base);
      TopMark(s, base, 2, x, if base == 0 then 2 else 1);
    } else if s[1] == '!' {
      BangFront(s, base, x);
    } else {
      TopBad(s, base, 2, x);
    }
  }

  /** Every text is cut as the grammar says. */
  lemma FrontIs(s: string, base: nat)
    ensures var n, p := NodeAt(s, base), Front(s, base); n.typ == p.typ && n.len == p.len
    ensures NodeAt(s, base).typ == ELEMENT ==>
              |s| >= 2 && var n, k := NodeAt(s, base), NameEnds(s, 2); n.name == 1 && n.nameLen == k - 1 && n.empty == EmptyTag(s, k, StartTag(s, 0, false))
  {
    hide Through, Declared, BadPiece, StartTag, EmptyTag, MarkEnds, TextPiece;
    if s != "" && s[0] != '<' {
      TextFront(s, base);
    } else if |s| > 1 {
      var o := START.(phase := OpenTag);
      assert Step(s, base, 0, START) == More(o) && Run(s, base, 0, START) == Run(s, base, 1, o);
      var x := AfterLt(s[1], 1, o);
      assert Step(s, base, 1, o) == More(x) && Run(s, base, 1, o) == Run(s, base, 2, x);
      if NameStart(s[1]) {
        TopElem(s, base, x);
      } else {
        OtherFront(s, base, x);
      }
    } else if |s| == 1 {
      var o := START.(phase := OpenTag);
      assert Step(s, base, 0, START) == More(o) && Run(s, base, 0, START) == Run(s, base, 1, o);
    }
  }

  // ---- Nodes of a document ----

  /** `x` stands at `q`, and nowhere between `from` and there. */
  predicate FirstOf(doc: string, from: nat, x: string, q: nat) {
    from <= q && At(doc, q, x) && forall k :: from <= k < q ==> !At(doc, k, x)
  }

  /** The node at `p` goes on through the first `x` from `from` on, and is of type `typ`; when there is none, the rest of
      the document is a bad node. */
  predicate EndsWith(doc: string, p: nat, from: nat, x: string, typ: int)
    requires p <= |doc|
  {
    && (NodeIn(doc, p).typ == typ <==> exists q :: from <= q <= |doc| && At(doc, q, x))
    && (forall q :: from <= q <= |doc| && FirstOf(doc, from, x, q) ==> NodeIn(doc, p).len == q + |x| - p)
    && (NodeIn(doc, p).typ != typ ==> NodeIn(doc, p).typ == BAD && NodeIn(doc, p).len == |doc| - p)
  }

  lemma AtTail(doc: string, p: nat, k: nat, x: string)
    requires p <= |doc|
    ensures At(doc[p..], k, x) <==> At(doc, p + k, x)
  {
    if p + k + |x| <= |doc| {
      assert doc[p..][k..k + |x|] == doc[p + k..p + k + |x|];
    }
  }

  lemma ThroughIs(doc: string, p: nat, i: nat, x: string, typ: int)
    requires p + i <= |doc| && x != "" && typ != BAD
    requires NodeIn(doc, p).typ == Through(doc[p..], i, x, typ).typ && NodeIn(doc, p).len == Through(doc[p..], i, x, typ).len
    ensures EndsWith(doc, p, p + i, x, typ)
  {
    hide NodeIn, At;
    var s := doc[p..];
    var q := FirstAt(s, i, x);
    AtTail(doc, p, q, x);
    if q < |s| {
      assert At(doc, p + q, x);
    }
    forall k | p + i <= k <= |doc| && At(doc, k, x) ensures q <= k - p && q < |s| {
      AtTail(doc, p, k - p, x);
      NoneBefore(s, i, x, k - p);
    }
  }

  lemma NoneBefore(s: string, i: nat, x: string, k: nat)
    requires i <= k <= |s| && x != "" && At(s, k, x)
    ensures FirstAt(s, i, x) <= k && FirstAt(s, i, x) < |s|
  {
  }

  lemma NodeIsFront(doc: string, p: nat)
    requires p <= |doc|
    ensures NodeIn(doc, p).typ == Front(doc[p..], p).typ && NodeIn(doc, p).len == Front(doc[p..], p).len
  {
    hide NodeAt, Front;
    FrontIs(doc[p..], p);
  }

  lemma Begins(doc: string, p: nat, x: string)
    requires p <= |doc| && At(doc, p, x)
    ensures |doc[p..]| >= |x| && forall k :: 0 <= k < |x| ==> doc[p..][k] == x[k]
  {
    assert doc[p..][..|x|] == x;
  }

  /** A comment ends with the first `-->` behind its `<!`. */
  lemma CommentEnds(doc: string, p: nat)
    requires p <= |doc| && At(doc, p, "<!--")
    ensures EndsWith(doc, p, p + 2, "-->", COMMENT)
  {
    hide NodeIn, Through, EndsWith;
    Begins(doc, p, "<!--");
    NodeIsFront(doc, p);
    ThroughIs(doc, p, 2, "-->", COMMENT);
  }

  /** An instruction ends with the first `?>`; the question mark may be that of its `<?`, but at the start of the document. */
  lemma InstructionEnds(doc: string, p: nat)
    requires p <= |doc| && At(doc, p, "<?")
    ensures EndsWith(doc, p, if p == 0 then 2 else p + 1, "?>", PI)
  {
    hide NodeIn, Through, EndsWith;
    Begins(doc, p, "<?");
    NodeIsFront(doc, p);
    ThroughIs(doc, p, if p == 0 then 2 else 1, "?>", PI);
  }

  /** A CDATA section ends with the first `]]>`. */
  lemma SectionEnds(doc: string, p: nat)
    requires p <= |doc| && At(doc, p, "<![C")
    ensures EndsWith(doc, p, p + 4, "]]>", CDATA)
  {
    hide NodeIn, Through, EndsWith;
    Begins(doc, p, "<![C");
    NodeIsFront(doc, p);
    ThroughIs(doc, p, 4, "]]>", CDATA);
  }

  /** An end tag ends with the first `>`, also in quotes. */
  lemma EndTagEnds(doc: string, p: nat)
    requires p <= |doc| && At(doc, p, "</")
    ensures EndsWith(doc, p, p + 2, ">", END_TAG)
  {
    hide NodeIn, Through, EndsWith;
    Begins(doc, p, "</");
    NodeIsFront(doc, p);
    ThroughIs(doc, p, 2, ">", END_TAG);
  }

  /** A start tag ends with the first `>` outside quoted values; it is that of an empty element exactly if a slash stands
      in front of that and is not part of a value, and its name goes on to the first white space, slash or `>`. */
  lemma StartTagEnds(doc: string, p: nat)
    requires p + 1 < |doc| && doc[p] == '<' && NameStart(doc[p + 1])
    ensures var n, s := NodeIn(doc, p), doc[p..]; var e, k := StartTag(s, 0, false), NameEnds(s, 2);
            if e.Closed? then n == Node(ELEMENT, e.at + 1, 1, k - 1, EmptyTag(s, k, e)) else n.typ == BAD && n.len == |s|
  {
    hide NodeAt, StartTag, EmptyTag, NameEnds;
    FrontIs(doc[p..], p);
  }

  /** A document type ends with the first `>` outside the tags in it, each of which ends as the grammar says. */
  lemma DocTypeEnds(doc: string, p: nat)
    requires p <= |doc| && At(doc, p, "<!D")
    ensures |doc[p..]| >= 3 && var n, d := NodeIn(doc, p), DocType(doc[p..], 3, false, false); n.typ == d.typ && n.len == d.len
  {
    hide NodeIn, DocType;
    Begins(doc, p, "<!D");
    NodeIsFront(doc, p);
  }

  /** White space in front of a tag or of the end is a node; other text ends in front of the next `<` or behind the next `>`. */
  lemma TextEnds(doc: string, p: nat)
    requires p < |doc| && doc[p] != '<'
    ensures var n, t := NodeIn(doc, p), TextPiece(doc[p..]); n.typ == t.typ && n.len == t.len
  {
    hide NodeIn, TextPiece;
    NodeIsFront(doc, p);
  }
}
