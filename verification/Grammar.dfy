/** Where nodes end, said by the characters that end them and not by a scan: the first `-->` ends a comment, the first
    `>` outside quotes a start tag, and so on.  The scanner cuts every text as this says. */
module Grammar {
  import opened Chars
  import opened Token

  // ---- Places in a text ----

  /** The first place from `i` on at which `x` stands, or the end of the text. */
  function FirstAt(s: string, i: nat, x: string): (q: nat)
    requires i <= |s| && x != ""
    ensures i <= q <= |s| && (q < |s| ==> At(s, q, x)) && (forall k :: i <= k < q ==> !At(s, k, x))
    decreases |s| - i
  {
    if i == |s| || At(s, i, x) then i else FirstAt(s, i + 1, x)
  }

  /** The first place from `i` on with a character that `P` holds of, or the end of the text. */
  function FirstChar(s: string, i: nat, P: char -> bool): (q: nat)
    requires i <= |s|
    ensures i <= q <= |s| && (q < |s| ==> P(s[q])) && (forall k :: i <= k < q ==> !P(s[k]))
    decreases |s| - i
  {
    if i == |s| || P(s[i]) then i else FirstChar(s, i + 1, P)
  }

  // ---- Tags ----

  /** How a tag ends: not at all; at a `<`, when it is no proper tag (`bad`); or at the `>` at `at`, which may come in a
      value without quotes (`bare`), or where a value was still expected (`eq`). */
  datatype TagEnd = Unclosed | CutOff(at: nat) | Closed(at: nat, bare: bool, eq: bool)

  predicate TagEnds(s: string, i: nat, e: TagEnd, bad: bool) {
    match e
    case Unclosed => true
    case CutOff(at) => bad && i <= at < |s| && s[at] == '<'
    case Closed(at, _, _) => i <= at < |s| && s[at] == '>'
  }

  function PlainStops(bad: bool): char -> bool {
    c => c == '>' || c == '=' || (bad && c == '<')
  }

  function QuoteStops(q: char, bad: bool): char -> bool {
    c => c == q || (bad && c == '<')
  }

  function BareStops(bad: bool): char -> bool {
    c => White(c) || c == '>' || (bad && c == '<')
  }

  function NotWhite(): char -> bool {
    c => !White(c)
  }

  function NotEquals(): char -> bool {
    c => c != '='
  }

  function TagMarks(): char -> bool {
    c => c == '<' || c == '>'
  }

  function DeclStops(): char -> bool {
    c => c == '>' || c == '\"' || c == '\''
  }

  function Is(x: char): char -> bool {
    c => c == x
  }

  /** The end of the tag from `i` on, outside values. */
  function TagPlain(s: string, i: nat, bad: bool): (e: TagEnd)
    requires i <= |s|
    ensures TagEnds(s, i, e, bad)
    decreases |s| - i, 1
  {
    var j := FirstChar(s, i, PlainStops(bad));
    if j == |s| then Unclosed
    else if s[j] == '>' then Closed(j, false, false)
    else if s[j] == '=' then TagValue(s, j + 1, bad)
    else CutOff(j)
  }

  /** Behind an equals sign: a value in quotes of either kind, or one without quotes. */
  function TagValue(s: string, i: nat, bad: bool): (e: TagEnd)
    requires i <= |s|
    ensures TagEnds(s, i, e, bad)
    decreases |s| - i, 0
  {
    var j := FirstChar(s, i, NotWhite());
    if j == |s| then Unclosed
    else if s[j] == '>' then Closed(j, false, true)
    else if bad && s[j] == '<' then CutOff(j)
    else if s[j] == '\"' || s[j] == '\'' then TagQuoted(s, j + 1, s[j], bad)
    else TagBare(s, j + 1, bad)
  }

  /** Inside a value in quotes `q`. */
  function TagQuoted(s: string, i: nat, q: char, bad: bool): (e: TagEnd)
    requires i <= |s|
    ensures TagEnds(s, i, e, bad)
    decreases |s| - i, 0
  {
    var j := FirstChar(s, i, QuoteStops(q, bad));
    if j == |s| then Unclosed else if s[j] == q then TagPlain(s, j + 1, bad) else CutOff(j)
  }

  /** Inside a value without quotes. */
  function TagBare(s: string, i: nat, bad: bool): (e: TagEnd)
    requires i <= |s|
    ensures TagEnds(s, i, e, bad)
    decreases |s| - i, 0
  {
    var j := FirstChar(s, i, BareStops(bad));
    if j == |s| then Unclosed
    else if s[j] == '>' then Closed(j, true, false)
    else if White(s[j]) then TagPlain(s, j + 1, bad)
    else CutOff(j)
  }

  /** Where the name of a tag ends that begins before `i`. */
  function NameEnds(s: string, i: nat): nat
    requires i <= |s|
  {
    FirstChar(s, i, c => EndName(c))
  }

  /** A start tag at `p`; `eq` tells that a value is expected already. */
  function StartTag(s: string, p: nat, eq: bool): (e: TagEnd)
    requires p + 2 <= |s|
    ensures TagEnds(s, NameEnds(s, p + 2), e, false)
  {
    var j := NameEnds(s, p + 2);
    if eq then TagValue(s, j, false) else TagPlain(s, j, false)
  }

  /** What begins like a tag but is none, from `i` on; `spent` tells that the last character of the tag before it was an
      equals sign inside a value: others right behind it do not count. */
  function BadTag(s: string, i: nat, eq: bool, spent: bool): (e: TagEnd)
    requires i <= |s|
    ensures TagEnds(s, i, e, true)
  {
    if eq then TagValue(s, i, true)
    else if spent then TagPlain(s, FirstChar(s, i, NotEquals()), true)
    else TagPlain(s, i, true)
  }

  // ---- Document types ----

  /** The end of a declaration inside a document type: the first `>` outside quotes. */
  function Declaration(s: string, i: nat): (q: nat)
    requires i <= |s|
    ensures i <= q <= |s| && (q < |s| ==> s[q] == '>')
    decreases |s| - i
  {
    var j := FirstChar(s, i, DeclStops());
    if j == |s| || s[j] == '>' then j else
    var k := FirstChar(s, j + 1, Is(s[j]));
    if k == |s| then k else Declaration(s, k + 1)
  }

  /** The type and the length of a node. */
  datatype Piece = Piece(typ: int, len: nat)

  /** Whether the last character of a tag that began at `i` was an equals sign that has its value. */
  predicate Spent(s: string, i: nat, e: TagEnd, spent: bool) {
    e.Closed? && if e.at == i then spent else 0 < e.at <= |s| && !e.eq && s[e.at - 1] == '='
  }

  /** A document type from `i` on, outside the tags in it.  `eq` tells that the last tag in it ended where a value was
      expected, `spent` what `BadTag` says. */
  function DocType(s: string, i: nat, eq: bool, spent: bool): (r: Piece)
    requires i <= |s|
    ensures r.typ == DOCTYPE || r.typ == BAD
    decreases |s| - i, 3
  {
    var j := FirstChar(s, i, TagMarks());
    if j == |s| then Piece(BAD, |s|) else if s[j] == '>' then Piece(DOCTYPE, j + 1) else DocTypeAt(s, j, eq, spent)
  }

  /** The document type goes on behind the tag, comment and so on that begins at `j`. */
  function DocTypeAt(s: string, j: nat, eq: bool, spent: bool): (r: Piece)
    requires j < |s|
    ensures r.typ == DOCTYPE || r.typ == BAD
    decreases |s| - j, 2
  {
    if j + 1 == |s| then Piece(BAD, |s|)
    else if NameStart(s[j + 1]) then DocTypeOn(s, NameEnds(s, j + 2), StartTag(s, j, eq), false)
    else if s[j + 1] == '/' then DocTypeBehind(s, FirstAt(s, j + 2, ">"), 1, eq, false)
    else if s[j + 1] == '?' then DocTypeBehind(s, FirstAt(s, j + 1, "?>"), 2, eq, false)
    else if s[j + 1] != '!' then DocTypeOn(s, j + 2, BadTag(s, j + 2, eq, spent), spent)
    else if j + 2 == |s| then Piece(BAD, |s|)
    else if s[j + 2] == '-' && j + 3 == |s| then Piece(BAD, |s|)
    else if s[j + 2] == '-' && s[j + 3] == '-' then DocTypeBehind(s, FirstAt(s, j + 2, "-->"), 3, eq, spent)
    else if s[j + 2] == '-' then DocTypeOn(s, j + 4, BadTag(s, j + 4, eq, spent), spent)
    else if DocTypeStart(s[j + 2]) then DocTypeBehind(s, Declaration(s, j + 3), 1, eq, spent)
    else DocTypeOn(s, j + 3, BadTag(s, j + 3, eq, spent), spent)
  }

  /** Behind a mark of `n` characters at `q` the document type goes on. */
  function DocTypeBehind(s: string, q: nat, n: nat, eq: bool, spent: bool): (r: Piece)
    requires q <= |s| && (q < |s| ==> q + n <= |s|) && 0 < n
    ensures r.typ == DOCTYPE || r.typ == BAD
    decreases |s| - q, 1
  {
    if q == |s| then Piece(BAD, |s|) else DocType(s, q + n, eq, spent)
  }

  /** It goes on behind a tag that is closed; a `<` in a bad tag ends it. */
  function DocTypeOn(s: string, i: nat, e: TagEnd, spent: bool): (r: Piece)
    requires i <= |s| && (e.Closed? ==> i <= e.at < |s|)
    ensures r.typ == DOCTYPE || r.typ == BAD
    decreases |s| - i, 1
  {
    match e
    case Unclosed => Piece(BAD, |s|)
    case CutOff(at) => Piece(BAD, at)
    case Closed(at, _, eq) => DocType(s, at + 1, eq, Spent(s, i, e, spent))
  }

  // ---- All nodes ----

  /** What ends a bad tag ends the node. */
  function BadPiece(s: string, i: nat): (r: Piece)
    requires i <= |s|
    ensures r.typ == BAD
  {
    match BadTag(s, i, false, false)
    case Unclosed => Piece(BAD, |s|)
    case CutOff(at) => Piece(BAD, at)
    case Closed(at, _, _) => Piece(BAD, at + 1)
  }

  /** A node that goes on to the first `x` from `i` on. */
  function Through(s: string, i: nat, x: string, typ: int): (r: Piece)
    requires i <= |s| && x != ""
    ensures r.typ == typ || r.typ == BAD
  {
    var q := FirstAt(s, i, x);
    if q < |s| then Piece(typ, q + |x|) else Piece(BAD, |s|)
  }

  /** The node at the front of a text; `base` is its offset, which matters to an instruction only: `<?>` is none at the
      start of the document. */
  function Front(s: string, base: nat): Piece {
    if s == "" then Piece(END_OF_DOCUMENT, 0)
    else if s[0] != '<' then TextPiece(s)
    else if |s| == 1 then Piece(BAD, 1)
    else if NameStart(s[1]) then
      match StartTag(s, 0, false)
      case Unclosed => Piece(BAD, |s|)
      case CutOff(at) => Piece(BAD, at)
      case Closed(at, _, _) => Piece(ELEMENT, at + 1)
    else if s[1] == '/' then Through(s, 2, ">", END_TAG)
    else if s[1] == '?' then Through(s, if base == 0 then 2 else 1, "?>", PI)
    else if s[1] == '!' then Declared(s)
    else BadPiece(s, 2)
  }

  /** Text goes on to the next `<`, or through the next `>`; white space in front of a `<` is a node of its own. */
  function TextPiece(s: string): (r: Piece)
    ensures TextType(r.typ)
  {
    var w := FirstChar(s, 0, NotWhite());
    if w == |s| || s[w] == '<' then Piece(WHITESPACE, w) else
    var q := FirstChar(s, w + 1, TagMarks());
    Piece(TEXT, if q < |s| && s[q] == '>' then q + 1 else q)
  }

  /** What begins with `<!`. */
  function Declared(s: string): (r: Piece)
    requires |s| >= 2
    ensures r.typ != ELEMENT
  {
    if |s| == 2 then Piece(BAD, 2)
    else if s[2] == 'D' then DocType(s, 3, false, false)
    else if s[2] == '-' || s[2] == '[' then
      if |s| == 3 then Piece(BAD, 3)
      else if s[2] == '-' && s[3] == '-' then Through(s, 2, "-->", COMMENT)
      else if s[2] == '[' && s[3] == 'C' then Through(s, 4, "]]>", CDATA)
      else BadPiece(s, 4)
    else BadPiece(s, 3)
  }

  /** Whether the start tag that closes so is that of an empty element: a slash stands directly in front of the `>`, and
      is not the end of a value without quotes. */
  predicate EmptyTag(s: string, k: nat, e: TagEnd) {
    && e.Closed? && k < e.at <= |s| && s[e.at - 1] == '/'
    && (e.at == k + 1 || !e.bare || NotSecondLastInVal(s[e.at - 2]) || s[e.at - 2] == '\0')
  }
}
