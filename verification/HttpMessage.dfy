/** Messages written out line by line, and what the header parser and the framing make of them. */
module HttpMessages {
  import opened Chars
  import opened Numerals
  import opened Http

  // ---- Messages ----

  /** A header: its name, the blanks behind the colon, and its value. */
  datatype Field = Field(name: string, blanks: nat, value: string)

  /** Text of one line. */
  predicate Clean(x: string) {
    forall k :: 0 <= k < |x| ==> x[k] != '\r' && x[k] != '\n' && x[k] != NUL
  }

  predicate FieldOk(f: Field) {
    Clean(f.name) && ':' !in f.name && Clean(f.value) && (f.value != "" ==> f.value[0] != ' ')
  }

  function Blanks(n: nat): (s: string)
    ensures |s| == n && forall k :: 0 <= k < n ==> s[k] == ' '
  {
    if n == 0 then "" else " " + Blanks(n - 1)
  }

  function Line(f: Field): string {
    f.name + ":" + (Blanks(f.blanks) + f.value)
  }

  function Lines(fs: seq<Field>): string {
    if fs == [] then "" else Line(fs[0]) + LINE_END + Lines(fs[1..])
  }

  /** The head of a message: its first line, its headers, and a blank line. */
  function Head(start: string, fs: seq<Field>): string {
    start + LINE_END + (Lines(fs) + LINE_END)
  }

  predicate HeadOk(start: string, fs: seq<Field>) {
    Clean(start) && forall i :: 0 <= i < |fs| ==> FieldOk(fs[i])
  }

  // ---- Searching ----

  lemma {:induction false} StrStrIs(d: string, i: nat, x: string, r: nat)
    requires i <= r && At(d, r, x) && x != "" && forall k :: i <= k < r ==> d[k] != NUL && !At(d, k, x)
    ensures StrStr(d, i, x) == r
    decreases r - i
  {
    if i < r { StrStrIs(d, i + 1, x, r); }
  }

  lemma CharsAt(d: string, i: nat, x: string)
    requires At(d, i, x)
    ensures forall k :: 0 <= k < |x| ==> d[i + k] == x[k]
  {
    assert d[i..i + |x|] == x;
  }

  lemma NotAt(d: string, k: nat, x: string)
    requires k < |d| && x != "" && d[k] != x[0]
    ensures !At(d, k, x)
  {
    if k + |x| <= |d| { assert d[k..k + |x|][0] == d[k]; }
  }

  lemma AtBound(d: string, i: nat, x: string)
    requires At(d, i, x)
    ensures i + |x| <= |d| && (x != "" ==> d[i] == x[0])
  {
    CharsAt(d, i, x);
    if x != "" { assert d[i + 0] == x[0]; }
  }

  /** A line ends where it should. */
  lemma LineEnds(d: string, i: nat, t: string)
    requires At(d, i, t + LINE_END) && Clean(t)
    ensures StrStr(d, i, LINE_END) == i + |t| && forall k :: i <= k < i + |t| ==> d[k] != '\r' && d[k] != NUL
  {
    AtSplit(d, i, t, LINE_END);
    CharsAt(d, i, t);
    forall k | i <= k < i + |t| ensures d[k] != '\r' && d[k] != NUL && !At(d, k, LINE_END) {
      assert d[i + (k - i)] == t[k - i];
      NotAt(d, k, LINE_END);
    }
    StrStrIs(d, i, LINE_END, i + |t|);
  }

  /** The search for the blank line passes over characters that do not begin it. */
  lemma {:induction false} PassOver(d: string, i: nat, j: nat)
    requires i <= j <= |d| && forall k :: i <= k < j ==> d[k] != '\r' && d[k] != NUL
    ensures StrStr(d, i, BLOCK_END) == StrStr(d, j, BLOCK_END)
    decreases j - i
  {
    if i < j {
      NotAt(d, i, BLOCK_END);
      PassOver(d, i + 1, j);
    }
  }

  /** The headers end with the blank line, and not before. */
  lemma {:induction false} BlockFrom(d: string, i: nat, fs: seq<Field>)
    requires 2 <= i && At(d, i - 2, LINE_END) && At(d, i, Lines(fs) + LINE_END) && forall k :: 0 <= k < |fs| ==> FieldOk(fs[k])
    ensures StrStr(d, i - 2, BLOCK_END) == i - 2 + |Lines(fs)|
    decreases |fs|
  {
    hide StrStr, At;
    if fs == [] {
      assert LINE_END + ("" + LINE_END) == BLOCK_END;
      AtSplit(d, i - 2, LINE_END, "" + LINE_END);
      StrStrHere(d, i - 2);
    } else {
      var t, rest := Line(fs[0]), Lines(fs[1..]) + LINE_END;
      LineClean(fs[0]);
      assert Lines(fs) + LINE_END == (t + LINE_END) + rest;
      AtSplit(d, i, t + LINE_END, rest);
      AtSplit(d, i, t, LINE_END);
      LineEnds(d, i, t);
      AtBound(d, i, t);
      NotBlankLine(d, i);
      var j := i + |t| + 2;
      PassOver(d, i, i + |t|);
      BlockFrom(d, j, fs[1..]);
    }
  }

  lemma StrStrHere(d: string, i: nat)
    requires At(d, i, BLOCK_END)
    ensures StrStr(d, i, BLOCK_END) == i
  {
  }

  /** Behind the end of a line, another line that is not blank. */
  lemma NotBlankLine(d: string, i: nat)
    requires 2 <= i < |d| && At(d, i - 2, LINE_END) && d[i] != '\r'
    ensures StrStr(d, i - 2, BLOCK_END) == StrStr(d, i, BLOCK_END)
  {
    CharsAt(d, i - 2, LINE_END);
    assert d[i - 2] == '\r' && d[i - 1] == '\n';
    if i + 2 <= |d| { assert d[i - 2..i + 2][2] == d[i]; }
    NotAt(d, i - 1, BLOCK_END);
    assert StrStr(d, i - 2, BLOCK_END) == StrStr(d, i - 1, BLOCK_END) == StrStr(d, i, BLOCK_END);
  }

  lemma LineClean(f: Field)
    requires FieldOk(f)
    ensures Clean(Line(f)) && |Line(f)| == |f.name| + 1 + f.blanks + |f.value|
  {
  }

  // ---- Headers ----

  /** Where the parser finds the parts of a header whose line begins at `p`. */
  function Found(p: nat, f: Field): Header {
    Header(p, |f.name|, p + |f.name| + 1 + f.blanks, |f.value|)
  }

  function AllFound(p: nat, fs: seq<Field>): seq<Header>
    decreases |fs|
  {
    if fs == [] then [] else [Found(p, fs[0])] + AllFound(p + |Line(fs[0])| + 2, fs[1..])
  }

  lemma {:induction false} MemChrIs(d: string, i: nat, n: nat, c: char, r: nat)
    requires i <= r < n <= |d| && d[r] == c && forall k :: i <= k < r ==> d[k] != c
    ensures MemChr(d, i, n, c) == r
    decreases r - i
  {
    if i < r { MemChrIs(d, i + 1, n, c, r); }
  }

  lemma {:induction false} BlanksEnd(d: string, i: nat, n: nat, r: nat)
    requires i <= r <= n <= |d| && (forall k :: i <= k < r ==> d[k] == ' ') && (r < n ==> d[r] != ' ')
    ensures SkipBlanks(d, i, n) == r
    decreases r - i
  {
    if i < r { BlanksEnd(d, i + 1, n, r); }
  }

  /** Where the parts of a line stand. */
  lemma LineParts(d: string, p: nat, f: Field)
    requires At(d, p, Line(f))
    ensures var c := p + |f.name|;
            && |Line(f)| == |f.name| + 1 + f.blanks + |f.value| && c + 1 + f.blanks + |f.value| <= |d|
            && At(d, p, f.name) && d[c] == ':' && At(d, c + 1, Blanks(f.blanks)) && At(d, c + 1 + f.blanks, f.value)
  {
    hide At, Blanks;
    AtSplit3(d, p, f.name, ":", Blanks(f.blanks) + f.value);
    AtSplit(d, p + |f.name| + 1, Blanks(f.blanks), f.value);
    AtBound(d, p, Line(f));
    AtBound(d, p + |f.name|, ":");
  }

  lemma ColonFound(d: string, p: nat, n: nat, name: string)
    requires At(d, p, name) && p + |name| < n <= |d| && d[p + |name|] == ':' && ':' !in name
    ensures MemChr(d, p, n, ':') == p + |name|
  {
    CharsAt(d, p, name);
    forall k | p <= k < p + |name| ensures d[k] != ':' { assert d[p + (k - p)] == name[k - p]; }
    MemChrIs(d, p, n, ':', p + |name|);
  }

  lemma BlanksFound(d: string, i: nat, n: nat, b: nat, value: string)
    requires At(d, i, Blanks(b)) && At(d, i + b, value) && i + b + |value| == n <= |d| && (value != "" ==> value[0] != ' ')
    ensures SkipBlanks(d, i, n) == i + b
  {
    hide At;
    CharsAt(d, i, Blanks(b));
    forall k | i <= k < i + b ensures d[k] == ' ' { assert d[i + (k - i)] == Blanks(b)[k - i]; }
    AtBound(d, i + b, value);
    BlanksEnd(d, i, n, i + b);
  }

  lemma LineFound(d: string, p: nat, f: Field)
    requires At(d, p, Line(f)) && FieldOk(f)
    ensures LineHeader(d, p, p + |Line(f)|) == [Found(p, f)]
    ensures At(d, p, f.name) && At(d, Found(p, f).value, f.value)
  {
    hide MemChr, SkipBlanks, At, Line, Blanks;
    LineParts(d, p, f);
    ColonFound(d, p, p + |Line(f)|, f.name);
    BlanksFound(d, p + |f.name| + 1, p + |Line(f)|, f.blanks, f.value);
  }

  /** The parser finds the headers, one for one. */
  lemma {:induction false} LinesFound(d: string, p: nat, fs: seq<Field>)
    requires At(d, p, Lines(fs) + LINE_END) && 2 <= p && forall k :: 0 <= k < |fs| ==> FieldOk(fs[k])
    ensures HeaderLines(d, p, p - 2 + |Lines(fs)|) == AllFound(p, fs)
    decreases |fs|
  {
    hide StrStr, At, LineHeader, FieldOk, Line, Found;
    if fs != [] {
      var t, rest := Line(fs[0]), Lines(fs[1..]) + LINE_END;
      LineClean(fs[0]);
      assert Lines(fs) + LINE_END == (t + LINE_END) + rest;
      AtSplit(d, p, t + LINE_END, rest);
      AtSplit(d, p, t, LINE_END);
      LineEnds(d, p, t);
      LineFound(d, p, fs[0]);
      LinesFound(d, p + |t| + 2, fs[1..]);
    }
  }

  /** The head of a message is found whole, with its headers. */
  lemma HeadFound(d: string, start: string, fs: seq<Field>)
    requires At(d, 0, Head(start, fs)) && HeadOk(start, fs)
    ensures BlockEnd(d) + 4 == |Head(start, fs)| && HeadersOf(d) == AllFound(|start| + 2, fs)
  {
    hide StrStr, At, FieldOk, HeaderLines;
    AtSplit(d, 0, start + LINE_END, Lines(fs) + LINE_END);
    AtSplit(d, 0, start, LINE_END);
    LineEnds(d, 0, start);
    AtBound(d, 0, start);
    PassOver(d, 0, |start|);
    BlockFrom(d, |start| + 2, fs);
    LinesFound(d, |start| + 2, fs);
  }

  // ---- Names ----

  /** The same letter, in either case. */
  predicate SameLetter(a: char, b: char) {
    a == b || ('A' <= a <= 'Z' && b as int == a as int + 32) || ('A' <= b <= 'Z' && a as int == b as int + 32)
  }

  predicate SameName(a: string, b: string) {
    |a| == |b| && forall k :: 0 <= k < |a| ==> SameLetter(a[k], b[k])
  }

  lemma TextIs(d: string, p: nat, a: string, x: string)
    requires At(d, p, a) && |a| == |x|
    ensures SameText(d, p, x) <==> SameName(a, x)
  {
    CharsAt(d, p, a);
    forall k | 0 <= k < |x| ensures Lower(d[p + k]) == Lower(x[k]) <==> SameLetter(a[k], x[k]) { assert d[p + k] == a[k]; }
  }

  /** The first header with the name is the one that counts. */
  lemma {:induction false} FirstIs(d: string, p: nat, fs: seq<Field>, key: string, i: nat)
    requires At(d, p, Lines(fs) + LINE_END) && (forall k :: 0 <= k < |fs| ==> FieldOk(fs[k])) && i <= |fs|
    requires (i < |fs| ==> SameName(fs[i].name, key)) && forall j :: 0 <= j < i ==> !SameName(fs[j].name, key)
    ensures FirstWith(d, AllFound(p, fs), key) == i
    ensures i < |fs| ==> i < |AllFound(p, fs)| && At(d, AllFound(p, fs)[i].value, fs[i].value + LINE_END)
    ensures i < |fs| ==> AllFound(p, fs)[i].value + |fs[i].value| + 2 <= p + |Lines(fs)|
    ensures |AllFound(p, fs)| == |fs|
    decreases |fs|
  {
    hide At, SameText, SameName, FieldOk, Line, KeyEqual;
    if fs != [] {
      var t, rest := Line(fs[0]), Lines(fs[1..]) + LINE_END;
      LineClean(fs[0]);
      assert Lines(fs) + LINE_END == (t + LINE_END) + rest;
      AtSplit(d, p, t + LINE_END, rest);
      ValueAt(d, p, fs[0]);
      KeyIs(d, p, fs[0], key);
      assert AllFound(p, fs)[1..] == AllFound(p + |t| + 2, fs[1..]);
      if i == 0 {
        AllLen(p, fs);
      } else {
        FirstIs(d, p + |t| + 2, fs[1..], key, i - 1);
      }
    }
  }

  lemma {:induction false} AllLen(p: nat, fs: seq<Field>)
    ensures |AllFound(p, fs)| == |fs|
    decreases |fs|
  {
    if fs != [] { AllLen(p + |Line(fs[0])| + 2, fs[1..]); }
  }

  /** The value stands where the parser says, with the end of the line behind it. */
  lemma ValueAt(d: string, p: nat, f: Field)
    requires At(d, p, Line(f) + LINE_END) && FieldOk(f)
    ensures At(d, p, f.name) && At(d, Found(p, f).value, f.value + LINE_END)
  {
    LineClean(f);
    AtSplit(d, p, Line(f), LINE_END);
    LineFound(d, p, f);
    AtSplit(d, Found(p, f).value, f.value, LINE_END);
  }

  lemma KeyIs(d: string, p: nat, f: Field, key: string)
    requires At(d, p, f.name)
    ensures KeyEqual(d, Found(p, f), key) <==> SameName(f.name, key)
  {
    if |f.name| == |key| { TextIs(d, p, f.name, key); }
  }

  // ---- Numbers ----

  /** The library function reads a numeral back. */
  lemma {:induction false} NumberIs(n: nat)
    ensures Number(Decimal(n)) == n && forall k :: 0 <= k < |Decimal(n)| ==> Digit(Decimal(n)[k])
    decreases n
  {
    hide Last, Number, Numeral;
    var d := Last(n, 10);
    DecimalIs(n);
    NumberSnoc(if n < 10 then "" else Decimal(n / 10), d);
    if n < 10 {
      assert "" + [DIGITS[n]] == [DIGITS[n]] && Number("") == 0 by { NoNumber(); }
    } else {
      NumberIs(n / 10);
    }
  }

  lemma NoNumber()
    ensures Number("") == 0
  {
  }

  lemma DecimalIs(n: nat)
    ensures Decimal(n) == if n < 10 then [DIGITS[n]] else Decimal(n / 10) + [DIGITS[Last(n, 10)]]
  {
  }

  lemma NumberSnoc(s: string, d: nat)
    requires d < 10
    ensures Number(s + [DIGITS[d]]) == Number(s) * 10 + d && Digit(DIGITS[d])
  {
    var x := s + [DIGITS[d]];
    assert x[..|x| - 1] == s && x[|x| - 1] == DIGITS[d];
    DigitValue(d);
  }

  lemma DigitValue(d: nat)
    requires d < 10
    ensures Digit(DIGITS[d]) && DIGITS[d] as int == '0' as int + d
  {
  }

  lemma {:induction false} DigitsStop(d: string, i: nat, r: nat)
    requires i <= r <= |d| && (forall k :: i <= k < r ==> Digit(d[k])) && (r < |d| ==> !Digit(d[r]))
    ensures DigitsEnd(d, i) == r
    decreases r - i
  {
    if i < r { DigitsStop(d, i + 1, r); }
  }

  /** The nearest number that fits. */
  function Fits(n: nat): nat {
    if n > 0x7fff_ffff then 0x7fff_ffff else n
  }

  /** Section 8.6 of RFC 9110: a value in decimal digits is that number, whatever stands behind it but another digit. */
  lemma AtoiIs(d: string, i: nat, n: nat)
    requires At(d, i, Decimal(n)) && (i + |Decimal(n)| < |d| ==> !Digit(d[i + |Decimal(n)|]))
    ensures Atoi(d, i) == Fits(n)
  {
    hide Number, Numeral, DigitsEnd;
    var s := Decimal(n);
    NumberIs(n);
    CharsAt(d, i, s);
    assert d[i + 0] == s[0] && Digit(s[0]);
    forall k | i <= k < i + |s| ensures Digit(d[k]) { assert d[i + (k - i)] == s[k - i]; }
    DigitsStop(d, i, i + |s|);
    assert SkipSpace(d, i) == i;
    assert d[i..i + |s|] == s;
  }

  /** With a minus sign it is the opposite. */
  lemma AtoiMinus(d: string, i: nat, n: nat)
    requires At(d, i, "-" + Decimal(n)) && (i + 1 + |Decimal(n)| < |d| ==> !Digit(d[i + 1 + |Decimal(n)|]))
    ensures n > 0 ==> Atoi(d, i) < 0
  {
    hide Number, Numeral, DigitsEnd;
    var s := Decimal(n);
    NumberIs(n);
    AtSplit(d, i, "-", s);
    CharsAt(d, i, "-");
    assert d[i + 0] == '-';
    CharsAt(d, i + 1, s);
    forall k | i + 1 <= k < i + 1 + |s| ensures Digit(d[k]) { assert d[i + 1 + (k - i - 1)] == s[k - i - 1]; }
    DigitsStop(d, i + 1, i + 1 + |s|);
    assert SkipSpace(d, i) == i;
    assert d[i + 1..i + 1 + |s|] == s;
  }

  // ---- Frames ----

  /** The first header that gives a length gives `n`: its value is the numeral of `n`, and no digit follows it. */
  predicate Announces(fs: seq<Field>, n: nat) {
    exists i :: 0 <= i < |fs| && AnnouncedAt(fs, n, i)
  }

  predicate AnnouncedAt(fs: seq<Field>, n: nat, i: nat)
    requires i < |fs|
  {
    var v := fs[i].value;
    && SameName(fs[i].name, "Content-Length") && (forall j :: 0 <= j < i ==> !SameName(fs[j].name, "Content-Length"))
    && Decimal(n) <= v && (|Decimal(n)| < |v| ==> !Digit(v[|Decimal(n)|]))
  }

  lemma LengthIs(d: string, start: string, fs: seq<Field>, n: nat)
    requires At(d, 0, Head(start, fs)) && HeadOk(start, fs) && Announces(fs, n)
    ensures BlockEnd(d) + 4 == |Head(start, fs)| && ContentLength(d, HeadersOf(d)) == Fits(n) && LengthGiven(d)
  {
    hide At, Atoi, BlockEnd, HeadersOf, Numeral, SameName, FieldOk;
    HeadFound(d, start, fs);
    AtBound(d, 0, Head(start, fs));
    AtSplit(d, 0, start + LINE_END, Lines(fs) + LINE_END);
    var i :| 0 <= i < |fs| && AnnouncedAt(fs, n, i);
    FirstIs(d, |start| + 2, fs, "Content-Length", i);
    var v, p := fs[i].value, HeadersOf(d)[i].value;
    AtBound(d, p, v + LINE_END);
    NumeralAt(d, p, v, n);
    AtoiIs(d, p, n);
    DigitNoSpace(d[p]);
    assert !Space(d[p]) && p < BlockEnd(d) <= |d|;
  }

  lemma DigitNoSpace(c: char)
    requires Digit(c)
    ensures !Space(c)
  {
  }

  /** The numeral of the value stands in the text, and no digit behind it. */
  lemma NumeralAt(d: string, p: nat, v: string, n: nat)
    requires At(d, p, v + LINE_END) && Decimal(n) <= v && (|Decimal(n)| < |v| ==> !Digit(v[|Decimal(n)|]))
    ensures At(d, p, Decimal(n)) && p + |Decimal(n)| < |d| && !Digit(d[p + |Decimal(n)|]) && Digit(d[p])
  {
    hide Numeral;
    var s, x := Decimal(n), v + LINE_END;
    CharsAt(d, p, x);
    NumberIs(n);
    assert d[p + 0] == x[0] == s[0];
    assert d[p + |s|] == x[|s|];
    assert d[p..p + |s|] == d[p..p + |x|][..|s|];
  }

  /** What stands at the front of a stream that begins with such a head: a frame of the size of the head and as many
      bytes as it announces, once they are there, if that is not too much. */
  lemma FrameIs(v: string, start: string, fs: seq<Field>, n: nat, max: nat)
    requires At(v, 0, Head(start, fs)) && HeadOk(start, fs) && Announces(fs, n)
    ensures var size := |Head(start, fs)| + Fits(n);
            First(v, max) == if size > max then Illegal else if |v| < size then Wait else Packet(size)
  {
    hide At, HeadOk, Announces, HeadersOf, ContentLength, BlockEnd;
    LengthIs(v, start, fs, n);
  }

  /** A head in which no header gives a length announces nothing. */
  lemma NoLength(v: string, start: string, fs: seq<Field>, max: nat)
    requires At(v, 0, Head(start, fs)) && HeadOk(start, fs) && forall i :: 0 <= i < |fs| ==> !SameName(fs[i].name, "Content-Length")
    ensures First(v, max) == if |Head(start, fs)| > max then Illegal else Packet(|Head(start, fs)|)
  {
    hide At, BlockEnd, HeadersOf, Atoi, SameName, FieldOk;
    HeadFound(v, start, fs);
    AtBound(v, 0, Head(start, fs));
    AtSplit(v, 0, start + LINE_END, Lines(fs) + LINE_END);
    FirstIs(v, |start| + 2, fs, "Content-Length", |fs|);
  }

  /** A negative length is an error. */
  lemma NegativeLength(v: string, start: string, fs: seq<Field>, n: nat, max: nat, i: nat)
    requires At(v, 0, Head(start, fs)) && HeadOk(start, fs) && i < |fs| && SameName(fs[i].name, "Content-Length") && 0 < n
    requires (forall j :: 0 <= j < i ==> !SameName(fs[j].name, "Content-Length")) && fs[i].value == "-" + Decimal(n)
    ensures First(v, max) == Illegal
  {
    hide At, BlockEnd, HeadersOf, Atoi, Numeral, SameName, FieldOk;
    HeadFound(v, start, fs);
    AtSplit(v, 0, start + LINE_END, Lines(fs) + LINE_END);
    FirstIs(v, |start| + 2, fs, "Content-Length", i);
    var x, p := fs[i].value, HeadersOf(v)[i].value;
    AtSplit(v, p, x, LINE_END);
    AtBound(v, p, x);
    AtBound(v, p + |x|, LINE_END);
    AtoiMinus(v, p, n);
  }

  // ---- Streams ----

  /** A message: its head, and a body as long as the head announces. */
  datatype Message = Message(start: string, fields: seq<Field>, body: string)

  function Text(m: Message): string {
    Head(m.start, m.fields) + m.body
  }

  predicate MessageOk(m: Message, max: nat) {
    HeadOk(m.start, m.fields) && Announces(m.fields, |m.body|) && |Text(m)| <= max <= 0x7fff_ffff
  }

  function Texts(ms: seq<Message>): (r: seq<string>)
    ensures |r| == |ms| && forall i :: 0 <= i < |ms| ==> r[i] == Text(ms[i])
  {
    if ms == [] then [] else [Text(ms[0])] + Texts(ms[1..])
  }

  /** A stream of messages, with the beginning of another one behind them, is cut into exactly these messages. */
  lemma {:induction false} StreamIs(ms: seq<Message>, rest: string, max: nat)
    requires (forall i :: 0 <= i < |ms| ==> MessageOk(ms[i], max)) && First(rest, max) == Wait
    ensures Packets(Concat(Texts(ms)) + rest, max) == Texts(ms) && Rest(Concat(Texts(ms)) + rest, max) == rest
    decreases |ms|
  {
    hide First, MessageOk, Text;
    if ms == [] {
      assert "" + rest == rest;
    } else {
      var t, later := Concat(Texts(ms)) + rest, Concat(Texts(ms[1..])) + rest;
      assert Texts(ms)[1..] == Texts(ms[1..]);
      assert t == Text(ms[0]) + later;
      OneMessage(ms[0], later, max);
      assert t[|Text(ms[0])|..] == later && t[..|Text(ms[0])|] == Text(ms[0]);
      StreamIs(ms[1..], rest, max);
    }
  }

  lemma OneMessage(m: Message, later: string, max: nat)
    requires MessageOk(m, max)
    ensures First(Text(m) + later, max) == Packet(|Text(m)|)
  {
    hide First, Head, HeadOk, Announces;
    var v, h := Text(m) + later, Head(m.start, m.fields);
    assert v[0..|h|] == h;
    FrameIs(v, m.start, m.fields, |m.body|, max);
  }

  // ---- Closing the connection ----

  /** The headers ask for the connection to be closed exactly when a Connection header has a value that begins with
      `close`, in any case of the letters. */
  lemma ClosesIff(v: string, start: string, fs: seq<Field>)
    requires At(v, 0, Head(start, fs)) && HeadOk(start, fs)
    ensures Closes(v) <==> exists i :: 0 <= i < |fs| && CloseField(fs[i])
  {
    hide At, BlockEnd, HeadersOf, CloseField, FieldOk;
    HeadFound(v, start, fs);
    AtSplit(v, 0, start + LINE_END, Lines(fs) + LINE_END);
    CloseIn(v, |start| + 2, fs);
  }

  predicate CloseField(f: Field) {
    SameName(f.name, "Connection") && |f.value| >= 5 && SameName(f.value[..5], "close")
  }

  lemma {:induction false} CloseIn(d: string, p: nat, fs: seq<Field>)
    requires At(d, p, Lines(fs) + LINE_END) && forall k :: 0 <= k < |fs| ==> FieldOk(fs[k])
    ensures ConnectionClose(d, AllFound(p, fs)) <==> exists i :: 0 <= i < |fs| && CloseField(fs[i])
    decreases |fs|
  {
    hide At, CloseField, Closing, FieldOk;
    if fs != [] {
      var t, rest := Line(fs[0]), Lines(fs[1..]) + LINE_END;
      LineClean(fs[0]);
      assert Lines(fs) + LINE_END == (t + LINE_END) + rest;
      AtSplit(d, p, t + LINE_END, rest);
      ClosingIs(d, p, fs[0]);
      var hs, gs := AllFound(p, fs), AllFound(p + |t| + 2, fs[1..]);
      assert hs[0] == Found(p, fs[0]) && hs[1..] == gs;
      CloseIn(d, p + |t| + 2, fs[1..]);
      CloseCons(d, hs, fs);
    }
  }

  lemma CloseCons(d: string, hs: seq<Header>, fs: seq<Field>)
    requires hs != [] && fs != [] && (Closing(d, hs[0]) <==> CloseField(fs[0]))
    requires ConnectionClose(d, hs[1..]) <==> exists i :: 0 <= i < |fs| - 1 && CloseField(fs[1..][i])
    ensures ConnectionClose(d, hs) <==> exists i :: 0 <= i < |fs| && CloseField(fs[i])
  {
    hide CloseField, Closing;
    assert forall i :: 0 < i < |hs| ==> hs[i] == hs[1..][i - 1];
    assert forall i :: 0 < i < |fs| ==> fs[i] == fs[1..][i - 1];
    assert forall i :: 0 <= i < |hs| - 1 ==> hs[1..][i] == hs[i + 1];
    assert forall i :: 0 <= i < |fs| - 1 ==> fs[1..][i] == fs[i + 1];
  }

  lemma ClosingIs(d: string, p: nat, f: Field)
    requires At(d, p, Line(f) + LINE_END) && FieldOk(f)
    ensures Closing(d, Found(p, f)) <==> CloseField(f)
  {
    hide At, SameName, SameText;
    ValueAt(d, p, f);
    KeyIs(d, p, f, "Connection");
    var v := Found(p, f).value;
    if |f.value| >= 5 {
      assert f.value + LINE_END == f.value[..5] + (f.value[5..] + LINE_END);
      AtSplit(d, v, f.value[..5], f.value[5..] + LINE_END);
      TextIs(d, v, f.value[..5], "close");
    } else {
      ShortValue(d, v, f.value);
    }
  }

  lemma ShortValue(d: string, v: nat, x: string)
    requires At(d, v, x + LINE_END) && |x| < 5
    ensures !SameText(d, v, "close")
  {
    CharsAt(d, v, x + LINE_END);
    assert d[v + |x|] == (x + LINE_END)[|x|] == '\r';
    if v + 5 <= |d| { assert Lower(d[v + |x|]) != Lower("close"[|x|]); }
  }
}
