/** Start tags that are lists of attributes with quoted or unquoted values: what the tokenizer and
    `FindAttrib` make of them, and what it means to set an attribute. */
module Attributes {
  import opened Chars
  import opened Token
  import opened Content
  import opened Cursor
  import opened Tags

  /** `name = "value"`, with the white space in front of it and around the equal sign; `quote` is empty
      when the value is not quoted. */
  datatype Attr = Attr(space: string, name: string, before: string, after: string, quote: string, value: string)

  datatype Tag = Tag(name: string, attrs: seq<Attr>, space: string, empty: bool)

  predicate NameOk(name: string) {
    name != "" && !IsQuote(name[0]) && forall i :: 0 <= i < |name| ==> !EndAttribName(name[i])
  }

  predicate NoChar(s: string, c: char) {
    forall i :: 0 <= i < |s| ==> s[i] != c
  }

  predicate QuotedOk(quote: string, value: string) {
    (quote == "\"" || quote == "'") && NoChar(value, quote[0])
  }

  /** A value without quotes: no white space and no `>`, and no quote in front. */
  predicate UnquotedOk(value: string) {
    value != "" && !IsQuote(value[0]) && forall i :: 0 <= i < |value| ==> !EndUnquoted(value[i])
  }

  predicate ValueOk(quote: string, value: string) {
    if quote == "" then UnquotedOk(value) else QuotedOk(quote, value)
  }

  predicate AttrOk(a: Attr) {
    AllWhite(a.space) && NameOk(a.name) && AllWhite(a.before) && AllWhite(a.after) && ValueOk(a.quote, a.value)
  }

  predicate AttrsOk(s: seq<Attr>) {
    forall i :: 0 <= i < |s| ==> AttrOk(s[i])
  }

  /** The unquoted value in front of `>` does not make the tag an empty element by a slash at its end. */
  predicate NoSlashEnd(a: Attr) {
    var v := a.value;
    v != "" && v[|v| - 1] == '/' ==> if |v| == 1 then a.after == "" else v[|v| - 2] != '\0' && !NotSecondLastInVal(v[|v| - 2])
  }

  /** What follows an unquoted value shows where it ends. */
  predicate ApartAt(s: seq<Attr>, space: string, empty: bool, i: nat)
    requires i < |s|
  {
    s[i].quote == "" ==>
      if i + 1 < |s| then s[i + 1].space != "" else space != "" || (!empty && NoSlashEnd(s[i]))
  }

  predicate Apart(s: seq<Attr>, space: string, empty: bool) {
    forall i :: 0 <= i < |s| ==> ApartAt(s, space, empty, i)
  }

  predicate TagOk(t: Tag) {
    && ValidName(t.name) && NameOk(t.name) && AttrsOk(t.attrs) && (t.attrs != [] ==> t.attrs[0].space != "") && AllWhite(t.space)
    && Apart(t.attrs, t.space, t.empty)
  }

  function Quoted(q: string, v: string): string {
    q + v + q
  }

  function RenderAttr(a: Attr): string {
    a.space + a.name + (a.before + "=" + a.after) + Quoted(a.quote, a.value)
  }

  function RenderAttrs(s: seq<Attr>): string {
    if s == [] then "" else RenderAttr(s[0]) + RenderAttrs(s[1..])
  }

  function RenderClose(t: Tag): string {
    t.space + (if t.empty then "/>" else ">")
  }

  function RenderTag(t: Tag): string {
    "<" + t.name + RenderAttrs(t.attrs) + RenderClose(t)
  }

  /** Where the quoted value of an attribute begins in its text. */
  function QuoteOffset(a: Attr): nat {
    |a.space| + |a.name| + |a.before| + 1 + |a.after|
  }

  // ---- Words ----

  lemma {:induction false} SkipWhiteAt(s: string, i: nat, w: string)
    requires At(s, i, w) && AllWhite(w) && i + |w| < |s| && !White(s[i + |w|])
    ensures SkipWhite(s, i) == i + |w|
    decreases |w|
  {
    if w != "" {
      assert w == [w[0]] + w[1..];
      AtSplit(s, i, [w[0]], w[1..]);
      assert s[i..i + 1][0] == w[0];
      SkipWhiteAt(s, i + 1, w[1..]);
    }
  }

  lemma {:induction false} WordEndAt(s: string, i: nat, w: string)
    requires At(s, i, w) && (forall k :: 0 <= k < |w| ==> !EndAttribName(w[k])) && i + |w| < |s| && EndAttribName(s[i + |w|])
    ensures WordEnd(s, i, false) == i + |w|
    decreases |w|
  {
    if w != "" {
      assert w == [w[0]] + w[1..];
      AtSplit(s, i, [w[0]], w[1..]);
      assert s[i..i + 1][0] == w[0];
      WordEndAt(s, i + 1, w[1..]);
    }
  }

  lemma {:induction false} QuoteEndAt(s: string, i: nat, v: string, q: char)
    requires At(s, i, v) && NoChar(v, q) && i + |v| < |s| && s[i + |v|] == q
    ensures QuoteEnd(s, i, q) == i + |v|
    decreases |v|
  {
    if v != "" {
      assert v == [v[0]] + v[1..];
      AtSplit(s, i, [v[0]], v[1..]);
      assert s[i..i + 1][0] == v[0];
      QuoteEndAt(s, i + 1, v[1..], q);
    }
  }

  lemma CharAt0(s: string, i: nat, x: string)
    requires At(s, i, x) && x != ""
    ensures i < |s| && s[i] == x[0]
  {
    assert s[i..i + |x|][0] == s[i];
  }

  // ---- FindAttrib ----

  /** Where the pieces of an attribute are. */
  lemma AttrPieces(s: string, i: nat, a: Attr)
    requires At(s, i, RenderAttr(a))
    ensures var n := i + |a.space|; var b := n + |a.name|; var e := b + |a.before|; var f := e + 1; var q := f + |a.after|;
            && At(s, i, a.space) && At(s, n, a.name) && At(s, b, a.before) && At(s, e, "=") && At(s, f, a.after)
            && At(s, q, a.quote) && At(s, q + |a.quote|, a.value) && At(s, q + |a.quote| + |a.value|, a.quote)
            && q == i + QuoteOffset(a) && q + |a.value| + 2 * |a.quote| == i + |RenderAttr(a)|
  {
    hide At;
    var m, v := a.before + "=" + a.after, Quoted(a.quote, a.value);
    AtSplit3(s, i, a.space + a.name, m, v);
    AtSplit(s, i, a.space, a.name);
    AtSplit3(s, i + |a.space| + |a.name|, a.before, "=", a.after);
    AtSplit3(s, i + QuoteOffset(a), a.quote, a.value, a.quote);
  }

  // ---- Single steps of the search ----

  lemma StepName(s: string, n: nat, m: nat, e: nat, name: string, seen: Seen, quoted: bool)
    requires n <= |s| && SkipWhite(s, n) == m < |s| && !IsQuote(s[m]) && !EndAttribName(s[m]) && WordEnd(s, m, false) == e && !seen.Wanted?
    ensures m < e <= |s|
    ensures FindFrom(s, n, name, seen, false, quoted) ==
            FindFrom(s, e, name, if seen.TagName? && Match(s[m..e], name) then Wanted(m, e) else TagName, false, false)
  {
  }

  lemma StepEqual(s: string, n: nat, m: nat, name: string, seen: Seen, quoted: bool)
    requires n <= |s| && SkipWhite(s, n) == m < |s| && s[m] == '='
    ensures FindFrom(s, n, name, seen, false, quoted) == FindFrom(s, m + 1, name, seen, true, false)
  {
  }

  lemma StepValue(s: string, n: nat, m: nat, e: nat, name: string, seen: Seen, quoted: bool)
    requires n <= |s| && SkipWhite(s, n) == m < |s| && IsQuote(s[m]) && QuoteEnd(s, m + 1, s[m]) == e < |s| && !seen.Nothing?
    ensures FindFrom(s, n, name, seen, true, quoted) == if seen.Wanted? then Attrib(m + 1, e, true) else FindFrom(s, e + 1, name, seen, false, true)
  {
  }

  lemma StepWord(s: string, n: nat, m: nat, e: nat, name: string, seen: Seen, quoted: bool)
    requires n <= |s| && SkipWhite(s, n) == m < |s| && !IsQuote(s[m]) && !EndUnquoted(s[m]) && WordEnd(s, m, true) == e && !seen.Nothing?
    ensures m < e <= |s|
    ensures FindFrom(s, n, name, seen, true, quoted) == if seen.Wanted? then Attrib(m, e, false) else FindFrom(s, e, name, seen, false, false)
  {
  }

  lemma StepClose(s: string, n: nat, m: nat, name: string, quoted: bool)
    requires n <= |s| && SkipWhite(s, n) == m < |s| && (s[m] == '>' || s[m] == '/')
    ensures FindFrom(s, n, name, TagName, false, quoted) == NoAttrib(n)
  {
  }

  lemma NoQuoteNoWhite(c: char)
    ensures !EndAttribName(c) ==> !White(c)
    ensures IsQuote(c) ==> !White(c)
    ensures White(c) ==> EndAttribName(c)
    ensures EndAttribName('=') && EndAttribName('/') && EndAttribName('>') && !White('=') && !White('/') && !White('>')
  {
  }

  lemma SliceOf(s: string, i: nat, x: string)
    requires At(s, i, x)
    ensures i + |x| <= |s| && s[i..i + |x|] == x
  {
  }

  /** The name of an attribute. */
  lemma FindName(s: string, i: nat, a: Attr, name: string, quoted: bool)
    requires AttrOk(a) && At(s, i, RenderAttr(a))
    ensures var n := i + |a.space|; var b := n + |a.name|;
            b <= |s| && FindFrom(s, i, name, TagName, false, quoted) ==
                        FindFrom(s, b, name, if Match(a.name, name) then Wanted(n, b) else TagName, false, false)
  {
    hide FindFrom, SkipWhite, WordEnd, At, AllWhite, White, EndAttribName, Match, RenderAttr, IsQuote;
    AttrPieces(s, i, a);
    var n := i + |a.space|;
    var b := n + |a.name|;
    CharAt0(s, n, a.name);
    AfterName(s, i, a);
    NoQuoteNoWhite(s[n]);
    SkipWhiteAt(s, i, a.space);
    WordEndAt(s, n, a.name);
    SliceOf(s, n, a.name);
    SliceOf(s, i, a.space);
    StepName(s, i, n, b, name, TagName, quoted);
  }

  lemma AfterName(s: string, i: nat, a: Attr)
    requires AttrOk(a) && At(s, i, RenderAttr(a))
    ensures var b := i + |a.space| + |a.name|; b < |s| && EndAttribName(s[b])
  {
    AttrPieces(s, i, a);
    var b := i + |a.space| + |a.name|;
    if a.before != "" {
      CharAt0(s, b, a.before);
    } else {
      CharAt0(s, b, "=");
    }
  }

  /** The equal sign of an attribute. */
  lemma FindEqual(s: string, i: nat, a: Attr, name: string, seen: Seen)
    requires AttrOk(a) && At(s, i, RenderAttr(a))
    ensures var b := i + |a.space| + |a.name|; var e := b + |a.before| + 1;
            b <= |s| && e <= |s| && FindFrom(s, b, name, seen, false, false) == FindFrom(s, e, name, seen, true, false)
  {
    hide FindFrom, SkipWhite, At, AllWhite, White, RenderAttr, NameOk, ValueOk;
    AttrPieces(s, i, a);
    var b := i + |a.space| + |a.name|;
    var e := b + |a.before|;
    CharAt0(s, e, "=");
    NoQuoteNoWhite(' ');
    SkipWhiteAt(s, b, a.before);
    StepEqual(s, b, e, name, seen, false);
  }

  /** A quoted value. */
  lemma FindQuoted(s: string, q: nat, f: nat, a: Attr, name: string, seen: Seen)
    requires AttrOk(a) && a.quote != "" && f + |a.after| == q && At(s, f, a.after) && At(s, q, a.quote)
    requires At(s, q + |a.quote|, a.value) && At(s, q + |a.quote| + |a.value|, a.quote) && !seen.Nothing?
    ensures var v := q + |a.quote|; var e := v + |a.value| + |a.quote|;
            f <= |s| && e <= |s| && FindFrom(s, f, name, seen, true, false) ==
                                   if seen.Wanted? then Attrib(v, v + |a.value|, true) else FindFrom(s, e, name, seen, false, true)
  {
    hide FindFrom, SkipWhite, QuoteEnd, AllWhite, White, NameOk;
    var z := q + 1 + |a.value|;
    CharAt0(s, q, a.quote);
    CharAt0(s, z, a.quote);
    NoQuoteNoWhite(a.quote[0]);
    SkipWhiteAt(s, f, a.after);
    QuoteEndAt(s, q + 1, a.value, a.quote[0]);
    StepValue(s, f, q, z, name, seen, false);
  }

  lemma {:induction false} ValueEndAt(s: string, i: nat, w: string)
    requires At(s, i, w) && (forall k :: 0 <= k < |w| ==> !EndUnquoted(w[k])) && i + |w| < |s| && EndUnquoted(s[i + |w|])
    ensures WordEnd(s, i, true) == i + |w|
    decreases |w|
  {
    if w != "" {
      assert w == [w[0]] + w[1..];
      AtSplit(s, i, [w[0]], w[1..]);
      assert s[i..i + 1][0] == w[0];
      ValueEndAt(s, i + 1, w[1..]);
    }
  }

  /** An unquoted value. */
  lemma FindUnquoted(s: string, q: nat, f: nat, a: Attr, name: string, seen: Seen)
    requires AttrOk(a) && a.quote == "" && f + |a.after| == q && At(s, f, a.after) && At(s, q, a.value) && !seen.Nothing?
    requires q + |a.value| < |s| && EndUnquoted(s[q + |a.value|])
    ensures var e := q + |a.value|;
            f <= |s| && FindFrom(s, f, name, seen, true, false) ==
                        if seen.Wanted? then Attrib(q, e, false) else FindFrom(s, e, name, seen, false, false)
  {
    hide FindFrom, SkipWhite, WordEnd, AllWhite, NameOk, IsQuote, At;
    CharAt0(s, q, a.value);
    SliceOf(s, f, a.after);
    SkipWhiteAt(s, f, a.after);
    ValueEndAt(s, q, a.value);
    StepWord(s, f, q, q + |a.value|, name, seen, false);
  }

  /** The equal sign and the value of an attribute. */
  lemma FindValue(s: string, i: nat, a: Attr, name: string, seen: Seen)
    requires AttrOk(a) && At(s, i, RenderAttr(a)) && !seen.Nothing?
    requires var e := i + |RenderAttr(a)|; a.quote == "" ==> e < |s| && EndUnquoted(s[e])
    ensures var b := i + |a.space| + |a.name|; var v := i + QuoteOffset(a) + |a.quote|; var e := i + |RenderAttr(a)|;
            b <= |s| && e <= |s| && FindFrom(s, b, name, seen, false, false) ==
                                   if seen.Wanted? then Attrib(v, v + |a.value|, a.quote != "") else FindFrom(s, e, name, seen, false, a.quote != "")
  {
    hide FindFrom, At, AllWhite, EndUnquoted, RenderAttr, NameOk, ValueOk;
    AttrPieces(s, i, a);
    var q := i + QuoteOffset(a);
    FindEqual(s, i, a, name, seen);
    if a.quote == "" {
      assert q + |a.quote| == q;
      FindUnquoted(s, q, q - |a.after|, a, name, seen);
    } else {
      FindQuoted(s, q, q - |a.after|, a, name, seen);
    }
  }

  /** The first attribute that matches `name`, or the number of attributes. */
  function FirstMatch(s: seq<Attr>, name: string): (k: nat)
    ensures k <= |s| && (k < |s| ==> Match(s[k].name, name)) && forall i :: 0 <= i < k ==> !Match(s[i].name, name)
  {
    if s == [] || Match(s[0].name, name) then 0 else 1 + FirstMatch(s[1..], name)
  }

  /** The attributes before the `k`th. */
  function AttrOffset(s: seq<Attr>, k: nat): nat
    requires k <= |s|
  {
    if k == 0 then 0 else |RenderAttr(s[0])| + AttrOffset(s[1..], k - 1)
  }

  /** Behind an unquoted value there is white space or the end of the tag. */
  lemma ValueEnds(s: string, e: nat, a: Attr, r: seq<Attr>, space: string, empty: bool)
    requires ApartAt([a] + r, space, empty, 0) && a.quote == "" && AttrsOk(r) && AllWhite(space)
    requires At(s, e, RenderAttrs(r)) && At(s, e + |RenderAttrs(r)|, space + (if empty then "/>" else ">"))
    ensures e < |s| && EndUnquoted(s[e])
  {
    hide ValueOk, NameOk;
    if r != [] {
      assert ([a] + r)[1] == r[0];
      AtSplit(s, e, RenderAttr(r[0]), RenderAttrs(r[1..]));
      AttrPieces(s, e, r[0]);
      CharAt0(s, e, r[0].space);
    } else {
      AtSplit(s, e, space, if empty then "/>" else ">");
      if space != "" {
        CharAt0(s, e, space);
      } else {
        CharAt0(s, e, ">");
      }
    }
  }

  lemma ApartRest(s: seq<Attr>, space: string, empty: bool)
    requires s != [] && AttrsOk(s) && Apart(s, space, empty)
    ensures AttrOk(s[0]) && AttrsOk(s[1..]) && Apart(s[1..], space, empty) && ApartAt([s[0]] + s[1..], space, empty, 0)
  {
    hide AttrOk, NoSlashEnd;
    assert [s[0]] + s[1..] == s;
    assert ApartAt(s, space, empty, 0);
    forall i | 0 <= i < |s| - 1 ensures ApartAt(s[1..], space, empty, i) {
      assert ApartAt(s, space, empty, i + 1);
    }
  }

  lemma {:induction false} FindAttrs(s: string, i: nat, attrs: seq<Attr>, t: Tag, name: string, quoted: bool)
    requires AttrsOk(attrs) && Apart(attrs, t.space, t.empty) && AllWhite(t.space)
    requires At(s, i, RenderAttrs(attrs)) && At(s, i + |RenderAttrs(attrs)|, RenderClose(t))
    ensures var k := FirstMatch(attrs, name);
            FindFrom(s, i, name, TagName, false, quoted) ==
            if k < |attrs| then
              var v := i + AttrOffset(attrs, k) + QuoteOffset(attrs[k]) + |attrs[k].quote|;
              Attrib(v, v + |attrs[k].value|, attrs[k].quote != "")
            else NoAttrib(i + |RenderAttrs(attrs)|)
    decreases |attrs|
  {
    hide FindFrom, Match, RenderAttr, QuoteOffset, AttrOk, Apart, AttrsOk, EndUnquoted, AllWhite, ApartAt, At;
    if attrs == [] {
      FindClose(s, i, t, name, quoted);
    } else {
      var a, r := attrs[0], attrs[1..];
      var e := i + |RenderAttr(a)|;
      AtSplit(s, i, RenderAttr(a), RenderAttrs(r));
      ApartRest(attrs, t.space, t.empty);
      FindName(s, i, a, name, quoted);
      if a.quote == "" { ValueEnds(s, e, a, r, t.space, t.empty); }
      if Match(a.name, name) {
        FindValue(s, i, a, name, Wanted(i + |a.space|, i + |a.space| + |a.name|));
      } else {
        FindValue(s, i, a, name, TagName);
        FindAttrs(s, e, r, t, name, a.quote != "");
      }
    }
  }

  /** At the end of the tag. */
  lemma FindClose(s: string, i: nat, t: Tag, name: string, quoted: bool)
    requires AllWhite(t.space) && At(s, i, RenderClose(t))
    ensures i <= |s| && FindFrom(s, i, name, TagName, false, quoted) == NoAttrib(i)
  {
    hide FindFrom, SkipWhite, At, AllWhite, White;
    var c := if t.empty then "/>" else ">";
    AtSplit(s, i, t.space, c);
    var m := i + |t.space|;
    CharAt0(s, m, c);
    NoQuoteNoWhite(' ');
    SkipWhiteAt(s, i, t.space);
    SliceOf(s, i, t.space);
    StepClose(s, i, m, name, quoted);
  }

  /** The name of the tag is passed over. */
  lemma FindTagName(s: string, i: nat, t: Tag, name: string)
    requires TagOk(t) && At(s, i, RenderTag(t))
    ensures var b := i + 1 + |t.name|;
            && b <= |s| && At(s, b, RenderAttrs(t.attrs)) && At(s, b + |RenderAttrs(t.attrs)|, RenderClose(t)) && At(s, i + 1, t.name)
            && FindFrom(s, i + 1, name, Nothing, false, false) == FindFrom(s, b, name, TagName, false, false)
  {
    hide FindFrom, SkipWhite, WordEnd, At, AllWhite, White, EndAttribName, Match, RenderAttrs, RenderClose, ValidName, AttrsOk, IsQuote;
    AtSplit3(s, i, "<" + t.name, RenderAttrs(t.attrs), RenderClose(t));
    AtSplit(s, i, "<", t.name);
    var n, b := i + 1, i + 1 + |t.name|;
    CharAt0(s, n, t.name);
    AfterTagName(s, b, t);
    NoQuoteNoWhite(s[n]);
    SkipNothing(s, n);
    WordEndAt(s, n, t.name);
    StepName(s, n, n, b, name, Nothing, false);
  }

  lemma SkipNothing(s: string, n: nat)
    requires n < |s| && !White(s[n])
    ensures SkipWhite(s, n) == n
  {
  }

  lemma AfterTagName(s: string, b: nat, t: Tag)
    requires TagOk(t) && At(s, b, RenderAttrs(t.attrs)) && At(s, b + |RenderAttrs(t.attrs)|, RenderClose(t))
    ensures b < |s| && EndAttribName(s[b]) && EndName(s[b])
  {
    if t.attrs != [] {
      AtSplit(s, b, RenderAttr(t.attrs[0]), RenderAttrs(t.attrs[1..]));
      AttrPieces(s, b, t.attrs[0]);
      CharAt0(s, b, t.attrs[0].space);
    } else {
      AtSplit(s, b, t.space, if t.empty then "/>" else ">");
      if t.space != "" {
        CharAt0(s, b, t.space);
      } else {
        CharAt0(s, b, if t.empty then "/>" else ">");
      }
    }
  }

  /** What `FindAttrib` finds in a start tag: the value of the first attribute that matches, or the place
      behind the last attribute. */
  lemma FindInTag(s: string, i: nat, t: Tag, name: string)
    requires TagOk(t) && At(s, i, RenderTag(t))
    ensures i + 1 <= |s|
    ensures var k, b := FirstMatch(t.attrs, name), i + 1 + |t.name|;
            FindFrom(s, i + 1, name, Nothing, false, false) ==
            if k < |t.attrs| then
              var v := b + AttrOffset(t.attrs, k) + QuoteOffset(t.attrs[k]) + |t.attrs[k].quote|;
              Attrib(v, v + |t.attrs[k].value|, t.attrs[k].quote != "")
            else NoAttrib(b + |RenderAttrs(t.attrs)|)
  {
    hide FindFrom, Match, RenderAttr, RenderAttrs, RenderClose, QuoteOffset, AttrOk, AttrsOk, Apart;
    FindTagName(s, i, t, name);
    FindAttrs(s, i + 1 + |t.name|, t.attrs, t, name, false);
  }

  // ---- The tokenizer ----

  /** A character that changes nothing but the last two characters seen. */
  predicate Inert(c: char, quote: Quote, equals: bool) {
    match quote
    case InDouble => c != '\"'
    case InSingle => c != '\''
    case NoQuote => c != '>' && (if equals then White(c) else c != '=')
    case Unquoted => c != '>' && !White(c)
  }

  /** Inside a start tag, behind its name. */
  predicate InAttrs(st: Scan, name: string) {
    && st.typ == ELEMENT && st.end == GtEnd && st.phase == NoPhase && !st.doctype && !st.inName && !st.empty
    && st.name == 1 && st.nameLen == |name|
  }

  lemma InertStep(s: string, i: nat, st: Scan, name: string)
    requires i < |s| && InAttrs(st, name) && Inert(s[i], st.quote, st.equals)
    ensures Step(s, 1, i, st) == More(st.(d2 := st.d1, d1 := s[i]))
  {
    assert Step(s, 1, i, st) == StepEnd(s, 1, i, st);
  }

  /** The state behind characters that change nothing but the last two seen. */
  function Past(st: Scan, w: string): Scan
    decreases |w|
  {
    if w == "" then st else Past(st.(d2 := st.d1, d1 := w[0]), w[1..])
  }

  lemma {:induction false} PastIs(st: Scan, w: string)
    ensures Past(st, w) == st.(d2 := Past(st, w).d2, d1 := Past(st, w).d1)
    ensures w != "" ==> Past(st, w).d1 == w[|w| - 1] && Past(st, w).d2 == if |w| > 1 then w[|w| - 2] else st.d1
    decreases |w|
  {
    if w != "" { PastIs(st.(d2 := st.d1, d1 := w[0]), w[1..]); }
  }

  lemma {:induction false} RunInert(s: string, i: nat, w: string, st: Scan, name: string)
    requires At(s, i, w) && InAttrs(st, name) && forall k :: 0 <= k < |w| ==> Inert(w[k], st.quote, st.equals)
    ensures i + |w| <= |s| && Run(s, 1, i, st) == Run(s, 1, i + |w|, Past(st, w))
    decreases |w|
  {
    if w != "" {
      assert w == [w[0]] + w[1..];
      AtSplit(s, i, [w[0]], w[1..]);
      CharAt0(s, i, w);
      InertStep(s, i, st, name);
      RunInert(s, i + 1, w[1..], st.(d2 := st.d1, d1 := s[i]), name);
    }
  }

  lemma OneChar(s: string, i: nat, st: Scan, name: string, st': Scan)
    requires i < |s| && InAttrs(st, name) && Step(s, 1, i, st) == More(st')
    ensures Run(s, 1, i, st) == Run(s, 1, i + 1, st')
  {
  }

  /** White space ends an unquoted value. */
  function PastWhite(st: Scan, w: string): Scan {
    Past(if w == "" then st else st.(quote := NoQuote), w)
  }

  lemma RunWhite(s: string, i: nat, w: string, st: Scan, name: string)
    requires At(s, i, w) && AllWhite(w) && InAttrs(st, name) && !st.equals && (st.quote == NoQuote || st.quote == Unquoted)
    ensures i + |w| <= |s| && Run(s, 1, i, st) == Run(s, 1, i + |w|, PastWhite(st, w))
  {
    hide Run;
    if w != "" && st.quote == Unquoted {
      assert w == [w[0]] + w[1..];
      AtSplit(s, i, [w[0]], w[1..]);
      CharAt0(s, i, w);
      var x := st.(quote := NoQuote, d2 := st.d1, d1 := w[0]);
      assert Step(s, 1, i, st) == StepEnd(s, 1, i, st) == More(x);
      OneChar(s, i, st, name, x);
      RunInert(s, i + 1, w[1..], x, name);
    } else {
      SliceOf(s, i, w);
      RunInert(s, i, w, st, name);
    }
  }

  /** The state at the value of an attribute: behind the name, the equal sign and the white space around it. */
  function PastEqual(st: Scan, a: Attr): Scan {
    var x := Past(Past(PastWhite(st, a.space), a.name), a.before);
    Past(x.(equals := true, d2 := x.d1, d1 := '='), a.after)
  }

  /** The name, the equal sign and the white space around it. */
  lemma RunToValue(s: string, i: nat, a: Attr, st: Scan, name: string)
    requires AttrOk(a) && At(s, i, RenderAttr(a)) && InAttrs(st, name) && !st.equals && Ready(st, a.space)
    ensures i + QuoteOffset(a) <= |s| && Run(s, 1, i, st) == Run(s, 1, i + QuoteOffset(a), PastEqual(st, a))
    ensures var r := PastEqual(st, a); InAttrs(r, name) && r.quote == NoQuote && r.equals && r.d1 == if a.after == "" then '=' else a.after[|a.after| - 1]
  {
    hide RenderAttr, Run, At, Past, ValueOk;
    AttrPieces(s, i, a);
    InertParts(a);
    var n := i + |a.space|;
    var b := n + |a.name|;
    var e := b + |a.before|;
    RunWhite(s, i, a.space, st, name);
    var x := PastWhite(st, a.space);
    PastIs(if a.space == "" then st else st.(quote := NoQuote), a.space);
    RunInert(s, n, a.name, x, name);
    PastIs(x, a.name);
    var y := Past(x, a.name);
    RunInert(s, b, a.before, y, name);
    PastIs(y, a.before);
    NoPast(y);
    var z := Past(y, a.before);
    CharAt0(s, e, "=");
    EqualStep(s, e, z, name);
    var u := z.(equals := true, d2 := z.d1, d1 := '=');
    RunInert(s, e + 1, a.after, u, name);
    PastIs(u, a.after);
    NoPast(u);
  }

  lemma NoPast(st: Scan)
    ensures Past(st, "") == st
  {
  }

  /** Behind an unquoted value there must be white space. */
  predicate Ready(st: Scan, space: string) {
    st.quote == NoQuote || (st.quote == Unquoted && space != "")
  }

  lemma InertParts(a: Attr)
    requires AttrOk(a)
    ensures forall k :: 0 <= k < |a.name| ==> Inert(a.name[k], NoQuote, false)
    ensures forall k :: 0 <= k < |a.before| ==> Inert(a.before[k], NoQuote, false)
    ensures forall k :: 0 <= k < |a.after| ==> Inert(a.after[k], NoQuote, true)
    ensures a.before == "" ==> a.name[|a.name| - 1] != '='
    ensures a.before != "" ==> a.before[|a.before| - 1] != '='
    ensures a.name != ""
  {
  }

  lemma EqualStep(s: string, e: nat, st: Scan, name: string)
    requires e < |s| && s[e] == '=' && InAttrs(st, name) && st.quote == NoQuote && !st.equals && st.d1 != '='
    ensures Run(s, 1, e, st) == Run(s, 1, e + 1, st.(equals := true, d2 := st.d1, d1 := '='))
  {
    assert Step(s, 1, e, st) == StepEnd(s, 1, e, st);
  }

  /** The state behind a value that begins in state `st`. */
  function PastValue(st: Scan, quote: string, v: string): Scan {
    if quote == "" then Past(st.(quote := Unquoted, equals := false), v)
    else
      var x := Past(st.(quote := if quote[0] == '\"' then InDouble else InSingle, equals := false, d2 := st.d1, d1 := quote[0]), v);
      x.(quote := NoQuote, d2 := x.d1, d1 := quote[0])
  }

  /** A quoted value. */
  lemma RunQuoted(s: string, q: nat, quote: string, v: string, st: Scan, name: string)
    requires QuotedOk(quote, v) && At(s, q, quote) && At(s, q + 1, v) && At(s, q + 1 + |v|, quote)
    requires InAttrs(st, name) && st.quote == NoQuote && st.equals
    ensures Run(s, 1, q, st) == Run(s, 1, q + 2 + |v|, PastValue(st, quote, v)) && q + 2 + |v| <= |s|
    ensures var r := PastValue(st, quote, v); InAttrs(r, name) && r.quote == NoQuote && !r.equals && r.d1 == quote[0]
  {
    hide Run, At, Past;
    var c := quote[0];
    CharAt0(s, q, quote);
    CharAt0(s, q + 1 + |v|, quote);
    var x := st.(quote := if c == '\"' then InDouble else InSingle, equals := false, d2 := st.d1, d1 := c);
    OpenQuote(s, q, st, name);
    RunInert(s, q + 1, v, x, name);
    PastIs(x, v);
    CloseQuote(s, q + 1 + |v|, Past(x, v), name);
  }

  lemma OpenQuote(s: string, q: nat, st: Scan, name: string)
    requires q < |s| && IsQuote(s[q]) && InAttrs(st, name) && st.quote == NoQuote && st.equals
    ensures Run(s, 1, q, st) == Run(s, 1, q + 1, st.(quote := if s[q] == '\"' then InDouble else InSingle, equals := false, d2 := st.d1, d1 := s[q]))
  {
    assert Step(s, 1, q, st) == StepEnd(s, 1, q, st);
  }

  lemma CloseQuote(s: string, q: nat, st: Scan, name: string)
    requires q < |s| && InAttrs(st, name) && !st.equals
    requires (s[q] == '\"' && st.quote == InDouble) || (s[q] == '\'' && st.quote == InSingle)
    ensures Run(s, 1, q, st) == Run(s, 1, q + 1, st.(quote := NoQuote, d2 := st.d1, d1 := s[q]))
  {
    assert Step(s, 1, q, st) == StepEnd(s, 1, q, st);
  }

  /** An unquoted value. */
  lemma RunUnquoted(s: string, q: nat, v: string, st: Scan, name: string)
    requires UnquotedOk(v) && At(s, q, v) && InAttrs(st, name) && st.quote == NoQuote && st.equals
    ensures Run(s, 1, q, st) == Run(s, 1, q + |v|, PastValue(st, "", v)) && q + |v| <= |s|
    ensures var r := PastValue(st, "", v);
            InAttrs(r, name) && r.quote == Unquoted && !r.equals && r.d1 == v[|v| - 1] && r.d2 == if |v| > 1 then v[|v| - 2] else st.d1
  {
    hide Run;
    assert v == [v[0]] + v[1..];
    AtSplit(s, q, [v[0]], v[1..]);
    CharAt0(s, q, v);
    var x := st.(quote := Unquoted, equals := false, d2 := st.d1, d1 := v[0]);
    assert Step(s, 1, q, st) == StepEnd(s, 1, q, st) == More(x);
    OneChar(s, q, st, name, x);
    RunInert(s, q + 1, v[1..], x, name);
    PastIs(st.(quote := Unquoted, equals := false), v);
  }

  function PastAttr(st: Scan, a: Attr): Scan {
    PastValue(PastEqual(st, a), a.quote, a.value)
  }

  /** Behind an attribute. */
  predicate BehindAttr(r: Scan, name: string, a: Attr) {
    InAttrs(r, name) && !r.equals &&
    if a.quote == "" then
      && a.value != "" && r.quote == Unquoted && r.d1 == a.value[|a.value| - 1]
      && r.d2 == if |a.value| > 1 then a.value[|a.value| - 2] else if a.after == "" then '=' else a.after[|a.after| - 1]
    else r.quote == NoQuote && r.d1 == a.quote[0]
  }

  lemma RunAttr(s: string, i: nat, a: Attr, st: Scan, name: string)
    requires AttrOk(a) && At(s, i, RenderAttr(a)) && InAttrs(st, name) && !st.equals && Ready(st, a.space)
    ensures var e := i + |RenderAttr(a)|; e <= |s| && Run(s, 1, i, st) == Run(s, 1, e, PastAttr(st, a)) && BehindAttr(PastAttr(st, a), name, a)
  {
    hide RenderAttr, Run, At, Past, PastEqual, PastValue, UnquotedOk, QuotedOk, Ready, NameOk, AllWhite;
    AttrPieces(s, i, a);
    RunToValue(s, i, a, st, name);
    var q, x := i + QuoteOffset(a), PastEqual(st, a);
    if a.quote == "" {
      assert q + |a.quote| == q;
      RunUnquoted(s, q, a.value, x, name);
      ValueNotEmpty(a.value);
    } else {
      assert |a.quote| == 1 by { QuoteLen(a.quote, a.value); }
      RunQuoted(s, q, a.quote, a.value, x, name);
    }
  }

  lemma ValueNotEmpty(v: string)
    requires UnquotedOk(v)
    ensures v != ""
  {
  }

  lemma QuoteLen(quote: string, v: string)
    requires QuotedOk(quote, v)
    ensures |quote| == 1 && IsQuote(quote[0])
  {
  }

  function PastAttrs(st: Scan, s: seq<Attr>): Scan
    decreases |s|
  {
    if s == [] then st else PastAttrs(PastAttr(st, s[0]), s[1..])
  }

  lemma {:induction false} RunAttrs(s: string, i: nat, attrs: seq<Attr>, st: Scan, name: string, space: string, empty: bool)
    requires AttrsOk(attrs) && At(s, i, RenderAttrs(attrs)) && Apart(attrs, space, empty)
    requires InAttrs(st, name) && !st.equals && (attrs != [] ==> Ready(st, attrs[0].space))
    ensures i + |RenderAttrs(attrs)| <= |s| && Run(s, 1, i, st) == Run(s, 1, i + |RenderAttrs(attrs)|, PastAttrs(st, attrs))
    ensures if attrs == [] then PastAttrs(st, attrs) == st else BehindAttr(PastAttrs(st, attrs), name, attrs[|attrs| - 1])
    decreases |attrs|
  {
    hide RenderAttr, Run, At, AttrOk, PastAttr, AttrsOk, Apart, NoSlashEnd;
    SliceOf(s, i, RenderAttrs(attrs));
    if attrs != [] {
      var a, r := attrs[0], attrs[1..];
      ApartRest(attrs, space, empty);
      AtSplit(s, i, RenderAttr(a), RenderAttrs(r));
      RunAttr(s, i, a, st, name);
      if r != [] {
        assert ([a] + r)[1] == r[0];
      }
      RunAttrs(s, i + |RenderAttr(a)|, r, PastAttr(st, a), name, space, empty);
    }
  }

  /** The state behind the attributes lets the tag end as it should. */
  predicate CanClose(st: Scan, name: string, space: string, empty: bool) {
    && InAttrs(st, name) && !st.equals
    && (space == "" && st.quote != NoQuote ==> st.quote == Unquoted && !empty && !ClosesEmpty(st))
    && (space == "" && st.quote == NoQuote ==> st.d1 != '/')
    && (st.quote == NoQuote || st.quote == Unquoted)
  }

  /** White space, `/` and `>` end the tag. */
  lemma RunClose(s: string, i: nat, t: Tag, st: Scan)
    requires AllWhite(t.space) && At(s, i, RenderClose(t)) && i + |RenderClose(t)| == |s| && CanClose(st, t.name, t.space, t.empty)
    ensures var n := NodeOf(Run(s, 1, i, st)); n == Node(ELEMENT, |s|, 1, |t.name|, t.empty) && !Run(s, 1, i, st).eof
  {
    hide Run, At, Past;
    var c := if t.empty then "/>" else ">";
    AtSplit(s, i, t.space, c);
    RunWhite(s, i, t.space, st, t.name);
    var x := PastWhite(st, t.space);
    PastIs(if t.space == "" then st else st.(quote := NoQuote), t.space);
    NoPast(st);
    var m := i + |t.space|;
    if t.empty {
      assert "/>" == "/" + ">";
      AtSplit(s, m, "/", ">");
      CharAt0(s, m, "/");
      CharAt0(s, m + 1, ">");
      assert InertStepAt(s, m, x, t.name) by { InertStep(s, m, x, t.name); }
      OneChar(s, m, x, t.name, x.(d2 := x.d1, d1 := '/'));
      GtStep(s, m + 1, x.(d2 := x.d1, d1 := '/'), t.name);
    } else {
      CharAt0(s, m, ">");
      GtStep(s, m, x, t.name);
    }
  }

  predicate InertStepAt(s: string, i: nat, st: Scan, name: string)
    requires i < |s|
  {
    Step(s, 1, i, st) == More(st.(d2 := st.d1, d1 := s[i]))
  }

  lemma GtStep(s: string, i: nat, st: Scan, name: string)
    requires i + 1 == |s| && s[i] == '>' && InAttrs(st, name) && (st.quote == NoQuote || st.quote == Unquoted) && !st.equals
    ensures var r := Run(s, 1, i, st); NodeOf(r) == Node(ELEMENT, |s|, 1, |name|, ClosesEmpty(st)) && !r.eof
  {
    assert Step(s, 1, i, st) == StepEnd(s, 1, i, st) == AtGt(s, 1, i, st);
  }

  lemma AtSelf(s: string)
    ensures At(s, 0, s)
  {
  }

  lemma TagLen(t: Tag)
    ensures |RenderTag(t)| == 1 + |t.name| + |RenderAttrs(t.attrs)| + |RenderClose(t)| && RenderTag(t)[0] == '<'
  {
    hide RenderAttrs, RenderClose;
  }

  lemma WholeTag(t: Tag)
    requires TagOk(t)
    ensures var s, b := RenderTag(t), 1 + |t.name|;
            && b < |s| && s[0] == '<' && s[1..b] == t.name && At(s, b, RenderAttrs(t.attrs))
            && At(s, b + |RenderAttrs(t.attrs)|, RenderClose(t)) && b + |RenderAttrs(t.attrs)| + |RenderClose(t)| == |s|
            && EndName(s[b])
  {
    hide RenderAttrs, RenderClose, RenderTag, At, TagOk, EndName, EndAttribName, FindFrom, SkipWhite, WordEnd, Match;
    var s := RenderTag(t);
    AtSelf(s);
    TagLen(t);
    FindTagName(s, 0, t, "");
    AfterTagName(s, 1 + |t.name|, t);
    SliceOf(s, 1, t.name);
  }

  /** The scan from the end of the name to the end of the tag. */
  lemma RunRest(s: string, b: nat, t: Tag)
    requires TagOk(t) && b == 1 + |t.name| < |s| && At(s, b, RenderAttrs(t.attrs)) && EndName(s[b])
    requires At(s, b + |RenderAttrs(t.attrs)|, RenderClose(t)) && b + |RenderAttrs(t.attrs)| + |RenderClose(t)| == |s|
    ensures var r := Run(s, 1, b, NameState()); NodeOf(r) == Node(ELEMENT, |s|, 1, |t.name|, t.empty)
  {
    hide Run, RenderTag, RenderAttrs, RenderClose, AttrOk, At, EndName, EndAttribName, AttrsOk, AllWhite, NameState, NodeOf, NameOk, ValidName, InAttrs;
    NameEnds(s, b, t);
    var x := EndNameAt(b, NameState());
    RunAttrs(s, b, t.attrs, x, t.name, t.space, t.empty);
    CloseReady(x, t);
    RunClose(s, b + |RenderAttrs(t.attrs)|, t, PastAttrs(x, t.attrs));
  }

  lemma CloseReady(x: Scan, t: Tag)
    requires TagOk(t) && InAttrs(x, t.name) && x.quote == NoQuote && !x.equals && x.d1 == '\0'
    requires var y := PastAttrs(x, t.attrs); if t.attrs == [] then y == x else BehindAttr(y, t.name, t.attrs[|t.attrs| - 1])
    ensures CanClose(PastAttrs(x, t.attrs), t.name, t.space, t.empty)
  {
    hide PastAttrs, NameOk, ValidName;
    if t.attrs != [] {
      var k := |t.attrs| - 1;
      assert ApartAt(t.attrs, t.space, t.empty, k) && AttrOk(t.attrs[k]);
    }
  }

  /** A list of attributes makes one start tag, whatever the values hold. */
  lemma TagIsStart(t: Tag)
    requires TagOk(t)
    ensures IsStart(RenderTag(t), t.empty) && NameOf(RenderTag(t)) == t.name && RenderTag(t) != ""
  {
    var s, b := RenderTag(t), 1 + |t.name|;
    hide Run, RenderTag, RenderAttrs, RenderClose, At, EndName, NameState, ValidName, NodeOf, NameOk, AttrsOk;
    WholeTag(t);
    RunToName(s, t.name);
    RunRest(s, b, t);
  }

  /** At the end of the name the scan goes on as if it had been behind it. */
  lemma NameEnds(s: string, b: nat, t: Tag)
    requires b < |s| && b == 1 + |t.name| && EndName(s[b])
    ensures var x := EndNameAt(b, NameState());
            Run(s, 1, b, NameState()) == Run(s, 1, b, x) && InAttrs(x, t.name) && x.quote == NoQuote && !x.equals && x.d1 == '\0'
  {
    var x := EndNameAt(b, NameState());
    assert Step(s, 1, b, NameState()) == Step(s, 1, b, x);
  }

  // ---- Setting an attribute ----

  /** The tag after `x_SetAttrib`: the first attribute that matches gets the value, in double quotes; if
      there is none, a new one goes behind the last. */
  function SetAttr(t: Tag, name: string, value: string): Tag {
    var k := FirstMatch(t.attrs, name);
    if k < |t.attrs| then Tag(t.name, t.attrs[k := WithValue(t.attrs[k], value)], t.space, t.empty)
    else Tag(t.name, t.attrs + [Attr(" ", name, "", "", "\"", value)], t.space, t.empty)
  }

  function WithValue(a: Attr, value: string): Attr {
    Attr(a.space, a.name, a.before, a.after, "\"", value)
  }

  lemma SetAttrOk(t: Tag, name: string, value: string)
    requires TagOk(t) && NoChar(value, '\"') && (FirstMatch(t.attrs, name) == |t.attrs| ==> NameOk(name))
    ensures TagOk(SetAttr(t, name, value))
  {
    hide NameOk, ValidName, AttrOk, ApartAt, NoSlashEnd, FirstMatch;
    var k := FirstMatch(t.attrs, name);
    var u := SetAttr(t, name, value).attrs;
    forall i | 0 <= i < |u| ensures AttrOk(u[i]) && ApartAt(u, t.space, t.empty, i) {
      if i < |t.attrs| { assert AttrOk(t.attrs[i]) && ApartAt(t.attrs, t.space, t.empty, i); }
      if i == k {
        NewAttrOk(if i < |t.attrs| then t.attrs[k] else u[k], name, value);
        assert ApartAt(u, t.space, t.empty, i) by { QuotedApart(u, t.space, t.empty, i); }
      } else {
        assert ApartAt(u, t.space, t.empty, i) by { SpaceApart(t.attrs, u, t.space, t.empty, i); }
      }
    }
  }

  lemma QuotedApart(u: seq<Attr>, space: string, empty: bool, i: nat)
    requires i < |u| && u[i].quote != ""
    ensures ApartAt(u, space, empty, i)
  {
  }

  lemma SpaceApart(s: seq<Attr>, u: seq<Attr>, space: string, empty: bool, i: nat)
    requires i < |s| <= |u| && s[i] == u[i] && ApartAt(s, space, empty, i)
    requires if i + 1 < |s| then u[i + 1].space == s[i + 1].space else i + 1 < |u| ==> u[i + 1].space != ""
    ensures ApartAt(u, space, empty, i)
  {
  }

  lemma NewAttrOk(a: Attr, name: string, value: string)
    requires NoChar(value, '\"')
    ensures AttrOk(a) ==> AttrOk(WithValue(a, value))
    ensures NameOk(name) ==> AttrOk(Attr(" ", name, "", "", "\"", value))
  {
  }

  /** What `x_SetAttrib` has set, `x_GetAttrib` finds, and no other attribute changes or moves. */
  lemma SetThenFind(t: Tag, name: string, value: string)
    ensures var k, u := FirstMatch(t.attrs, name), SetAttr(t, name, value);
            && FirstMatch(u.attrs, name) == k < |u.attrs| && u.attrs[k].value == value && u.attrs[k].quote == "\""
            && u.attrs[..k] == t.attrs[..k] && (k < |t.attrs| ==> u.attrs[k + 1..] == t.attrs[k + 1..] && u.attrs[k].name == t.attrs[k].name)
            && (k == |t.attrs| ==> |u.attrs| == k + 1 && u.attrs[k].name == name)
            && u.name == t.name && u.empty == t.empty
  {
    var k, u := FirstMatch(t.attrs, name), SetAttr(t, name, value);
    assert Match(name, name);
    FirstMatchIs(u.attrs, name, k);
  }

  lemma {:induction false} FirstMatchIs(s: seq<Attr>, name: string, k: nat)
    requires k < |s| && Match(s[k].name, name) && forall i :: 0 <= i < k ==> !Match(s[i].name, name)
    ensures FirstMatch(s, name) == k
    decreases k
  {
    hide Match;
    if k > 0 {
      FirstMatchIs(s[1..], name, k - 1);
    }
  }

  lemma ValueText(a: Attr, value: string)
    ensures QuoteOffset(a) + |a.value| + 2 * |a.quote| == |RenderAttr(a)|
    ensures RenderAttr(WithValue(a, value)) == Splice(RenderAttr(a), QuoteOffset(a), |a.value| + 2 * |a.quote|, Quoted("\"", value))
  {
    var p, v := a.space + a.name + (a.before + "=" + a.after), Quoted(a.quote, a.value);
    assert RenderAttr(a) == p + v && |p| == QuoteOffset(a);
    assert RenderAttr(a)[..|p|] == p && RenderAttr(a)[|p| + |a.value| + 2 * |a.quote|..] == "";
  }

  lemma {:induction false} ValueInAttrs(s: seq<Attr>, k: nat, value: string)
    requires k < |s|
    ensures AttrOffset(s, k) + |RenderAttr(s[k])| <= |RenderAttrs(s)|
    ensures AttrOffset(s, k) + QuoteOffset(s[k]) + |s[k].value| + 2 * |s[k].quote| <= |RenderAttrs(s)|
    ensures RenderAttrs(s[k := WithValue(s[k], value)])
            == Splice(RenderAttrs(s), AttrOffset(s, k) + QuoteOffset(s[k]), |s[k].value| + 2 * |s[k].quote|, Quoted("\"", value))
    decreases k
  {
    hide RenderAttr, QuoteOffset, Splice, WithValue, Quoted;
    var a, r, x := s[0], s[1..], Quoted("\"", value);
    var u := s[k := WithValue(s[k], value)];
    ValueText(s[k], value);
    if k == 0 {
      assert u[1..] == r && u[0] == WithValue(a, value);
      SpliceInside("", RenderAttr(a), RenderAttrs(r), QuoteOffset(a), |a.value| + 2 * |a.quote|, x);
      assert "" + RenderAttr(WithValue(a, value)) == RenderAttr(WithValue(a, value));
      assert "" + RenderAttr(a) == RenderAttr(a);
    } else {
      ValueInAttrs(r, k - 1, value);
      assert u[1..] == r[k - 1 := WithValue(r[k - 1], value)] && u[0] == a;
      SpliceInside(RenderAttr(a), RenderAttrs(r), "", AttrOffset(r, k - 1) + QuoteOffset(r[k - 1]), |r[k - 1].value| + 2 * |r[k - 1].quote|, x);
      assert RenderAttr(a) + RenderAttrs(r) + "" == RenderAttr(a) + RenderAttrs(r);
      assert RenderAttrs(u) + "" == RenderAttrs(u);
    }
  }

  lemma {:induction false} RenderAppend(s: seq<Attr>, a: Attr)
    ensures RenderAttrs(s + [a]) == RenderAttrs(s) + RenderAttr(a)
  {
    hide RenderAttr;
    if s == [] {
      assert (s + [a])[1..] == [] && RenderAttr(a) + "" == "" + RenderAttr(a);
    } else {
      assert (s + [a])[1..] == s[1..] + [a];
      RenderAppend(s[1..], a);
      assert RenderAttr(s[0]) + (RenderAttrs(s[1..]) + RenderAttr(a)) == RenderAttr(s[0]) + RenderAttrs(s[1..]) + RenderAttr(a);
    }
  }

  /** What `x_SetAttrib` puts in, where in the tag, and what it replaces. */
  function SetPlace(t: Tag, name: string): nat {
    var k, b := FirstMatch(t.attrs, name), 1 + |t.name|;
    if k < |t.attrs| then b + AttrOffset(t.attrs, k) + QuoteOffset(t.attrs[k]) else b + |RenderAttrs(t.attrs)|
  }

  function SetReplace(t: Tag, name: string): nat {
    var k := FirstMatch(t.attrs, name);
    if k < |t.attrs| then |t.attrs[k].value| + 2 * |t.attrs[k].quote| else 0
  }

  function SetInsert(t: Tag, name: string, value: string): string {
    if FirstMatch(t.attrs, name) < |t.attrs| then Quoted("\"", value) else " " + name + "=" + Quoted("\"", value)
  }

  lemma SetAttrText(t: Tag, name: string, value: string)
    ensures 1 <= SetPlace(t, name) && SetPlace(t, name) + SetReplace(t, name) < |RenderTag(t)|
    ensures RenderTag(SetAttr(t, name, value)) == Splice(RenderTag(t), SetPlace(t, name), SetReplace(t, name), SetInsert(t, name, value))
  {
    hide RenderAttr, RenderAttrs, QuoteOffset, Splice, WithValue, Quoted, AttrOffset;
    var k, x := FirstMatch(t.attrs, name), SetInsert(t, name, value);
    var p, q := "<" + t.name, RenderClose(t);
    if k < |t.attrs| {
      ValueInAttrs(t.attrs, k, value);
      SpliceInside(p, RenderAttrs(t.attrs), q, AttrOffset(t.attrs, k) + QuoteOffset(t.attrs[k]), |t.attrs[k].value| + 2 * |t.attrs[k].quote|, x);
    } else {
      var a := Attr(" ", name, "", "", "\"", value);
      RenderAppend(t.attrs, a);
      NewAttrText(name, value);
      SpliceEnd(RenderAttrs(t.attrs), x);
      SpliceInside(p, RenderAttrs(t.attrs), q, |RenderAttrs(t.attrs)|, 0, x);
    }
  }

  lemma NewAttrText(name: string, value: string)
    ensures RenderAttr(Attr(" ", name, "", "", "\"", value)) == " " + name + "=" + Quoted("\"", value)
  {
    hide Quoted;
    assert "" + "=" + "" == "=";
  }

  lemma SpliceEnd(a: string, x: string)
    ensures Splice(a, |a|, 0, x) == a + x
  {
  }
}
