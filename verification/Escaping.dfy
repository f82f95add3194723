/** Escaping and unescaping of text. */
module Escaping {
  import opened Chars
  import Utf8

  // ---- EscapeText ----

  predicate StartEntityRef(c: char) {
    c == '#' || c == ':' || 'A' <= c <= 'Z' || c == '_' || 'a' <= c <= 'z' || c as int > 0x7f
  }

  predicate InEntityRef(c: char) {
    c == '-' || c == '.' || '0' <= c <= '9' || c == ':' || 'A' <= c <= 'Z' || c == '_' || 'a' <= c <= 'z' || c as int > 0x7f
  }

  function EscapeChar(c: char, quotes: bool): string {
    if c == '<' then "&lt;"
    else if c == '&' then "&amp;"
    else if c == '>' then "&gt;"
    else if quotes && c == '\"' then "&quot;"
    else if quotes && c == '\'' then "&apos;"
    else [c]
  }

  /** Number of characters up to and including the `;` of a reference whose name goes on at `i`. */
  function RefEnd(s: string, i: nat): (n: nat)
    ensures n != 0 ==> i < n <= |s| && s[n - 1] == ';'
    decreases |s| - i
  {
    if i >= |s| then 0
    else if s[i] == ';' then i + 1
    else if InEntityRef(s[i]) then RefEnd(s, i + 1)
    else 0
  }

  /** Length of the entity reference at the front of `s`, or 0. */
  function RefLen(s: string): (n: nat)
    ensures n != 0 ==> 3 <= n <= |s| && s[0] == '&'
  {
    if |s| > 2 && s[0] == '&' && StartEntityRef(s[1]) then RefEnd(s, 2) else 0
  }

  /** `quotes` stands for MNF_ESCAPEQUOTES, `refs` for MNF_WITHREFS. */
  function Escape(s: string, quotes: bool, refs: bool): string {
    if s == "" then ""
    else if refs && RefLen(s) != 0 then s[..RefLen(s)] + Escape(s[RefLen(s)..], quotes, refs)
    else EscapeChar(s[0], quotes) + Escape(s[1..], quotes, refs)
  }

  /** How many characters the code takes at a time, and what it writes for them. */
  function Taken(s: string, refs: bool): (n: nat)
    requires s != ""
    ensures 1 <= n <= |s|
  {
    if refs && RefLen(s) != 0 then RefLen(s) else 1
  }

  function Written(s: string, quotes: bool, refs: bool): string
    requires s != ""
  {
    if refs && RefLen(s) != 0 then s[..RefLen(s)] else EscapeChar(s[0], quotes)
  }

  lemma EscapeStep(a: string, s: string, p: nat, quotes: bool, refs: bool)
    requires p < |s|
    ensures a + Escape(s[p..], quotes, refs)
            == (a + Written(s[p..], quotes, refs)) + Escape(s[p + Taken(s[p..], refs)..], quotes, refs)
  {
    hide EscapeChar, RefLen;
    var t := s[p..];
    var x, y := Written(t, quotes, refs), Escape(t[Taken(t, refs)..], quotes, refs);
    assert t[Taken(t, refs)..] == s[p + Taken(t, refs)..];
    assert Escape(t, quotes, refs) == x + y;
    assert a + (x + y) == (a + x) + y;
  }

  method EscapeText(szText: string, quotes: bool, refs: bool) returns (strText: string)
    ensures strText == Escape(szText, quotes, refs)
  {
    hide Escape, EscapeChar, RefLen;
    strText := "";
    var p := 0;
    assert strText + Escape(szText[p..], quotes, refs) == Escape(szText, quotes, refs) by {
      assert szText[0..] == szText && "" + Escape(szText, quotes, refs) == Escape(szText, quotes, refs);
    }
    while p < |szText|
      invariant p <= |szText|
      invariant strText + Escape(szText[p..], quotes, refs) == Escape(szText, quotes, refs)
    {
      EscapeStep(strText, szText, p, quotes, refs);
      var n := 0;
      if refs && szText[p] == '&' {
        n := EntityLength(szText, p);
      }
      assert n == if refs then RefLen(szText[p..]) else 0;
      if n != 0 {
        assert szText[p..][..n] == szText[p..p + n];
        strText := strText + szText[p..p + n];
        p := p + n;
      } else {
        strText := strText + EscapeChar(szText[p], quotes);
        p := p + 1;
      }
    }
    EscapeNothing(quotes, refs);
    assert szText[p..] == "";
  }

  lemma EscapeNothing(quotes: bool, refs: bool)
    ensures Escape("", quotes, refs) == ""
  {
  }

  /** The scan for the end of a reference that starts at `p`. */
  method EntityLength(szText: string, p: nat) returns (n: nat)
    requires p < |szText| && szText[p] == '&'
    ensures n == RefLen(szText[p..])
  {
    var q := p + 1;
    if q < |szText| && StartEntityRef(szText[q]) {
      q := q + 1;
      ghost var s := szText[p..];
      while q < |szText|
        invariant p + 2 <= q <= |szText|
        invariant RefLen(s) == RefEnd(s, q - p)
      {
        if szText[q] == ';' {
          return q + 1 - p;
        }
        if !InEntityRef(szText[q]) {
          return 0;
        }
        q := q + 1;
      }
    }
    return 0;
  }

  // ---- UnescapeText ----

  function CharAt(s: string, i: nat): char {
    if i < |s| then s[i] else '\0'
  }

  /** Characters from `i` on up to a `;`, at most nine and all ASCII, counting the `n` already seen. */
  function CodeLen(s: string, i: nat, n: nat): (r: nat)
    requires n <= 9
    ensures n <= r <= 9
    decreases 9 - n
  {
    if n < 9 && CharAt(s, i + n) as int < 128 && CharAt(s, i + n) != ';' then CodeLen(s, i, n + 1) else n
  }

  function Lower(c: char): char {
    if 'A' <= c <= 'Z' then (c as int + 32) as char else c
  }

  function CodeName(s: string, i: nat, n: nat): (r: string)
    ensures |r| == n
  {
    if n == 0 then "" else CodeName(s, i, n - 1) + [Lower(CharAt(s, i + n - 1))]
  }

  function Hash(s: string): nat {
    if s == "" then 0 else s[0] as int + Hash(s[1..])
  }

  function Digit(c: char): int {
    if '0' <= c <= '9' then c as int - '0' as int else if 'a' <= c <= 'f' then c as int - 'a' as int + 10 else 99
  }

  function Digits(s: string, base: int, acc: int): int {
    if s == "" || Digit(s[0]) >= base then acc else Digits(s[1..], base, acc * base + Digit(s[0]))
  }

  /** `strtol` on lower-case text: white space, a sign, for base 16 an optional `0x`, digits. */
  function StrToL(s: string, base: int): int {
    if s != "" && (s[0] == ' ' || 9 <= s[0] as int <= 13) then StrToL(s[1..], base)
    else if s != "" && s[0] == '-' then -Unsigned(s[1..], base)
    else if s != "" && s[0] == '+' then Unsigned(s[1..], base)
    else Unsigned(s, base)
  }

  function Unsigned(s: string, base: int): int {
    if base == 16 && "0x" <= s then Digits(s[2..], base, 0) else Digits(s, base, 0)
  }

  /** The code point of `name` in one slot of the entity table.  An entry is a one-digit length, a
      four-digit code point and the name. */
  function FindEntry(slot: string, name: string): int {
    if |slot| < 5 then 0 else
    var n := Digit(slot[0]);
    if n > 9 || |slot| < 5 + n then 0
    else if n == |name| && slot[5..5 + n] == name then Digits(slot[1..5], 10, 0)
    else FindEntry(slot[5 + n..], name)
  }

  function Lookup(table: seq<string>, name: string): int {
    if table == [] then 0 else FindEntry(table[Hash(name) % |table|], name)
  }

  /** The code point that a code name stands for, or 0. */
  function Decode(table: seq<string>, name: string): int {
    if name != "" && name[0] == '#' then
      if |name| > 1 && name[1] == 'x' then StrToL(name[2..], 16) else StrToL(name[1..], 10)
    else Lookup(table, name)
  }

  /** The code point of the reference whose `&` stands at `i`, or 0. */
  function CodePoint(table: seq<string>, s: string, i: nat): int {
    var n := CodeLen(s, i + 1, 0);
    if CharAt(s, i + 1 + n) == ';' then Decode(table, CodeName(s, i + 1, n)) else 0
  }

  /** The text `s[i..end]` with its references decoded. */
  function Unescape(table: seq<string>, s: string, i: nat, end: nat): string
    decreases end - i
  {
    if i >= end then ""
    else if CharAt(s, i) == '&' then
      var u := CodePoint(table, s, i);
      if u != 0 then Utf8.Encode(u) + Unescape(table, s, i + CodeLen(s, i + 1, 0) + 2, end)
      else "&" + Unescape(table, s, i + 1, end)
    else [CharAt(s, i)] + Unescape(table, s, i + 1, end)
  }

  function UnescapedLen(table: seq<string>, s: string, i: nat): (n: nat)
    ensures n > 0
  {
    if CharAt(s, i) == '&' && CodePoint(table, s, i) != 0 then CodeLen(s, i + 1, 0) + 2 else 1
  }

  function Unescaped(table: seq<string>, s: string, i: nat): string {
    if CharAt(s, i) != '&' then [CharAt(s, i)]
    else if CodePoint(table, s, i) != 0 then Utf8.Encode(CodePoint(table, s, i)) else "&"
  }

  lemma UnescapeStep(a: string, table: seq<string>, s: string, i: nat, end: nat)
    requires i < end
    ensures a + Unescape(table, s, i, end)
            == (a + Unescaped(table, s, i)) + Unescape(table, s, i + UnescapedLen(table, s, i), end)
  {
    hide CodePoint, CodeLen;
    var x, y := Unescaped(table, s, i), Unescape(table, s, i + UnescapedLen(table, s, i), end);
    assert Unescape(table, s, i, end) == x + y;
    assert a + (x + y) == (a + x) + y;
  }

  method UnescapeText(table: seq<string>, s: string, start: nat, nTextLength: nat) returns (strText: string)
    ensures strText == Unescape(table, s, start, start + nTextLength)
  {
    hide Unescape, CodePoint, CodeLen;
    strText := "";
    var n := 0;
    assert "" + Unescape(table, s, start, start + nTextLength) == Unescape(table, s, start, start + nTextLength);
    while n < nTextLength
      invariant strText + Unescape(table, s, start + n, start + nTextLength) == Unescape(table, s, start, start + nTextLength)
      decreases nTextLength - n
    {
      UnescapeStep(strText, table, s, start + n, start + nTextLength);
      var c := CharAt(s, start + n);
      if c == '&' {
        var nUnicode, nCodeLen := DecodeReference(table, s, start + n);
        if nUnicode != 0 {
          strText := strText + Utf8.Encode(nUnicode);
          n := n + nCodeLen + 2;
        } else {
          strText := strText + "&";
          n := n + 1;
        }
      } else {
        strText := strText + [c];
        n := n + 1;
      }
    }
    UnescapeNothing(table, s, start + n, start + nTextLength);
    assert strText + "" == strText;
  }

  lemma UnescapeNothing(table: seq<string>, s: string, i: nat, end: nat)
    requires i >= end
    ensures Unescape(table, s, i, end) == ""
  {
  }

  method DecodeReference(table: seq<string>, s: string, i: nat) returns (nUnicode: int, nCodeLen: nat)
    ensures nUnicode == CodePoint(table, s, i) && nCodeLen == CodeLen(s, i + 1, 0)
  {
    var szCodeName := "";
    nCodeLen := 0;
    var c := CharAt(s, i + 1);
    while nCodeLen < 9 && c as int < 128 && c != ';'
      invariant nCodeLen <= 9 && c == CharAt(s, i + 1 + nCodeLen) && szCodeName == CodeName(s, i + 1, nCodeLen)
      invariant CodeLen(s, i + 1, 0) == CodeLen(s, i + 1, nCodeLen)
      decreases 9 - nCodeLen
    {
      szCodeName := szCodeName + [Lower(c)];
      nCodeLen := nCodeLen + 1;
      c := CharAt(s, i + 1 + nCodeLen);
    }
    nUnicode := if c == ';' then Decode(table, szCodeName) else 0;
  }

  // ---- Unescaping undoes escaping ----

  /** The table knows the five names of section 4.6 of XML 1.0. */
  predicate KnowsXml(table: seq<string>) {
    && Lookup(table, "lt") == 60 && Lookup(table, "amp") == 38 && Lookup(table, "gt") == 62
    && Lookup(table, "quot") == 34 && Lookup(table, "apos") == 39
  }

  /** The short table of the five names, as the source gives it. */
  const SHORT_TABLE := ["20060lt", "40034quot", "30038amp", "20062gt40039apos"]

  lemma FourDigits(s: string)
    requires |s| == 4 && forall i :: 0 <= i < 4 ==> 0 <= Digit(s[i]) <= 9
    ensures Digits(s, 10, 0) == 1000 * Digit(s[0]) + 100 * Digit(s[1]) + 10 * Digit(s[2]) + Digit(s[3])
  {
    hide Digit;
    assert s[1..][1..] == s[2..] && s[2..][1..] == s[3..] && s[3..][1..] == "";
    var a := Digit(s[0]);
    var b := a * 10 + Digit(s[1]);
    var c := b * 10 + Digit(s[2]);
    assert Digits(s, 10, 0) == Digits(s[1..], 10, a);
    assert Digits(s[1..], 10, a) == Digits(s[2..], 10, b);
    assert Digits(s[2..], 10, b) == Digits(s[3..], 10, c);
    assert Digits(s[3..], 10, c) == Digits("", 10, c * 10 + Digit(s[3]));
  }

  /** The first entry of a slot, when it is the one looked for. */
  lemma EntryFound(slot: string, name: string, code: string, rest: string)
    requires |name| <= 9 && |code| == 4 && (forall i :: 0 <= i < 4 ==> 0 <= Digit(code[i]) <= 9)
    requires |slot| > 0 && Digit(slot[0]) == |name| && slot[1..] == code + name + rest
    ensures FindEntry(slot, name) == 1000 * Digit(code[0]) + 100 * Digit(code[1]) + 10 * Digit(code[2]) + Digit(code[3])
  {
    hide Digit, Digits;
    assert slot[1..5] == slot[1..][..4] == code;
    assert slot[5..5 + |name|] == slot[1..][4..4 + |name|] == name;
    FourDigits(code);
  }

  /** The first entry of a slot, when it is another one. */
  lemma EntrySkipped(slot: string, name: string, n: nat, rest: string)
    requires |slot| >= 5 + n && Digit(slot[0]) == n <= 9 && slot[5 + n..] == rest
    requires n != |name| || slot[5..5 + n] != name
    ensures FindEntry(slot, name) == FindEntry(rest, name)
  {
  }

  lemma LookupHit(table: seq<string>, name: string, i: nat)
    requires table != [] && Hash(name) % |table| == i
    ensures Lookup(table, name) == FindEntry(table[i], name)
  {
  }

  lemma Hashes()
    ensures Hash("lt") == 224 && Hash("amp") == 318 && Hash("gt") == 219 && Hash("quot") == 457 && Hash("apos") == 435
  {
  }

  lemma ShortTableKnowsXml()
    ensures KnowsXml(SHORT_TABLE)
  {
    hide FindEntry, Lookup, Hash;
    Hashes();
    LookupHit(SHORT_TABLE, "lt", 0);
    LookupHit(SHORT_TABLE, "quot", 1);
    LookupHit(SHORT_TABLE, "amp", 2);
    LookupHit(SHORT_TABLE, "gt", 3);
    LookupHit(SHORT_TABLE, "apos", 3);
    LtEntry();
    AmpEntry();
    QuotEntry();
    GtEntry();
    AposEntry();
  }

  lemma LtEntry()
    ensures FindEntry("20060lt", "lt") == 60
  {
    EntryFound("20060lt", "lt", "0060", "");
  }

  lemma AmpEntry()
    ensures FindEntry("30038amp", "amp") == 38
  {
    EntryFound("30038amp", "amp", "0038", "");
  }

  lemma QuotEntry()
    ensures FindEntry("40034quot", "quot") == 34
  {
    EntryFound("40034quot", "quot", "0034", "");
  }

  lemma GtEntry()
    ensures FindEntry("20062gt40039apos", "gt") == 62
  {
    EntryFound("20062gt40039apos", "gt", "0062", "40039apos");
  }

  lemma AposEntry()
    ensures FindEntry("20062gt40039apos", "apos") == 39
  {
    EntrySkipped("20062gt40039apos", "apos", 2, "40039apos");
    EntryFound("40039apos", "apos", "0039", "");
  }

  /** Lower-case letters only. */
  predicate Letters(s: string) {
    forall i :: 0 <= i < |s| ==> 'a' <= s[i] <= 'z'
  }

  lemma {:induction false} CodeOf(s: string, i: nat, n: nat, name: string)
    requires At(s, i, name + ";") && Letters(name) && n <= |name| <= 9
    ensures CodeLen(s, i, n) == |name| && CodeName(s, i, n) == name[..n]
    ensures CharAt(s, i + |name|) == ';'
    decreases |name| - n, n
  {
    assert s[i + |name|] == s[i..i + |name| + 1][|name|];
    if n < |name| {
      assert s[i + n] == s[i..i + |name| + 1][n] == name[n];
      CodeOf(s, i, n + 1, name);
    }
    CodeNameOf(s, i, n, name);
  }

  lemma {:induction false} CodeNameOf(s: string, i: nat, n: nat, name: string)
    requires At(s, i, name + ";") && Letters(name) && n <= |name|
    ensures CodeName(s, i, n) == name[..n]
  {
    if n > 0 {
      CodeNameOf(s, i, n - 1, name);
      assert s[i + n - 1] == s[i..i + |name| + 1][n - 1] == name[n - 1];
      assert name[..n] == name[..n - 1] + [name[n - 1]];
    }
  }

  /** One of the five references is decoded to its character. */
  lemma ReferenceDecodes(table: seq<string>, s: string, i: nat, end: nat, name: string, c: char)
    requires At(s, i, "&" + name + ";") && Letters(name) && 2 <= |name| <= 4
    requires Lookup(table, name) == c as int && 0 < c as int < 128 && i < end
    ensures Unescape(table, s, i, end) == [c] + Unescape(table, s, i + |name| + 2, end)
  {
    hide Lookup, Unescape, CodePoint, CodeLen, CodeName, Utf8.Encode;
    NameRead(table, s, i, name);
    assert Utf8.Encode(c as int) == [c] by { OneByte(c); }
    UnescapeStep("", table, s, i, end);
    assert "" + Unescape(table, s, i, end) == Unescape(table, s, i, end) && "" + [c] == [c];
  }

  lemma OneByte(c: char)
    requires 0 < c as int < 128
    ensures Utf8.Encode(c as int) == [c]
  {
  }

  lemma NameRead(table: seq<string>, s: string, i: nat, name: string)
    requires At(s, i, "&" + name + ";") && Letters(name) && 2 <= |name| <= 4
    ensures CharAt(s, i) == '&' && CodeLen(s, i + 1, 0) == |name| && CodePoint(table, s, i) == Lookup(table, name)
  {
    hide Lookup;
    AtSplit3(s, i, "&", name, ";");
    AtSplit(s, i + 1, name, ";");
    CodeOf(s, i + 1, 0, name);
    CodeNameOf(s, i + 1, |name|, name);
    assert name[..|name|] == name;
    assert s[i] == s[i..i + 1][0];
  }

  /** What escaping writes for one character is decoded to that character. */
  lemma CharDecodes(table: seq<string>, s: string, i: nat, end: nat, c: char, quotes: bool)
    requires KnowsXml(table) && At(s, i, EscapeChar(c, quotes)) && i < end
    ensures Unescape(table, s, i, end) == [c] + Unescape(table, s, i + |EscapeChar(c, quotes)|, end)
  {
    hide Lookup, Unescape;
    if c == '<' {
      assert "&" + "lt" + ";" == EscapeChar(c, quotes);
      ReferenceDecodes(table, s, i, end, "lt", c);
    } else if c == '&' {
      assert "&" + "amp" + ";" == EscapeChar(c, quotes);
      ReferenceDecodes(table, s, i, end, "amp", c);
    } else if c == '>' {
      assert "&" + "gt" + ";" == EscapeChar(c, quotes);
      ReferenceDecodes(table, s, i, end, "gt", c);
    } else if quotes && c == '\"' {
      assert "&" + "quot" + ";" == EscapeChar(c, quotes);
      ReferenceDecodes(table, s, i, end, "quot", c);
    } else if quotes && c == '\'' {
      assert "&" + "apos" + ";" == EscapeChar(c, quotes);
      ReferenceDecodes(table, s, i, end, "apos", c);
    } else {
      assert s[i] == s[i..i + 1][0] == c;
      PlainDecodes(table, s, i, end);
    }
  }

  lemma PlainDecodes(table: seq<string>, s: string, i: nat, end: nat)
    requires i < |s| && s[i] != '&' && i < end
    ensures Unescape(table, s, i, end) == [s[i]] + Unescape(table, s, i + 1, end)
  {
  }

  /** Unescaping escaped text, wherever it stands, gives the text back. */
  lemma {:induction false} UnescapeOfEscape(table: seq<string>, t: string, i: nat, s: string, quotes: bool)
    requires KnowsXml(table) && At(t, i, Escape(s, quotes, false))
    ensures Unescape(table, t, i, i + |Escape(s, quotes, false)|) == s
    decreases |s|
  {
    hide KnowsXml, EscapeChar, Unescape, RefLen;
    if s == "" {
      UnescapeNothing(table, t, i, i);
    } else {
      var x, y := EscapeChar(s[0], quotes), Escape(s[1..], quotes, false);
      AtSplit(t, i, x, y);
      EscapeCharNonEmpty(s[0], quotes);
      CharDecodes(table, t, i, i + |x| + |y|, s[0], quotes);
      UnescapeOfEscape(table, t, i + |x|, s[1..], quotes);
      assert s == [s[0]] + s[1..];
    }
  }

  lemma EscapeCharNonEmpty(c: char, quotes: bool)
    ensures EscapeChar(c, quotes) != "" && NoLt(EscapeChar(c, quotes))
  {
  }

  /** Escaped text opens no tag, whatever the flags. */
  lemma {:induction false} EscapeNoLt(s: string, quotes: bool, refs: bool)
    ensures NoLt(Escape(s, quotes, refs))
    decreases |s|
  {
    hide RefLen, EscapeChar;
    if s != "" {
      var n := Taken(s, refs);
      EscapeNoLt(s[n..], quotes, refs);
      EscapeCharNonEmpty(s[0], quotes);
      if refs { RefNoLt(s); }
    }
  }

  /** With MNF_ESCAPEQUOTES no double quote is left, and no `>`, so the text can stand in an attribute value. */
  lemma {:induction false} EscapeNoQuote(s: string, refs: bool)
    ensures forall j :: 0 <= j < |Escape(s, true, refs)| ==> Escape(s, true, refs)[j] != '\"' && Escape(s, true, refs)[j] != '>'
    decreases |s|
  {
    hide RefLen, EscapeChar;
    if s != "" {
      var n := Taken(s, refs);
      EscapeNoQuote(s[n..], refs);
      EscapeCharNoQuote(s[0]);
      if refs { RefNoLt(s); }
    }
  }

  lemma EscapeCharNoQuote(c: char)
    ensures forall j :: 0 <= j < |EscapeChar(c, true)| ==> EscapeChar(c, true)[j] != '\"' && EscapeChar(c, true)[j] != '>'
  {
  }

  lemma RefNoLt(s: string)
    ensures forall j :: 0 <= j < RefLen(s) ==> s[j] != '<' && s[j] != '>' && s[j] != '\"' && (j > 0 ==> s[j] != '&')
  {
    if RefLen(s) != 0 {
      RefEndChars(s, 2);
    }
  }

  lemma {:induction false} RefEndChars(s: string, i: nat)
    requires RefEnd(s, i) != 0
    ensures forall j :: i <= j < RefEnd(s, i) ==> InEntityRef(s[j]) || s[j] == ';'
    decreases |s| - i
  {
    if s[i] != ';' {
      RefEndChars(s, i + 1);
    }
  }

  // ---- With MNF_WITHREFS ----

  /** What is escaped with references kept is left alone when it is escaped so again. */
  lemma {:induction false} EscapeIdempotent(s: string, quotes: bool)
    ensures Escape(Escape(s, quotes, true), quotes, true) == Escape(s, quotes, true)
    decreases |s|
  {
    hide EscapeChar, RefLen;
    if s != "" {
      var n := Taken(s, true);
      var x, y := Written(s, quotes, true), Escape(s[n..], quotes, true);
      EscapeIdempotent(s[n..], quotes);
      WrittenAgain(s, quotes, y);
    }
  }

  lemma {:induction false} RefEndPrefix(s: string, y: string, i: nat)
    requires i <= |s| && RefEnd(s, i) != 0
    ensures RefEnd(s[..RefEnd(s, i)] + y, i) == RefEnd(s, i)
    decreases |s| - i
  {
    var t := s[..RefEnd(s, i)] + y;
    assert t[i] == s[i];
    if s[i] != ';' {
      RefEndPrefix(s, y, i + 1);
    }
  }

  lemma WrittenAgain(s: string, quotes: bool, y: string)
    requires s != ""
    ensures Escape(Written(s, quotes, true) + y, quotes, true) == Written(s, quotes, true) + Escape(y, quotes, true)
  {
    var x := Written(s, quotes, true);
    var t := x + y;
    if RefLen(s) != 0 {
      RefEndPrefix(s, y, 2);
      assert t[0] == s[0] && t[1] == s[1];
      assert RefLen(t) == |x| && t[..|x|] == x && t[|x|..] == y;
    } else if |x| == 1 {
      assert t[0] == s[0] && x == [s[0]] && t[1..] == y;
      assert s[0] != '&';
    } else {
      EscapedRef(s[0], quotes, y);
      assert t[..|x|] == x && t[|x|..] == y;
    }
  }

  lemma EscapedRef(c: char, quotes: bool, y: string)
    requires |EscapeChar(c, quotes)| > 1
    ensures RefLen(EscapeChar(c, quotes) + y) == |EscapeChar(c, quotes)|
  {
    var x := EscapeChar(c, quotes);
    var t := x + y;
    assert forall j :: 0 <= j < |x| ==> t[j] == x[j];
    RefEndAt(t, 2, |x|);
  }

  lemma {:induction false} RefEndAt(t: string, i: nat, n: nat)
    requires i < n <= |t| && t[n - 1] == ';' && forall j :: i <= j < n - 1 ==> InEntityRef(t[j]) && t[j] != ';'
    ensures RefEnd(t, i) == n
    decreases n - i
  {
    if i < n - 1 {
      RefEndAt(t, i + 1, n);
    }
  }

  /** No bare special character: each `&` begins a reference. */
  predicate NoBare(s: string, quotes: bool) {
    if s == "" then true
    else if RefLen(s) != 0 then NoBare(s[RefLen(s)..], quotes)
    else s[0] !in "<&>" && (quotes ==> s[0] !in "\"'") && NoBare(s[1..], quotes)
  }

  /** Escaping with references kept leaves alone just the text without bare special characters. */
  lemma {:induction false} LeftAloneIff(s: string, quotes: bool)
    ensures Escape(s, quotes, true) == s <==> NoBare(s, quotes)
    ensures |Escape(s, quotes, true)| >= |s|
    decreases |s|
  {
    hide RefLen;
    if s != "" {
      var n := Taken(s, true);
      var x, y := Written(s, quotes, true), Escape(s[n..], quotes, true);
      LeftAloneIff(s[n..], quotes);
      SameFront(s, n, x, y);
      if RefLen(s) == 0 { OneWritten(s[0], quotes); }
    }
  }

  lemma SameFront(s: string, n: nat, x: string, y: string)
    requires n <= |s| && |x| >= n && |y| >= |s| - n
    ensures x + y == s <==> x == s[..n] && y == s[n..]
  {
    assert s == s[..n] + s[n..];
    if x + y == s {
      assert |x| == n && |y| == |s| - n;
      assert (x + y)[..n] == x && (x + y)[n..] == y;
    }
  }

  lemma OneWritten(c: char, quotes: bool)
    ensures |EscapeChar(c, quotes)| >= 1 && (EscapeChar(c, quotes) == [c] <==> c !in "<&>" && (quotes ==> c !in "\"'"))
  {
    if c in "<&>" || (quotes && c in "\"'") { assert |EscapeChar(c, quotes)| > 1; }
  }

  /** So no bare special character is left. */
  lemma EscapeLeavesNoBare(s: string, quotes: bool)
    ensures NoBare(Escape(s, quotes, true), quotes)
  {
    EscapeIdempotent(s, quotes);
    LeftAloneIff(Escape(s, quotes, true), quotes);
  }

  // ---- Unescaping never lengthens ----

  lemma {:induction false} DigitsBound(s: string, acc: int)
    requires 0 <= acc
    ensures 0 <= Digits(s, 10, acc)
    ensures |s| == 1 ==> Digits(s, 10, acc) <= 10 * acc + 9
    ensures |s| == 2 ==> Digits(s, 10, acc) <= 100 * acc + 99
    ensures |s| == 3 ==> Digits(s, 10, acc) <= 1000 * acc + 999
    ensures |s| == 4 ==> Digits(s, 10, acc) <= 10000 * acc + 9999
    decreases |s|
  {
    if s != "" && Digit(s[0]) < 10 { DigitsBound(s[1..], acc * 10 + Digit(s[0])); }
  }

  /** A code point in the table has four digits. */
  lemma {:induction false} EntryBound(slot: string, name: string)
    ensures 0 <= FindEntry(slot, name) <= 9999
    decreases |slot|
  {
    hide Digits;
    if |slot| >= 5 {
      var n := Digit(slot[0]);
      DigitsBound(slot[1..5], 0);
      if n <= 9 && |slot| >= 5 + n { EntryBound(slot[5 + n..], name); }
    }
  }

  /** A reference is no shorter than what it stands for. */
  lemma ReferenceLength(table: seq<string>, name: string)
    requires Lookup(table, "") == 0 && Decode(table, name) != 0
    ensures |Utf8.Encode(Decode(table, name))| <= |name| + 2
  {
    HashAlone(table, name);
    if (name == "" || name[0] != '#') && table != [] {
      EntryBound(table[Hash(name) % |table|], name);
    }
  }

  lemma HashAlone(table: seq<string>, name: string)
    ensures |name| == 1 && name[0] == '#' ==> Decode(table, name) == 0
  {
    if |name| == 1 { assert name[1..] == ""; }
  }

  /** Unescaping a text does not make it longer; the table only has to have no entry without a name. */
  lemma {:induction false} UnescapeNotLonger(table: seq<string>, s: string, i: nat)
    requires i <= |s| && Lookup(table, "") == 0
    ensures |Unescape(table, s, i, |s|)| <= |s| - i
    decreases |s| - i
  {
    hide Lookup, Unescape, Unescaped, UnescapedLen;
    if i < |s| {
      UnescapeStep("", table, s, i, |s|);
      StepNotLonger(table, s, i);
      UnescapeNotLonger(table, s, i + UnescapedLen(table, s, i));
    } else {
      UnescapeNothing(table, s, i, |s|);
    }
  }

  /** What one reference or character becomes is no longer than it. */
  lemma StepNotLonger(table: seq<string>, s: string, i: nat)
    requires i < |s| && Lookup(table, "") == 0
    ensures |Unescaped(table, s, i)| <= UnescapedLen(table, s, i) <= |s| - i
  {
    hide Lookup, Decode, Utf8.Encode, CodeLen;
    if CharAt(s, i) == '&' && CodePoint(table, s, i) != 0 {
      ReferenceLength(table, CodeName(s, i + 1, CodeLen(s, i + 1, 0)));
    }
  }
}
