/** What references in a text stand for: section 4.1 of XML 1.0, with numerals written out by division, and names
    looked up in a table that is written out entry by entry. */
module References {
  import opened Chars
  import opened Numerals
  import opened Escaping
  import Utf8

  // ---- The name of a reference ----

  function Lowered(s: string): (t: string)
    ensures |t| == |s| && forall k :: 0 <= k < |s| ==> t[k] == Lower(s[k])
  {
    if s == "" then "" else [Lower(s[0])] + Lowered(s[1..])
  }

  /** At most nine ASCII characters without a semicolon. */
  predicate Name(s: string) {
    |s| <= 9 && forall k :: 0 <= k < |s| ==> s[k] as int < 128 && s[k] != ';'
  }

  /** `&name;` */
  function Reference(name: string): string {
    "&" + name + ";"
  }

  lemma {:induction false} NameRead(s: string, i: nat, n: nat, name: string)
    requires At(s, i, name + ";") && Name(name) && n <= |name|
    ensures CodeLen(s, i, n) == |name| && CharAt(s, i + |name|) == ';'
    decreases |name| - n
  {
    var t := name + ";";
    assert s[i + n] == s[i..i + |t|][n] == t[n] && s[i + |name|] == s[i..i + |t|][|name|] == ';';
    if n < |name| { NameRead(s, i, n + 1, name); }
  }

  lemma {:induction false} NameLowered(s: string, i: nat, n: nat, name: string)
    requires At(s, i, name + ";") && n <= |name|
    ensures CodeName(s, i, n) == Lowered(name)[..n]
  {
    hide Lowered, At, Lower;
    var l := Lowered(name);
    if n > 0 {
      CharOfName(s, i, n - 1, name);
      NameLowered(s, i, n - 1, name);
      assert l[..n] == l[..n - 1] + [l[n - 1]];
    }
  }

  lemma CharOfName(s: string, i: nat, k: nat, name: string)
    requires At(s, i, name + ";") && k < |name|
    ensures CharAt(s, i + k) == name[k]
  {
    var t := name + ";";
    assert s[i..i + |t|][k] == t[k];
  }

  /** A reference is decoded by its name in lower case. */
  lemma ReferenceRead(table: seq<string>, s: string, i: nat, name: string)
    requires At(s, i, Reference(name)) && Name(name)
    ensures CharAt(s, i) == '&' && CodeLen(s, i + 1, 0) == |name| && CodePoint(table, s, i) == Decode(table, Lowered(name))
  {
    hide CodeLen, CodeName, Decode, Lowered, Name, At;
    assert "&" + name + ";" == "&" + (name + ";");
    AtSplit(s, i, "&", name + ";");
    FirstCharAt(s, i, "&");
    NameRead(s, i + 1, 0, name);
    NameLowered(s, i + 1, |name|, name);
    assert Lowered(name)[..|name|] == Lowered(name);
  }

  lemma FirstCharAt(s: string, i: nat, x: string)
    requires At(s, i, x) && x != ""
    ensures i < |s| && s[i] == x[0]
  {
    assert s[i..i + |x|][0] == s[i];
  }

  // ---- Numbers ----

  lemma {:induction false} DigitsSnoc(s: string, c: char, b: int, acc: int)
    requires forall k :: 0 <= k < |s| ==> Digit(s[k]) < b
    ensures Digits(s + [c], b, acc) == if Digit(c) < b then Digits(s, b, acc) * b + Digit(c) else Digits(s, b, acc)
  {
    hide Digit;
    if s == "" {
      assert (s + [c])[1..] == "";
    } else {
      assert (s + [c])[1..] == s[1..] + [c] && (s + [c])[0] == s[0];
      DigitsSnoc(s[1..], c, b, acc * b + Digit(s[0]));
    }
  }

  lemma DigitIs(d: nat)
    requires d < 16
    ensures Digit(DIGITS[d]) == d && DIGITS[d] as int < 128 && DIGITS[d] != ';' && Lower(DIGITS[d]) == DIGITS[d]
    ensures DIGITS[d] !in " -+x#" && !(9 <= DIGITS[d] as int <= 13)
  {
  }

  predicate AllDigits(s: string, b: int) {
    forall k :: 0 <= k < |s| ==> Digit(s[k]) < b
  }

  lemma DigitsJoin(s: string, c: char, b: int, n: int, q: int, d: int)
    requires AllDigits(s, b) && Digits(s, b, 0) == q && Digit(c) == d < b && q * b + d == n
    ensures Digits(s + [c], b, 0) == n && AllDigits(s + [c], b)
  {
    hide Digit, Digits;
    DigitsSnoc(s, c, b, 0);
  }

  /** The library function reads the numeral back. */
  lemma {:induction false} NumeralRead(n: nat, b: nat)
    requires 2 <= b <= 16
    ensures Digits(Numeral(n, b), b, 0) == n && AllDigits(Numeral(n, b), b)
    decreases n
  {
    hide Digit, Digits, Numeral, AllDigits, Last;
    var q, d := n / b, Last(n, b);
    DigitIs(d);
    NumeralIs(n, b);
    if n < b {
      OneDigit(DIGITS[n], b);
    } else {
      NumeralRead(q, b);
      DigitsJoin(Numeral(q, b), DIGITS[d], b, n, q, d);
    }
  }

  lemma NumeralIs(n: nat, b: nat)
    requires 2 <= b <= 16
    ensures Numeral(n, b) == if n < b then [DIGITS[n]] else Numeral(n / b, b) + [DIGITS[Last(n, b)]]
  {
  }

  lemma OneDigit(c: char, b: int)
    requires Digit(c) < b
    ensures Digits([c], b, 0) == Digit(c) && AllDigits([c], b)
  {
    hide Digit;
    assert [c][1..] == "";
  }

  lemma NumeralChar(n: nat, b: nat, k: nat)
    requires 2 <= b <= 16 && k < |Numeral(n, b)|
    ensures exists d :: 0 <= d < b && Numeral(n, b)[k] == DIGITS[d]
  {
    var c := Numeral(n, b)[k];
    assert c in DIGITS[..b];
    var d :| 0 <= d < b && DIGITS[..b][d] == c;
  }

  /** `t` is `h`, with letters in either case. */
  predicate EitherCase(t: string, h: string) {
    |t| == |h| && forall k :: 0 <= k < |h| ==> t[k] == h[k] || ('a' <= h[k] <= 'f' && t[k] as int == h[k] as int - 'a' as int + 'A' as int)
  }

  lemma CaseLowered(t: string, n: nat, b: nat)
    requires 2 <= b <= 16 && EitherCase(t, Numeral(n, b)) && |t| <= 7
    ensures Lowered(t) == Numeral(n, b) && Name(t)
  {
    hide Numeral, Lower;
    var h := Numeral(n, b);
    forall k | 0 <= k < |t| ensures Lowered(t)[k] == h[k] && t[k] as int < 128 && t[k] != ';' {
      NumeralChar(n, b, k);
      var d :| 0 <= d < b && h[k] == DIGITS[d];
      DigitIs(d);
      CharLowered(t[k], h[k]);
    }
  }

  lemma CharLowered(c: char, h: char)
    requires c == h || ('a' <= h <= 'f' && c as int == h as int - 'a' as int + 'A' as int)
    requires Lower(h) == h && h as int < 128 && h != ';'
    ensures Lower(c) == h && c as int < 128 && c != ';'
  {
  }

  /** What the library function makes of a numeral on its own. */
  lemma NumeralToL(n: nat, b: nat)
    requires b == 10 || b == 16
    ensures StrToL(Numeral(n, b), b) == n
  {
    hide Numeral, Digits;
    var s := Numeral(n, b);
    NumeralRead(n, b);
    NumeralChar(n, b, 0);
    var d :| 0 <= d < b && s[0] == DIGITS[d];
    DigitIs(d);
    if |s| > 1 {
      NumeralChar(n, b, 1);
      var e :| 0 <= e < b && s[1] == DIGITS[e];
      DigitIs(e);
    }
  }

  lemma CodePointLen(u: nat)
    requires u <= 0x10_ffff
    ensures |Decimal(u)| <= 7 && |Hex(u)| <= 6
  {
    PowersOf();
    NumeralLen(u, 10, 7, Power(10, 7));
    NumeralLen(u, 16, 6, Power(16, 6));
  }

  lemma PowersOf()
    ensures Power(10, 7) == 10_000_000 && Power(16, 6) == 0x100_0000
  {
    assert Power(10, 4) == 10_000 && Power(16, 3) == 0x1000;
  }

  /** A decimal reference stands for the character with that number, wherever it stands. */
  lemma DecimalReference(table: seq<string>, s: string, i: nat, end: nat, u: nat)
    requires 1 <= u <= 0x10_ffff && i < end && At(s, i, Reference("#" + Decimal(u)))
    ensures Unescape(table, s, i, end) == Utf8.Encode(u) + Unescape(table, s, i + |Reference("#" + Decimal(u))|, end)
  {
    hide Numeral, CodePoint, CodeLen, StrToL, Lower, Utf8.Encode;
    var t := Decimal(u);
    CodePointLen(u);
    CaseLowered(t, u, 10);
    NumberName("#", t);
    ReferenceRead(table, s, i, "#" + t);
    NumeralToL(u, 10);
    assert ("#" + t)[1..] == t;
    assert t[0] != 'x' by {
      NumeralChar(u, 10, 0);
      var d :| 0 <= d < 10 && t[0] == DIGITS[d];
      DigitIs(d);
    }
  }

  lemma NumberName(p: string, t: string)
    requires (p == "#" || p == "#x" || p == "#X") && Name(t) && |t| <= 7
    ensures Name(p + t) && Lowered(p + t) == (if p == "#" then p else "#x") + Lowered(t)
  {
  }

  /** The same for a hexadecimal one, with letters in either case. */
  lemma HexReference(table: seq<string>, s: string, i: nat, end: nat, u: nat, x: string, t: string)
    requires 1 <= u <= 0x10_ffff && i < end && (x == "#x" || x == "#X") && EitherCase(t, Hex(u)) && At(s, i, Reference(x + t))
    ensures Unescape(table, s, i, end) == Utf8.Encode(u) + Unescape(table, s, i + |Reference(x + t)|, end)
  {
    hide Numeral, CodePoint, CodeLen, StrToL, Lower, Utf8.Encode, EitherCase, Name, At, Lowered;
    assert |t| == |Hex(u)| by { CaseLen(t, Hex(u)); }
    CodePointLen(u);
    CaseLowered(t, u, 16);
    NumberName(x, t);
    ReferenceRead(table, s, i, x + t);
    NumeralToL(u, 16);
    assert ("#x" + Hex(u))[2..] == Hex(u);
  }

  lemma CaseLen(t: string, h: string)
    requires EitherCase(t, h)
    ensures |t| == |h|
  {
  }

  // ---- Names ----

  /** An entry of the table: a name and the number of the character that it stands for. */
  datatype Entry = Entry(name: string, code: nat)

  predicate EntryOk(e: Entry) {
    e.name != "" && |e.name| <= 9 && e.code <= 9999
  }

  /** Four digits. */
  function Four(n: nat): (s: string)
    requires n <= 9999
    ensures |s| == 4
  {
    [DIGITS[n / 10 / 10 / 10], DIGITS[n / 10 / 10 % 10], DIGITS[n / 10 % 10], DIGITS[n % 10]]
  }

  /** One slot of the table, written out. */
  function SlotText(es: seq<Entry>): string
    requires forall e :: e in es ==> EntryOk(e)
  {
    if es == [] then "" else
      assert EntryOk(es[0]);
      [DIGITS[|es[0].name|]] + Four(es[0].code) + es[0].name + SlotText(es[1..])
  }

  /** The number in the first entry with that name, or 0. */
  function CodeIn(es: seq<Entry>, name: string): nat {
    if es == [] then 0 else if es[0].name == name then es[0].code else CodeIn(es[1..], name)
  }

  lemma FourRead(n: nat)
    requires n <= 9999
    ensures forall i :: 0 <= i < 4 ==> 0 <= Digit(Four(n)[i]) <= 9
    ensures 1000 * Digit(Four(n)[0]) + 100 * Digit(Four(n)[1]) + 10 * Digit(Four(n)[2]) + Digit(Four(n)[3]) == n
  {
    hide Digit;
    var a, b := n / 10, n / 10 / 10;
    DigitIs(b / 10);
    DigitIs(b % 10);
    DigitIs(a % 10);
    DigitIs(n % 10);
    var s := Four(n);
    assert s == [DIGITS[b / 10], DIGITS[b % 10], DIGITS[a % 10], DIGITS[n % 10]];
    assert n == 10 * a + n % 10 && a == 10 * b + a % 10 && b == 10 * (b / 10) + b % 10;
  }

  /** The search in a slot finds the entry with the name. */
  lemma {:induction false} SlotRead(es: seq<Entry>, name: string)
    requires (forall e :: e in es ==> EntryOk(e)) && |name| <= 9
    ensures FindEntry(SlotText(es), name) == CodeIn(es, name)
  {
    hide FindEntry, Digit, Four, DIGITS;
    if es == [] {
      NothingFound(name);
    } else {
      var e, rest := es[0], SlotText(es[1..]);
      var slot := SlotText(es);
      assert EntryOk(e);
      DigitIs(|e.name|);
      FourRead(e.code);
      assert slot[1..] == Four(e.code) + e.name + rest;
      if e.name == name {
        EntryFound(slot, name, Four(e.code), rest);
      } else {
        assert slot[5..] == e.name + rest && slot[5..5 + |e.name|] == e.name && slot[5 + |e.name|..] == rest;
        EntrySkipped(slot, name, |e.name|, rest);
        SlotRead(es[1..], name);
      }
    }
  }

  lemma NothingFound(name: string)
    ensures FindEntry("", name) == 0
  {
  }

  /** A name stands for the character that the table gives for it in lower case. */
  lemma NamedReference(table: seq<string>, s: string, i: nat, end: nat, name: string, es: seq<Entry>)
    requires i < end && At(s, i, Reference(name)) && Name(name) && name != "" && name[0] != '#' && table != []
    requires (forall e :: e in es ==> EntryOk(e)) && table[Hash(Lowered(name)) % |table|] == SlotText(es)
    ensures var u := CodeIn(es, Lowered(name));
            u > 0 ==> Unescape(table, s, i, end) == Utf8.Encode(u) + Unescape(table, s, i + |Reference(name)|, end)
  {
    hide CodePoint, CodeLen, Utf8.Encode, FindEntry, SlotText, CodeIn, Hash, At;
    ReferenceRead(table, s, i, name);
    assert Lowered(name)[0] != '#';
    SlotRead(es, Lowered(name));
  }

  // ---- What is no reference ----

  /** The name stands nowhere in the table. */
  predicate Unknown(table: seq<string>, name: string) {
    forall j, k :: 0 <= j < |table| && 0 <= k <= |table[j]| ==> !At(table[j], k, name)
  }

  /** What is found in a slot stands in it. */
  lemma {:induction false} FoundStands(slot: string, name: string)
    ensures FindEntry(slot, name) != 0 ==> exists k :: 0 <= k <= |slot| && At(slot, k, name)
    decreases |slot|
  {
    hide Digit, Digits;
    if FindEntry(slot, name) != 0 {
      var n := Digit(slot[0]);
      DigitNotNegative(slot[0]);
      if n == |name| && slot[5..5 + n] == name {
        assert At(slot, 5, name);
      } else {
        var rest := slot[5 + n..];
        FoundStands(rest, name);
        var k :| 0 <= k <= |rest| && At(rest, k, name);
        assert rest[k..k + |name|] == slot[5 + n + k..5 + n + k + |name|];
        assert At(slot, 5 + n + k, name);
      }
    }
  }

  lemma DigitNotNegative(c: char)
    ensures 0 <= Digit(c)
  {
  }

  /** A reference to a name that the table does not know is left as it is. */
  lemma UnknownLeft(table: seq<string>, s: string, i: nat, end: nat, name: string)
    requires At(s, i, Reference(name)) && i + |Reference(name)| <= end && Name(name) && name != "" && name[0] != '#' && '&' !in name
    requires Unknown(table, Lowered(name))
    ensures Unescape(table, s, i, end) == Reference(name) + Unescape(table, s, i + |Reference(name)|, end)
  {
    hide CodePoint, CodeLen, Lookup, Lowered, At, Unescape, CharAt, Name, Unknown;
    ReferenceRead(table, s, i, name);
    assert Lowered(name)[0] == Lower(name[0]);
    NotLooked(table, Lowered(name));
    NoCode(table, s, i, end);
    assert "&" + name + ";" == "&" + (name + ";");
    AtSplit(s, i, "&", name + ";");
    PlainText(table, s, i + 1, end, name + ";");
    var rest := Unescape(table, s, i + |Reference(name)|, end);
    assert "&" + ((name + ";") + rest) == Reference(name) + rest;
  }

  lemma NoCode(table: seq<string>, s: string, i: nat, end: nat)
    requires i < end && CharAt(s, i) == '&' && CodePoint(table, s, i) == 0
    ensures Unescape(table, s, i, end) == "&" + Unescape(table, s, i + 1, end)
  {
    hide CodePoint, CodeLen;
  }

  lemma NotLooked(table: seq<string>, name: string)
    requires Unknown(table, name)
    ensures Lookup(table, name) == 0
  {
    hide FindEntry, Hash, At;
    if table != [] {
      FoundStands(table[Hash(name) % |table|], name);
    }
  }

  /** Text without ampersands is left as it is. */
  lemma {:induction false} PlainText(table: seq<string>, s: string, i: nat, end: nat, x: string)
    requires At(s, i, x) && i + |x| <= end && '&' !in x
    ensures Unescape(table, s, i, end) == x + Unescape(table, s, i + |x|, end)
    decreases |x|
  {
    hide Unescape, CharAt;
    if x == "" {
      assert x + Unescape(table, s, i, end) == Unescape(table, s, i, end);
    } else {
      assert x == [x[0]] + x[1..];
      AtSplit(s, i, [x[0]], x[1..]);
      assert s[i..i + 1][0] == x[0];
      PlainChar(table, s, i, end);
      PlainText(table, s, i + 1, end, x[1..]);
      assert [x[0]] + (x[1..] + Unescape(table, s, i + |x|, end)) == x + Unescape(table, s, i + |x|, end);
    }
  }

  lemma PlainChar(table: seq<string>, s: string, i: nat, end: nat)
    requires i < end && i < |s| && s[i] != '&'
    ensures Unescape(table, s, i, end) == [s[i]] + Unescape(table, s, i + 1, end)
  {
    hide CodePoint, CodeLen;
  }

  /** An ampersand without a semicolon among the ten characters behind it is left as it is. */
  lemma AmpersandLeft(table: seq<string>, s: string, i: nat, end: nat)
    requires i < end && CharAt(s, i) == '&' && forall k :: i < k <= i + 10 ==> CharAt(s, k) != ';'
    ensures Unescape(table, s, i, end) == "&" + Unescape(table, s, i + 1, end)
  {
    hide CodeLen, CodeName, Decode;
  }

  // ---- Which references escaping leaves alone ----

  predicate Letter(c: char) {
    'A' <= c <= 'Z' || 'a' <= c <= 'z'
  }

  predicate NameFirst(c: char) {
    c in "#_:" || Letter(c) || c as int >= 0x80
  }

  predicate NameMore(c: char) {
    c in "_:-." || '0' <= c <= '9' || Letter(c) || c as int >= 0x80
  }

  lemma NameCharIff(c: char)
    ensures NameFirst(c) <==> StartEntityRef(c)
    ensures NameMore(c) <==> InEntityRef(c)
  {
  }

  predicate ReferenceFront(s: string, n: nat) {
    3 <= n <= |s| && s[0] == '&' && NameFirst(s[1]) && s[n - 1] == ';' && forall k :: 2 <= k < n - 1 ==> NameMore(s[k])
  }

  /** Whether a text begins with a reference, and how long it is. */
  lemma ReferenceIff(s: string, n: nat)
    requires n > 0
    ensures RefLen(s) == n <==> ReferenceFront(s, n)
  {
    hide NameFirst, NameMore, StartEntityRef, InEntityRef;
    forall c | c in s ensures (NameFirst(c) <==> StartEntityRef(c)) && (NameMore(c) <==> InEntityRef(c)) && (NameMore(c) ==> c != ';') {
      NameCharIff(c);
      NoSemicolon(c);
    }
    if RefLen(s) == n {
      RefEndInside(s, 2);
    } else if ReferenceFront(s, n) {
      assert forall j :: 2 <= j < n - 1 ==> s[j] in s;
      RefEndAt(s, 2, n);
    }
  }

  lemma NoSemicolon(c: char)
    ensures NameMore(c) ==> c != ';'
  {
  }

  lemma {:induction false} RefEndInside(s: string, i: nat)
    requires RefEnd(s, i) != 0
    ensures forall j :: i <= j < RefEnd(s, i) - 1 ==> InEntityRef(s[j])
    decreases |s| - i
  {
    if s[i] != ';' { RefEndInside(s, i + 1); }
  }

  /** What is written for the front of a text: a reference as it is, when they are to be kept, and otherwise the name of
      a special character. */
  lemma EscapedFront(s: string, quotes: bool, refs: bool, n: nat)
    requires s != "" && (ReferenceFront(s, n) || (n == 0 && forall k :: !ReferenceFront(s, k)))
    ensures refs && n > 0 ==> Escape(s, quotes, refs) == s[..n] + Escape(s[n..], quotes, refs)
    ensures s[0] == '&' && (!refs || n == 0) ==> Escape(s, quotes, refs) == "&amp;" + Escape(s[1..], quotes, refs)
    ensures s[0] == '<' ==> Escape(s, quotes, refs) == "&lt;" + Escape(s[1..], quotes, refs)
    ensures s[0] == '>' ==> Escape(s, quotes, refs) == "&gt;" + Escape(s[1..], quotes, refs)
    ensures s[0] == '\"' ==> Escape(s, quotes, refs) == (if quotes then "&quot;" else "\"") + Escape(s[1..], quotes, refs)
    ensures s[0] == '\'' ==> Escape(s, quotes, refs) == (if quotes then "&apos;" else "'") + Escape(s[1..], quotes, refs)
    ensures s[0] !in "&<>\"'" ==> Escape(s, quotes, refs) == [s[0]] + Escape(s[1..], quotes, refs)
  {
    hide NameFirst, NameMore;
    if RefLen(s) != 0 { ReferenceIff(s, RefLen(s)); }
    if n > 0 { ReferenceIff(s, n); }
  }
}
