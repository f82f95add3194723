/** `TokenPos`: the cursor that walks over the text of a document. */
module Cursor {
  import opened Chars
  import opened Token
  import opened Content

  /** The first character from `n` on that is no white space, or the end of the text. */
  function SkipWhite(s: string, n: nat): (m: nat)
    requires n <= |s|
    ensures n <= m <= |s| && AllWhite(s[n..m]) && (m < |s| ==> !White(s[m]))
    decreases |s| - n
  {
    if n == |s| || !White(s[n]) then n else
      var m := SkipWhite(s, n + 1);
      assert s[n..m] == [s[n]] + s[n + 1..m];
      m
  }

  /** Behind white space that a tag or the end of the text follows, or `n` itself. */
  function TagAfter(s: string, n: nat): (m: nat)
    requires n <= |s|
    ensures n <= m <= |s|
  {
    var m := SkipWhite(s, n);
    if m < |s| && s[m] != '<' then n else m
  }

  /** The end of a word of a name. */
  function NameEnd(s: string, n: nat): (m: nat)
    requires n <= |s|
    ensures n <= m <= |s|
    decreases |s| - n
  {
    if n == |s| || EndAnyName(s[n]) then n else NameEnd(s, n + 1)
  }

  /** The name `FindName` finds from `n` on: a word, or one special character. */
  function NameFrom(s: string, n: nat): string
    requires n <= |s|
  {
    var a := SkipWhite(s, n);
    if a == |s| then "" else
    var b := NameEnd(s, a);
    if b == a then s[a..a + 1] else s[a..b]
  }

  // ---- Attributes ----

  /** A word of a tag: its text lies in `[l..r)`, the scan goes on at `next`. */
  datatype Word = Word(l: nat, r: nat, next: nat, quoted: bool)

  /** The next `q` at or after `n`, or the end of the text. */
  function QuoteEnd(s: string, n: nat, q: char): (m: nat)
    requires n <= |s|
    ensures n <= m <= |s|
    decreases |s| - n
  {
    if n == |s| || s[n] == q then n else QuoteEnd(s, n + 1, q)
  }

  /** The end of an attribute name, or of an unquoted value. */
  function WordEnd(s: string, n: nat, value: bool): (m: nat)
    requires n <= |s|
    ensures n <= m <= |s|
    decreases |s| - n
  {
    if n == |s| || (if value then EndUnquoted(s[n]) else EndAttribName(s[n])) then n else WordEnd(s, n + 1, value)
  }

  predicate IsQuote(c: char) {
    c == '\"' || c == '\''
  }

  /** The word of a tag that begins at `m`: a quoted text, a name or value, or one special character. */
  function WordAt(s: string, m: nat, value: bool): (w: Word)
    requires m < |s|
    ensures m <= w.l <= w.r <= w.next <= |s| && m < w.next && (!w.quoted ==> w.l == m && w.l < w.r == w.next)
  {
    if IsQuote(s[m]) then
      var e := QuoteEnd(s, m + 1, s[m]);
      Word(m + 1, e, if e < |s| then e + 1 else e, true)
    else
      var e := WordEnd(s, m, value);
      if e == m then Word(m, m + 1, m + 1, false) else Word(m, e, e, false)
  }

  /** An attribute: where its value lies, or where a new attribute can be put in. */
  datatype Found = Attrib(l: nat, r: nat, quoted: bool) | NoAttrib(next: nat)

  /** What has been seen so far: nothing, the tag name, or the name looked for at `[l..r)`. */
  datatype Seen = Nothing | TagName | Wanted(l: nat, r: nat)

  /** At the end of the search: an attribute without a value has its name as value. */
  function AtEnd(seen: Seen, equal: bool, l: nat, r: nat, quoted: bool, next: nat): Found {
    if !seen.Wanted? then NoAttrib(next) else if equal then Attrib(l, r, quoted) else Attrib(seen.l, seen.r, quoted)
  }

  /** The attribute `name` in the words from `n` on; `equal` behind an equal sign, `quoted` when the
      last word was. */
  function FindFrom(s: string, n: nat, name: string, seen: Seen, equal: bool, quoted: bool): Found
    requires n <= |s|
    decreases |s| - n
  {
    var m := SkipWhite(s, n);
    if m == |s| then AtEnd(seen, equal, m, m, quoted, m) else
    var w := WordAt(s, m, equal);
    if equal || w.quoted then
      if seen.Wanted? then AtEnd(seen, equal, w.l, w.r, w.quoted, w.next) else FindFrom(s, w.next, name, seen, false, w.quoted)
    else if s[m] == '=' then FindFrom(s, w.next, name, seen, true, false)
    else if s[m] == '>' || s[m] == '/' || s[m] == '?' then AtEnd(seen, false, w.l, w.r, false, n)
    else if seen.Wanted? then AtEnd(seen, false, w.l, w.r, false, w.next)
    else if seen.TagName? && Match(s[w.l..w.r], name) then FindFrom(s, w.next, name, Wanted(w.l, w.r), false, false)
    else FindFrom(s, w.next, name, TagName, false, false)
  }

  lemma {:induction false} FoundOrder(s: string, n: nat, name: string, seen: Seen, equal: bool, quoted: bool)
    requires n <= |s| && (seen.Wanted? ==> seen.l <= seen.r <= |s|)
    ensures match FindFrom(s, n, name, seen, equal, quoted)
            case Attrib(l, r, _) => l <= r <= |s|
            case NoAttrib(m) => m <= |s|
    decreases |s| - n
  {
    var m := SkipWhite(s, n);
    if m < |s| {
      var w := WordAt(s, m, equal);
      if equal || w.quoted {
        if !seen.Wanted? { FoundOrder(s, w.next, name, seen, false, w.quoted); }
      } else if s[m] == '=' {
        FoundOrder(s, w.next, name, seen, true, false);
      } else if s[m] != '>' && s[m] != '/' && s[m] != '?' && !seen.Wanted? {
        FoundOrder(s, w.next, name, if seen.TagName? && Match(s[w.l..w.r], name) then Wanted(w.l, w.r) else TagName, false, false);
      }
    }
  }

  /** The nodes that repeated calls of `ParseNode` cut off the document from `p` on. */
  function Nodes(doc: string, p: nat): seq<string>
    requires p <= |doc|
    decreases |doc| - p
  {
    if p == |doc| then [] else
      var q := p + NodeIn(doc, p).len;
      [doc[p..q]] + Nodes(doc, q)
  }

  /** Every document is cut into contiguous nodes, none of them empty, that make up the document. */
  lemma {:induction false} NodesAreDocument(doc: string, p: nat)
    requires p <= |doc|
    ensures Concat(Nodes(doc, p)) == doc[p..] && forall x :: x in Nodes(doc, p) ==> x != ""
    decreases |doc| - p
  {
    hide NodeIn;
    if p < |doc| {
      var q := p + NodeIn(doc, p).len;
      NodesAreDocument(doc, q);
      assert Nodes(doc, p)[1..] == Nodes(doc, q);
      assert doc[p..q] + doc[q..] == doc[p..];
    }
  }

  datatype NodePos = NodePos(nNodeType: int, nStart: nat, nLength: nat, empty: bool)

  class TokenPos {
    const text: string
    var nL: int
    var nR: int
    var nNext: nat
    var bQuoted: bool

    constructor (text: string)
      ensures this.text == text && nNext == 0 && !bQuoted
    {
      this.text := text;
      nL, nR, nNext, bQuoted := 0, -1, 0, false;
    }

    function TokenText(): string
      reads this
    {
      if 0 <= nL <= nR + 1 <= |text| then text[nL..nR + 1] else ""
    }

    /** `FindAny`: to the next character that is no white space. */
    method FindAny() returns (found: bool)
      requires nNext <= |text|
      modifies this
      ensures nNext == SkipWhite(text, old(nNext)) && nL == nNext && nR == nNext - 1 && found == (nNext < |text|) && bQuoted == old(bQuoted)
    {
      while nNext < |text| && White(text[nNext])
        invariant nNext <= |text| && SkipWhite(text, nNext) == SkipWhite(text, old(nNext)) && bQuoted == old(bQuoted)
      {
        nNext := nNext + 1;
      }
      nL := nNext;
      nR := nNext - 1;
      found := nNext < |text|;
    }

    /** `FindName`. */
    method FindName() returns (found: bool)
      requires nNext <= |text|
      modifies this
      ensures found == (SkipWhite(text, old(nNext)) < |text|) && TokenText() == NameFrom(text, old(nNext)) && nNext <= |text|
    {
      found := FindAny();
      if found {
        ghost var a := nNext;
        while nNext < |text| && !EndAnyName(text[nNext])
          invariant a <= nNext <= |text| && NameEnd(text, nNext) == NameEnd(text, a) && nL == a
        {
          nNext := nNext + 1;
        }
        if nNext == nL {
          nNext := nNext + 1;
        }
        nR := nNext - 1;
      }
    }

    /** `WhitespaceToTag`. */
    method WhitespaceToTag(n: nat) returns (r: nat)
      requires n <= |text|
      modifies this
      ensures r == nNext == TagAfter(text, n)
    {
      nNext := n;
      var found := FindAny();
      if found && text[nNext] != '<' {
        nNext := n;
        nR := n - 1;
      }
      r := nNext;
    }

    /** `Match`: the token is the name, or the part of it before a path separator. */
    predicate Matches(name: string)
      reads this
    {
      Match(TokenText(), name)
    }

    /** `ParseNode`: cuts the next node off the text. */
    method ParseNode() returns (nNodeType: int, node: NodePos)
      requires nNext <= |text|
      modifies this
      ensures var n := NodeIn(text, old(nNext));
              && nNodeType == n.typ && node == NodePos(n.typ, old(nNext), n.len, n.empty) && nNext == old(nNext) + n.len
              && (n.typ == ELEMENT || n.typ == END_TAG ==> TokenText() == NameIn(text, old(nNext)))
    {
      hide Step;
      var nStart := nNext;
      ghost var s := text[nStart..];
      if nStart == |text| {
        return END_OF_DOCUMENT, NodePos(END_OF_DOCUMENT, nStart, 0, false);
      }
      NodeProgress(s, nStart);
      var st := START;
      var i := nStart;
      var eof := true;
      while i < |text|
        invariant nStart <= i <= |text|
        invariant Run(s, nStart, 0, START) == Run(s, nStart, i - nStart, st)
      {
        assert s[i - nStart] == text[i];
        match Step(text[nStart..], nStart, i - nStart, st)
        case More(st') =>
          st := st';
          i := i + 1;
        case Stop(st', n) =>
          st := st';
          i := nStart + n;
          eof := false;
          break;
      }
      nNext := i;
      nNodeType := if eof && st.typ != TEXT && st.typ != WHITESPACE then BAD else st.typ;
      if st.name > 0 {
        nL := nStart + st.name;
        nR := nL + st.nameLen - 1;
      }
      node := NodePos(nNodeType, nStart, i - nStart, st.empty);
    }

    /** The part of `FindAttrib` that takes the next word of a tag. */
    method NextWord(bAfterEqual: bool)
      requires nNext < |text|
      modifies this
      ensures var w := WordAt(text, old(nNext), bAfterEqual);
              nL == w.l && nR == w.r - 1 && nNext == w.next && bQuoted == w.quoted
    {
      var cFirstChar := text[nNext];
      if IsQuote(cFirstChar) {
        bQuoted := true;
        nNext := nNext + 1;
        nL := nNext;
        while nNext < |text| && text[nNext] != cFirstChar
          invariant nL <= nNext <= |text| && bQuoted && nL == old(nNext) + 1
          invariant QuoteEnd(text, nNext, cFirstChar) == QuoteEnd(text, old(nNext) + 1, cFirstChar)
        {
          nNext := nNext + 1;
        }
        nR := nNext - 1;
        if nNext < |text| {
          nNext := nNext + 1;
        }
      } else {
        bQuoted := false;
        nL := nNext;
        while nNext < |text| && !(if bAfterEqual then EndUnquoted(text[nNext]) else EndAttribName(text[nNext]))
          invariant nL <= nNext <= |text| && !bQuoted && nL == old(nNext)
          invariant WordEnd(text, nNext, bAfterEqual) == WordEnd(text, old(nNext), bAfterEqual)
        {
          nNext := nNext + 1;
        }
        if nNext == nL {
          nNext := nNext + 1;
        }
        nR := nNext - 1;
      }
    }

    /** `FindAttrib` by name.  When the attribute is found the token is its value, otherwise `nNext` is
        where a new attribute goes. */
    method FindAttrib(szAttrib: string) returns (found: bool)
      requires nNext <= |text| && !bQuoted
      modifies this
      ensures match FindFrom(text, old(nNext), szAttrib, Nothing, false, false)
              case Attrib(l, r, q) => found && nL == l && nR + 1 == r && bQuoted == q
              case NoAttrib(n) => !found && nNext == n
    {
      ghost var goal := FindFrom(text, nNext, szAttrib, Nothing, false, false);
      var nAttrib := -1;
      var nFoundAttribNameL, nFoundAttribNameR := 0, -1;
      var bAfterEqual := false;
      ghost var seen := Nothing;
      while true
        invariant nNext <= |text| && nAttrib >= -1
        invariant goal == FindFrom(text, nNext, szAttrib, seen, bAfterEqual, bQuoted)
        invariant (seen.Nothing? <==> nAttrib == -1) && (seen.Wanted? <==> nFoundAttribNameR >= 0)
        invariant seen.Wanted? ==> seen.l == nFoundAttribNameL && seen.r == nFoundAttribNameR + 1
        decreases |text| - nNext
      {
        var nTempPreSpaceStart := nNext;
        var any := FindAny();
        if !any {
          break;
        }
        NextWord(bAfterEqual);
        if !bAfterEqual && !bQuoted {
          var cChar := text[nL];
          if cChar == '=' {
            bAfterEqual := true;
            continue;
          }
          if cChar == '>' || cChar == '/' || cChar == '?' {
            nNext := nTempPreSpaceStart;
            break;
          }
          if nFoundAttribNameR >= 0 {
            break;
          }
          seen := TagName;
          if nAttrib != -1 && Match(text[nL..nR + 1], szAttrib) {
            nFoundAttribNameL, nFoundAttribNameR := nL, nR;
            seen := Wanted(nL, nR + 1);
          }
          nAttrib := nAttrib + 1;
        } else if nFoundAttribNameR >= 0 {
          break;
        }
        bAfterEqual := false;
      }
      found := nFoundAttribNameR >= 0;
      if found && !bAfterEqual {
        nL := nFoundAttribNameL;
        nR := nFoundAttribNameR;
        nNext := nR + 1;
      }
    }
  }
}
