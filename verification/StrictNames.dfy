/** Names of start and end tags: where the comparison of `TokenPos::Match`, made for the words of a path, lets an end tag
    close an element of another name, and what that means for `IsWellFormed`. */
module StrictNames {
  import opened Chars
  import opened Token
  import opened Content
  import opened Tags
  import opened InStep
  import opened ParseState

  /** `e` is the part of `s` in front of a character that ends a word of a path. */
  predicate PathPrefix(e: string, s: string) {
    |e| < |s| && e == s[..|e|] && s[|e|] in "=[]"
  }

  /** An end tag closes a start tag exactly when the names are equal or the name in the start tag goes on behind that of
      the end tag with `=`, `[` or `]`. */
  lemma ClosesIff(e: string, s: string)
    requires IsNode(e, END_TAG) && IsNode(s, ELEMENT)
    ensures Closes(e, s) <==> NameOf(e) == NameOf(s) || PathPrefix(NameOf(e), NameOf(s))
  {
    hide IsNode, NameOf;
    var a, b := NameOf(e), NameOf(s);
    NameWord(s);
    if |a| < |b| {
      assert !EndName(b[|a|]);
      assert b[|a|] in " =/[]" <==> b[|a|] in "=[]" by { PathChars(b[|a|]); }
    }
  }

  lemma PathChars(c: char)
    requires !EndName(c)
    ensures c in " =/[]" <==> c in "=[]"
  {
  }

  lemma NameWord(s: string)
    requires IsNode(s, ELEMENT)
    ensures forall i :: 0 <= i < |NameOf(s)| ==> !EndName(NameOf(s)[i])
  {
    hide NodeAt, NameOf;
    NameOfTag(s);
    assert forall i :: 0 <= i < |NameOf(s)| ==> NameOf(s)[i] == s[1 + i];
  }

  /** `<a=b></a>` is one element for the parser. */
  lemma LaxElement()
    ensures IsStart("<a=b>", false) && Closes("</a>", "<a=b>") && NameOf("</a>") != NameOf("<a=b>")
  {
    hide IsStart, NameOf, NodeAt;
    assert "<" + "a=b" + ">" == "<a=b>" && "</" + "a" + ">" == "</a>";
    PlainTag("a=b");
    EndTag("a");
    assert "a=b"[1] == '=';
  }

  /** Every end tag has the name of its start tag. */
  predicate Strict(c: Content) {
    match c
    case End(_) => true
    case Mark(_, _, r) => Strict(r)
    case Elem(_, _, s, k, e, r) => (e == "" || NameOf(e) == NameOf(s)) && Strict(k) && Strict(r)
  }

  /** No element's name goes on behind the name in its end tag. */
  predicate NoPathNames(c: Content) {
    match c
    case End(_) => true
    case Mark(_, _, r) => NoPathNames(r)
    case Elem(_, _, s, k, e, r) => (e == "" || !PathPrefix(NameOf(e), NameOf(s))) && NoPathNames(k) && NoPathNames(r)
  }

  lemma {:induction false} StrictIff(c: Content)
    requires WF(c)
    ensures Strict(c) <==> NoPathNames(c)
    decreases c
  {
    hide IsNode, NameOf, IsMark, PathPrefix, Match;
    match c
    case End(_) =>
    case Mark(_, _, r) => StrictIff(r);
    case Elem(_, _, s, k, e, r) =>
      if e != "" {
        ClosesIff(e, s);
        PrefixOther(NameOf(e), NameOf(s));
      }
      StrictIff(k);
      StrictIff(r);
  }

  lemma PrefixOther(e: string, s: string)
    ensures PathPrefix(e, s) ==> e != s
  {
  }

  lemma StrictDocIff(c: Content)
    requires WFDoc(c)
    ensures Strict(c) <==> NoPathNames(c)
  {
    hide WF, NameOf, Render, FirstPI;
    if Quiet(Render(c)) { StrictIff(c); } else { StrictIff(c.rest); }
  }

  lemma {:induction false} StrictErase(c: Content)
    ensures Strict(Erase(c)) <==> Strict(c)
    ensures NoPathNames(Erase(c)) <==> NoPathNames(c)
    decreases c
  {
    hide NameOf, PathPrefix;
    match c
    case End(_) =>
    case Mark(_, _, r) => StrictErase(r);
    case Elem(_, _, _, k, _, r) =>
      StrictErase(k);
      StrictErase(r);
  }

  /** A document in the sense of XML: well-formed pieces, equal names, one root. */
  predicate StrictDoc(c: Content) {
    WFDoc(c) && Strict(c) && Roots(c) == 1
  }

  /** `IsWellFormed` accepts a text exactly when it is such a document, provided that no element in it has a name that
      goes on behind the name in its end tag with `=`, `[` or `]`; with such an element it accepts what is none. */
  lemma WellFormedIff(doc: string)
    ensures (exists c :: Render(c) == doc && StrictDoc(c)) <==>
            ParseDoc(doc).Done? && Roots(ParseDoc(doc).c) == 1 && NoPathNames(ParseDoc(doc).c)
  {
    hide WFDoc, ParseDoc, Strict, NoPathNames, Roots, Render, Erase;
    if ParseDoc(doc).Done? {
      ParseSound(doc);
      StrictDocIff(ParseDoc(doc).c);
    }
    forall c | Render(c) == doc && StrictDoc(c) ensures ParseDoc(doc).Done? && Roots(ParseDoc(doc).c) == 1 && NoPathNames(ParseDoc(doc).c) {
      ParsedIff(c);
      RootsErase(c);
      StrictErase(c);
      StrictDocIff(c);
    }
  }
}
