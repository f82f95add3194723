/** Character classes of the tokenizer and small facts about substrings.

    Documents are strings of one-byte characters.  The C++ text is zero-terminated; here
    the end of the string plays that part, so a document holds no terminator of its own. */
module Chars {

  predicate White(c: char) {
    c == ' ' || c == '\t' || c == '\n' || c == '\r'
  }

  predicate EndName(c: char) {
    White(c) || c == '/' || c == '>'
  }

  predicate EndAnyName(c: char) {
    White(c) || c in "<>=\\/?!\"';"
  }

  predicate EndPathWord(c: char) {
    c in " =/[]"
  }

  predicate EndUnquoted(c: char) {
    White(c) || c == '>'
  }

  predicate EndAttribName(c: char) {
    White(c) || c in "=>/?"
  }

  predicate NotSecondLastInVal(c: char) {
    White(c) || c == '\"' || c == '\''
  }

  predicate DocTypeStart(c: char) {
    c == 'E' || c == 'A' || c == 'N'
  }

  /** First character of a tag name: a letter, `_`, `:`, or anything above 0x60. */
  predicate NameStart(c: char) {
    c as int > 0x60 || 0x40 < c as int < 0x5b || c == '_' || c == ':'
  }

  predicate AllWhite(s: string) {
    forall i :: 0 <= i < |s| ==> White(s[i])
  }

  /** `s` holds no `<`, so it lies inside one run of text. */
  predicate NoLt(s: string) {
    forall i :: 0 <= i < |s| ==> s[i] != '<'
  }

  /** `s` occurs in `doc` at offset `p`. */
  predicate At(doc: string, p: int, s: string) {
    0 <= p && p + |s| <= |doc| && doc[p..p + |s|] == s
  }

  lemma AtSplit(doc: string, p: int, a: string, b: string)
    ensures At(doc, p, a + b) <==> At(doc, p, a) && At(doc, p + |a|, b)
  {
    if At(doc, p, a + b) {
      assert a == (a + b)[..|a|] && b == (a + b)[|a|..];
      assert doc[p..p + |a|] == doc[p..p + |a + b|][..|a|];
      assert doc[p + |a|..p + |a| + |b|] == doc[p..p + |a + b|][|a|..];
    }
    if At(doc, p, a) && At(doc, p + |a|, b) {
      assert doc[p..p + |a + b|] == doc[p..p + |a|] + doc[p + |a|..p + |a| + |b|];
    }
  }

  lemma AtSplit3(doc: string, p: int, a: string, b: string, c: string)
    ensures At(doc, p, a + b + c) <==> At(doc, p, a) && At(doc, p + |a|, b) && At(doc, p + |a| + |b|, c)
  {
    AtSplit(doc, p, a + b, c);
    AtSplit(doc, p, a, b);
  }

  /** Offset of the first `<` at or after `p`, or the length of the document. */
  function TextEnd(doc: string, p: nat): (q: nat)
    requires p <= |doc|
    ensures p <= q <= |doc| && NoLt(doc[p..q]) && (q < |doc| ==> doc[q] == '<')
    decreases |doc| - p
  {
    if p == |doc| || doc[p] == '<' then p else
      var q := TextEnd(doc, p + 1);
      assert doc[p..q] == [doc[p]] + doc[p + 1..q];
      q
  }

  lemma TextEndUnique(doc: string, p: nat, q: nat)
    requires p <= q <= |doc| && NoLt(doc[p..q]) && (q < |doc| ==> doc[q] == '<')
    ensures TextEnd(doc, p) == q
  {
    var e := TextEnd(doc, p);
    forall k | p <= k < q ensures doc[k] != '<' { assert doc[p..q][k - p] == doc[k]; }
    forall k | p <= k < e ensures doc[k] != '<' { assert doc[p..e][k - p] == doc[k]; }
  }

  function Concat(ps: seq<string>): string {
    if ps == [] then "" else ps[0] + Concat(ps[1..])
  }

  /** `a` with `x` in the place of the `r` characters at offset `n`. */
  function Splice(a: string, n: nat, r: nat, x: string): string
    requires n + r <= |a|
  {
    a[..n] + x + a[n + r..]
  }

  lemma SpliceBehind(p: string, a: string, n: nat, r: nat, x: string)
    requires n + r <= |a|
    ensures p + Splice(a, n, r, x) == Splice(p + a, |p| + n, r, x)
  {
    assert (p + a)[..|p| + n] == p + a[..n];
    assert (p + a)[|p| + n + r..] == a[n + r..];
  }

  lemma SpliceBefore(a: string, n: nat, r: nat, x: string, q: string)
    requires n + r <= |a|
    ensures Splice(a, n, r, x) + q == Splice(a + q, n, r, x)
  {
    assert (a + q)[..n] == a[..n];
    assert (a + q)[n + r..] == a[n + r..] + q;
  }

  /** Splicing inside a part of a text. */
  lemma SpliceInside(pre: string, x: string, post: string, n: nat, r: nat, y: string)
    requires n + r <= |x|
    ensures Splice(pre + x + post, |pre| + n, r, y) == pre + Splice(x, n, r, y) + post
  {
    SpliceBehind(pre, x, n, r, y);
    SpliceBefore(pre + x, |pre| + n, r, y, post);
  }
}
