/** The content of a document as a tree, the parser that defines it, and the theorem that
    rendering and parsing are inverse to each other. */
module Content {
  import opened Chars
  import opened Token

  /** What lies between two tags: runs of text (possibly empty, without `<`), other markup kept
      as it stands, and elements.  An element has an index slot `id`, its start tag, its content
      and its end tag; the end tag of `<a/>` is empty. */
  datatype Content =
    | End(text: string)
    | Mark(text: string, mark: string, rest: Content)
    | Elem(text: string, id: nat, stag: string, kids: Content, etag: string, rest: Content)

  function Render(c: Content): string {
    match c
    case End(t) => t
    case Mark(t, m, r) => t + m + Render(r)
    case Elem(t, _, s, k, e, r) => t + (s + Render(k) + e) + Render(r)
  }

  function Len(c: Content): (n: nat)
    ensures n == |Render(c)|
  {
    match c
    case End(t) => |t|
    case Mark(t, m, r) => |t| + |m| + Len(r)
    case Elem(t, _, s, k, e, r) => |t| + |s| + Len(k) + |e| + Len(r)
  }

  /** The same content with the index slots forgotten. */
  function Erase(c: Content): (r: Content)
    ensures Render(r) == Render(c)
  {
    match c
    case End(_) => c
    case Mark(t, m, r) => Mark(t, m, Erase(r))
    case Elem(t, _, s, k, e, r) => Elem(t, 0, s, Erase(k), e, Erase(r))
  }

  // ---- Well-formed content ----

  function NameOf(tag: string): string {
    var n := NodeAt(tag, 1);
    if 0 <= n.name <= n.name + n.nameLen <= |tag| then tag[n.name..n.name + n.nameLen] else ""
  }

  /** The tokenizer takes the whole of `s` as one node of type `t`. */
  predicate IsNode(s: string, t: int) {
    s != "" && NodeAt(s, 1).typ == t && NodeAt(s, 1).len == |s|
  }

  predicate IsMark(s: string) {
    IsNode(s, CDATA) || IsNode(s, PI) || IsNode(s, COMMENT) || IsNode(s, DOCTYPE)
  }

  predicate IsStart(s: string, empty: bool) {
    IsNode(s, ELEMENT) && NodeAt(s, 1).empty == empty
  }

  /** `TokenPos::Match`: the name in the end tag is the name of the element, or the part of it
      before a character that ends a word of a path. */
  predicate Match(tok: string, name: string) {
    tok <= name && (|tok| == |name| || EndPathWord(name[|tok|]))
  }

  predicate Closes(e: string, s: string) {
    IsNode(e, END_TAG) && Match(NameOf(e), NameOf(s))
  }

  /** Every piece is the token it should be, and every end tag closes its own start tag. */
  predicate WF(c: Content) {
    NoLt(c.text) &&
    match c
    case End(_) => true
    case Mark(_, m, r) => IsMark(m) && WF(r)
    case Elem(_, _, s, k, e, r) =>
      (if e == "" then IsStart(s, true) && k == End("") else IsStart(s, false) && Closes(e, s)) &&
      WF(k) && WF(r)
  }

  /** No document that starts with `<?>`: at offset 0 that is not a complete instruction. */
  predicate Quiet(doc: string) {
    !("<?>" <= doc)
  }

  /** The tokenizer takes the whole of `m`, at the start of the document, as one instruction. */
  predicate FirstPI(m: string) {
    m != "" && NodeAt(m, 0).typ == PI && NodeAt(m, 0).len == |m|
  }

  /** A well-formed document: an instruction that begins with `<?>` at the start of the document is a longer
      one than anywhere else. */
  predicate WFDoc(c: Content) {
    if Quiet(Render(c)) then WF(c) else c.Mark? && c.text == "" && FirstPI(c.mark) && WF(c.rest)
  }

  // ---- Parsing ----

  datatype Parsed = Fail | Done(c: Content, next: nat)

  function NodeIn(doc: string, p: nat): (n: Node)
    requires p <= |doc|
    ensures p + n.len <= |doc| && (p < |doc| ==> 0 < n.len)
  {
    if p < |doc| then NodeProgress(doc[p..], p); NodeAt(doc[p..], p) else NodeAt(doc[p..], p)
  }

  /** The tag name of the node at `p`. */
  function NameIn(doc: string, p: nat): string
    requires p <= |doc|
  {
    var n := NodeIn(doc, p);
    if p + n.name + n.nameLen <= |doc| then doc[p + n.name..p + n.name + n.nameLen] else ""
  }

  /** Parses content from `q` on, where `doc[p..q]` is text already read: up to the end tag of the
      enclosing element or to the end of the document. */
  function ParseTags(doc: string, p: nat, q: nat): (r: Parsed)
    requires p <= q <= |doc|
    ensures r.Done? ==> q <= r.next <= |doc| && (r.next < |doc| ==> NodeIn(doc, r.next).typ == END_TAG)
    decreases |doc| - q, 0
  {
    if q == |doc| then Done(End(doc[p..q]), q) else
    var n := NodeIn(doc, q);
    var e := q + n.len;
    if n.typ == END_TAG then Done(End(doc[p..q]), q)
    else if n.typ == ELEMENT && n.empty then
      match ParseContent(doc, e)
      case Fail => Fail
      case Done(r, next) => Done(Elem(doc[p..q], 0, doc[q..e], End(""), "", r), next)
    else if n.typ == ELEMENT then
      match ParseContent(doc, e)
      case Fail => Fail
      case Done(k, m) =>
        if m == |doc| then Fail else
        var f := m + NodeIn(doc, m).len;
        if !Match(NameOf(doc[m..f]), NameOf(doc[q..e])) then Fail else
        match ParseContent(doc, f)
        case Fail => Fail
        case Done(r, next) => Done(Elem(doc[p..q], 0, doc[q..e], k, doc[m..f], r), next)
    else if n.typ == BAD then Fail
    else
      match ParseContent(doc, e)
      case Fail => Fail
      case Done(r, next) => Done(Mark(doc[p..q], doc[q..e], r), next)
  }

  function ParseContent(doc: string, p: nat): (r: Parsed)
    requires p <= |doc|
    ensures r.Done? ==> p <= r.next <= |doc| && (r.next < |doc| ==> NodeIn(doc, r.next).typ == END_TAG)
    decreases |doc| - p, 1
  {
    ParseTags(doc, p, TextEnd(doc, p))
  }

  /** The content of a whole document: it fails on a bad node, a lone end tag, an element without
      an end tag, or an end tag that does not match. */
  function ParseDoc(doc: string): Parsed {
    match ParseContent(doc, 0)
    case Done(c, next) => if next == |doc| then Done(c, next) else Fail
    case Fail => Fail
  }

  // ---- Rendering and parsing are inverse to each other ----

  lemma NodeInPrefix(doc: string, p: nat, n: nat)
    requires (Quiet(doc) || p > 0) && p + n <= |doc| && n > 0 && doc[p] == '<'
    ensures var t := doc[p..p + n];
            (MarkupType(NodeAt(t, 1).typ) && NodeAt(t, 1).len == n ==> NodeIn(doc, p) == NodeAt(t, 1)) &&
            (MarkupType(NodeIn(doc, p).typ) && NodeIn(doc, p).len == n ==> NodeIn(doc, p) == NodeAt(t, 1)) &&
            At(doc, p, t)
  {
    var s, t := doc[p..], doc[p..p + n];
    if p == 0 {
      assert s == doc;
      if |t| >= 3 { assert t[..3] == doc[..3]; }
    }
    assert s[..n] == t == t[..n];
    if MarkupType(NodeAt(t, 1).typ) && NodeAt(t, 1).len == n {
      NodeLocal(t, s, 1, p);
    }
    if MarkupType(NodeIn(doc, p).typ) && NodeIn(doc, p).len == n {
      NodeLocal(s, t, p, 1);
    }
  }

  /** A piece that is a token on its own is that token wherever it stands. */
  lemma NodeInAt(doc: string, p: nat, t: string)
    requires (Quiet(doc) || p > 0) && At(doc, p, t) && t != "" && MarkupType(NodeAt(t, 1).typ) && NodeAt(t, 1).len == |t|
    ensures NodeIn(doc, p) == NodeAt(t, 1) && doc[p] == '<' && doc[p..p + |t|] == t
  {
    NodeProgress(t, 1);
    assert t[0] == doc[p..p + |t|][0] == doc[p];
    NodeInPrefix(doc, p, |t|);
  }

  lemma TextEndAt(doc: string, p: nat, t: string)
    requires At(doc, p, t) && NoLt(t) && (p + |t| < |doc| ==> doc[p + |t|] == '<')
    ensures TextEnd(doc, p) == p + |t| && doc[p..p + |t|] == t
  {
    TextEndUnique(doc, p, p + |t|);
  }

  /** A position at which content ends: the end of the document or an end tag. */
  predicate Ends(doc: string, p: nat) {
    p <= |doc| && (p < |doc| ==> NodeIn(doc, p).typ == END_TAG)
  }

  lemma EndsAtLt(doc: string, p: nat)
    requires p < |doc| && Ends(doc, p)
    ensures doc[p] == '<'
  {
    NodeProgress(doc[p..], p);
  }

  /** How the parse of an element with an end tag is put together. */
  lemma ParsedElem(doc: string, p: nat, q: nat, e: nat, k: Content, m: nat, f: nat, r: Content, n: nat)
    requires p <= q < e <= m < f <= |doc| && q == TextEnd(doc, p)
    requires NodeIn(doc, q).typ == ELEMENT && !NodeIn(doc, q).empty && e == q + NodeIn(doc, q).len
    requires ParseContent(doc, e) == Done(k, m) && f == m + NodeIn(doc, m).len && ParseContent(doc, f) == Done(r, n)
    ensures ParseContent(doc, p) ==
            if Match(NameOf(doc[m..f]), NameOf(doc[q..e])) then Done(Elem(doc[p..q], 0, doc[q..e], k, doc[m..f], r), n)
            else Fail
  {
    hide NodeAt, NodeIn, Match, NameOf, TextEnd, ParseContent;
    ContentIs(doc, p);
  }

  lemma ContentIs(doc: string, p: nat)
    requires p <= |doc|
    ensures ParseContent(doc, p) == ParseTags(doc, p, TextEnd(doc, p))
  {
  }

  /** The same for an empty element. */
  lemma ParsedEmpty(doc: string, p: nat, q: nat, e: nat)
    requires p <= q < e <= |doc| && q == TextEnd(doc, p)
    requires NodeIn(doc, q).typ == ELEMENT && NodeIn(doc, q).empty && e == q + NodeIn(doc, q).len
    ensures ParseContent(doc, p) ==
            match ParseContent(doc, e)
            case Fail => Fail
            case Done(r, n) => Done(Elem(doc[p..q], 0, doc[q..e], End(""), "", r), n)
  {
    hide NodeAt, NodeIn, TextEnd, ParseContent;
    ContentIs(doc, p);
  }

  lemma ParseElem(doc: string, p: nat, c: Content)
    requires (Quiet(doc) || p > 0) && c.Elem? && c.etag != "" && WF(c) && At(doc, p, Render(c))
    requires var q := p + |c.text|; var x := q + |c.stag| + Len(c.kids);
             && ParseContent(doc, x + |c.etag|) == Done(Erase(c.rest), p + Len(c))
             && (Ends(doc, x) ==> ParseContent(doc, q + |c.stag|) == Done(Erase(c.kids), x))
    ensures ParseContent(doc, p) == Done(Erase(c), p + Len(c))
  {
    hide At, NodeIn, NameOf, NodeAt, TextEnd, Match, ParseContent, Render;
    var q := p + |c.text|;
    var x := q + |c.stag| + Len(c.kids);
    assert Render(c) == c.text + (c.stag + Render(c.kids) + c.etag) + Render(c.rest) by { RenderParts(c); }
    AtSplit3(doc, p, c.text, c.stag + Render(c.kids) + c.etag, Render(c.rest));
    AtSplit3(doc, q, c.stag, Render(c.kids), c.etag);
    NodeInAt(doc, q, c.stag);
    TextEndAt(doc, p, c.text);
    NodeInAt(doc, x, c.etag);
    ParsedElem(doc, p, q, q + |c.stag|, Erase(c.kids), x, x + |c.etag|, Erase(c.rest), p + Len(c));
  }

  lemma ParseEmptyElem(doc: string, p: nat, c: Content)
    requires (Quiet(doc) || p > 0) && c.Elem? && c.etag == "" && WF(c) && At(doc, p, Render(c))
    requires ParseContent(doc, p + |c.text| + |c.stag|) == Done(Erase(c.rest), p + Len(c))
    ensures ParseContent(doc, p) == Done(Erase(c), p + Len(c))
  {
    hide At, NodeIn, NodeAt, TextEnd;
    var q := p + |c.text|;
    AtSplit3(doc, p, c.text, c.stag + Render(c.kids) + c.etag, Render(c.rest));
    AtSplit3(doc, q, c.stag, Render(c.kids), c.etag);
    NodeInAt(doc, q, c.stag);
    TextEndAt(doc, p, c.text);
  }

  lemma ParseMark(doc: string, p: nat, c: Content)
    requires (Quiet(doc) || p > 0) && c.Mark? && WF(c) && At(doc, p, Render(c))
    requires ParseContent(doc, p + |c.text| + |c.mark|) == Done(Erase(c.rest), p + Len(c))
    ensures ParseContent(doc, p) == Done(Erase(c), p + Len(c))
  {
    hide At, NodeIn, NodeAt, TextEnd;
    AtSplit3(doc, p, c.text, c.mark, Render(c.rest));
    NodeInAt(doc, p + |c.text|, c.mark);
    TextEndAt(doc, p, c.text);
  }

  lemma ParseEnd(doc: string, p: nat, t: string)
    requires NoLt(t) && At(doc, p, t) && Ends(doc, p + |t|)
    ensures ParseContent(doc, p) == Done(End(t), p + |t|)
  {
    hide NodeAt, TextEnd;
    if p + |t| < |doc| { EndsAtLt(doc, p + |t|); }
    TextEndAt(doc, p, t);
  }

  lemma RenderParts(c: Content)
    ensures c.End? ==> Render(c) == c.text
    ensures c.Mark? ==> Render(c) == c.text + c.mark + Render(c.rest)
    ensures c.Elem? ==> Render(c) == c.text + (c.stag + Render(c.kids) + c.etag) + Render(c.rest)
  {
  }

  /** Where the parts of content are. */
  lemma PartsAt(doc: string, p: nat, c: Content)
    requires At(doc, p, Render(c))
    ensures c.End? ==> At(doc, p, c.text) && Len(c) == |c.text| && Erase(c) == c
    ensures c.Mark? ==> At(doc, p + |c.text| + |c.mark|, Render(c.rest)) && Len(c) == |c.text| + |c.mark| + Len(c.rest)
    ensures c.Elem? ==>
              var x := p + |c.text| + |c.stag| + Len(c.kids);
              && At(doc, p + |c.text| + |c.stag|, Render(c.kids)) && At(doc, x + |c.etag|, Render(c.rest))
              && Len(c) == |c.text| + |c.stag| + Len(c.kids) + |c.etag| + Len(c.rest)
              && (c.etag == "" && c.kids == End("") ==> x + |c.etag| == p + |c.text| + |c.stag|)
  {
    hide At;
    RenderParts(c);
    match c
    case End(_) =>
    case Mark(t, m, r) => AtSplit3(doc, p, t, m, Render(r));
    case Elem(t, _, s, k, e, r) =>
      AtSplit3(doc, p, t, s + Render(k) + e, Render(r));
      AtSplit3(doc, p + |t|, s, Render(k), e);
  }

  /** Parsing the rendering of well-formed content gives the content back. */
  lemma {:induction false} ParseOfRender(doc: string, p: nat, c: Content)
    requires (Quiet(doc) || p > 0) && WF(c) && At(doc, p, Render(c)) && Ends(doc, p + Len(c))
    ensures ParseContent(doc, p) == Done(Erase(c), p + Len(c))
    decreases c
  {
    hide At, Ends, ParseContent, IsMark, IsStart, Closes, Quiet, NoLt, Render, Len, Erase;
    PartsAt(doc, p, c);
    var q := p + |c.text|;
    match c
    case End(t) =>
      ParseEnd(doc, p, t);
    case Mark(_, m, r) =>
      ParseOfRender(doc, q + |m|, r);
      ParseMark(doc, p, c);
    case Elem(_, _, s, k, e, r) =>
      var x := q + |s| + Len(k);
      ParseOfRender(doc, x + |e|, r);
      if e == "" {
        ParseEmptyElem(doc, p, c);
      } else {
        if Ends(doc, x) { ParseOfRender(doc, q + |s|, k); }
        ParseElem(doc, p, c);
      }
  }

  /** What `RenderOfParse` says of one parse. */
  predicate Sound(doc: string, p: nat, r: Parsed) {
    r.Done? && WF(r.c) && At(doc, p, Render(r.c)) && r.next == p + Len(r.c) && Erase(r.c) == r.c
  }

  /** A tag cut out of the document is a token on its own. */
  lemma TagSound(doc: string, p: nat)
    requires (Quiet(doc) || p > 0) && p < |doc| && MarkupType(NodeIn(doc, p).typ)
    ensures var n := NodeIn(doc, p);
            && 0 < n.len && p + n.len <= |doc| && At(doc, p, doc[p..p + n.len])
            && IsNode(doc[p..p + n.len], n.typ) && NodeAt(doc[p..p + n.len], 1) == n
  {
    hide NodeAt;
    NodeProgress(doc[p..], p);
    NodeInPrefix(doc, p, NodeIn(doc, p).len);
  }

  lemma TextSound(doc: string, p: nat)
    requires p <= |doc|
    ensures At(doc, p, doc[p..TextEnd(doc, p)])
  {
  }

  lemma SoundEnd(doc: string, p: nat)
    requires p <= |doc| && (TextEnd(doc, p) == |doc| || NodeIn(doc, TextEnd(doc, p)).typ == END_TAG)
    ensures Sound(doc, p, ParseContent(doc, p))
  {
    hide At, NodeAt, TextEnd;
    TextSound(doc, p);
  }

  lemma SoundElem(doc: string, p: nat, q: nat, e: nat, m: nat, f: nat)
    requires (Quiet(doc) || p > 0) && p <= q < e <= m < f <= |doc| && q == TextEnd(doc, p) && ParseContent(doc, p).Done?
    requires NodeIn(doc, q).typ == ELEMENT && !NodeIn(doc, q).empty && e == q + NodeIn(doc, q).len
    requires NodeIn(doc, m).typ == END_TAG && f == m + NodeIn(doc, m).len
    requires Sound(doc, e, ParseContent(doc, e)) && ParseContent(doc, e).next == m
    requires Sound(doc, f, ParseContent(doc, f))
    ensures Sound(doc, p, ParseContent(doc, p))
  {
    hide At, NodeAt, TextEnd, NameOf, Match, NodeIn, ParseContent;
    var Done(k, _) := ParseContent(doc, e);
    var Done(r, n) := ParseContent(doc, f);
    ParsedElem(doc, p, q, e, k, m, f, r, n);
    var c := Elem(doc[p..q], 0, doc[q..e], k, doc[m..f], r);
    TagSound(doc, q);
    TagSound(doc, m);
    TextSound(doc, p);
    AtSplit3(doc, q, c.stag, Render(k), c.etag);
    AtSplit3(doc, p, c.text, c.stag + Render(k) + c.etag, Render(r));
    assert Erase(c) == c;
    assert WF(c);
  }

  lemma SoundEmpty(doc: string, p: nat)
    requires (Quiet(doc) || p > 0) && p <= |doc| && ParseContent(doc, p).Done?
    requires var q := TextEnd(doc, p); q < |doc| && NodeIn(doc, q).typ == ELEMENT && NodeIn(doc, q).empty
    requires var e := TextEnd(doc, p) + NodeIn(doc, TextEnd(doc, p)).len; Sound(doc, e, ParseContent(doc, e))
    ensures Sound(doc, p, ParseContent(doc, p))
  {
    hide At, NodeAt, TextEnd, NodeIn, ParseContent, IsNode;
    var q := TextEnd(doc, p);
    TagSound(doc, q);
    TextSound(doc, p);
    ParsedEmpty(doc, p, q, q + NodeIn(doc, q).len);
    var c := ParseContent(doc, p).c;
    assert c.stag + Render(c.kids) + c.etag == c.stag;
    AtSplit3(doc, p, c.text, c.stag + Render(c.kids) + c.etag, Render(c.rest));
    assert Erase(c) == c;
    assert WF(c);
  }

  lemma SoundMark(doc: string, p: nat)
    requires (Quiet(doc) || p > 0) && p <= |doc| && ParseContent(doc, p).Done?
    requires var q := TextEnd(doc, p); q < |doc| && NodeIn(doc, q).typ != ELEMENT && NodeIn(doc, q).typ != END_TAG
    requires var e := TextEnd(doc, p) + NodeIn(doc, TextEnd(doc, p)).len; Sound(doc, e, ParseContent(doc, e))
    ensures Sound(doc, p, ParseContent(doc, p))
  {
    hide At, NodeAt, TextEnd;
    var q := TextEnd(doc, p);
    var c := ParseContent(doc, p).c;
    NodeProgress(doc[q..], q);
    assert doc[q] == '<' by { TextSound(doc, p); TextEndIsLt(doc, p); }
    TagSound(doc, q);
    TextSound(doc, p);
    AtSplit3(doc, p, c.text, c.mark, Render(c.rest));
  }

  lemma TextEndIsLt(doc: string, p: nat)
    requires p <= |doc| && TextEnd(doc, p) < |doc|
    ensures doc[TextEnd(doc, p)] == '<'
  {
  }

  /** The parses that a successful parse is made of. */
  lemma ParsedParts(doc: string, p: nat)
    requires p <= |doc| && ParseContent(doc, p).Done?
    requires TextEnd(doc, p) < |doc| && NodeIn(doc, TextEnd(doc, p)).typ != END_TAG
    ensures var e := TextEnd(doc, p) + NodeIn(doc, TextEnd(doc, p)).len;
            && TextEnd(doc, p) < e && ParseContent(doc, e).Done?
            && (NodeIn(doc, TextEnd(doc, p)).typ == ELEMENT && !NodeIn(doc, TextEnd(doc, p)).empty ==>
                var m := ParseContent(doc, e).next;
                && e <= m < m + NodeIn(doc, m).len <= |doc| && NodeIn(doc, m).typ == END_TAG
                && ParseContent(doc, m + NodeIn(doc, m).len).Done?)
  {
    hide At, NodeAt, NodeIn, Match, NameOf;
  }

  /** Whatever parses renders back to the text it was parsed from, and is well-formed. */
  lemma {:induction false} RenderOfParse(doc: string, p: nat)
    requires (Quiet(doc) || p > 0) && p <= |doc| && ParseContent(doc, p).Done?
    ensures Sound(doc, p, ParseContent(doc, p))
    decreases |doc| - p
  {
    hide At, NodeAt, Sound, TextEnd, NodeIn, ParseContent;
    var q := TextEnd(doc, p);
    if q == |doc| || NodeIn(doc, q).typ == END_TAG {
      SoundEnd(doc, p);
    } else {
      ParsedParts(doc, p);
      var n := NodeIn(doc, q);
      RenderOfParse(doc, q + n.len);
      if n.typ == ELEMENT && !n.empty {
        var m := ParseContent(doc, q + n.len).next;
        RenderOfParse(doc, m + NodeIn(doc, m).len);
        SoundElem(doc, p, q, q + n.len, m, m + NodeIn(doc, m).len);
      } else if n.typ == ELEMENT {
        SoundEmpty(doc, p);
      } else {
        SoundMark(doc, p);
      }
    }
  }

  /** For documents that do not start with `<?>`, content is the parse of a document exactly when
      it is well-formed and renders to the document. */
  lemma ParseDocIff(doc: string, c: Content)
    requires Quiet(doc) && Render(c) == doc
    ensures ParseDoc(doc) == Done(Erase(c), |doc|) <==> WF(c)
  {
    if WF(c) {
      ParseOfRender(doc, 0, c);
    }
    if ParseDoc(doc) == Done(Erase(c), |doc|) {
      RenderOfParse(doc, 0);
      WFErase(c);
    }
  }

  /** Well-formedness does not look at index slots. */
  lemma {:induction false} WFErase(c: Content)
    ensures WF(Erase(c)) <==> WF(c)
  {
    match c
    case End(_) =>
    case Mark(_, _, r) => WFErase(r);
    case Elem(_, _, _, k, _, r) =>
      WFErase(k);
      WFErase(r);
  }
}
