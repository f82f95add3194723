/** The CDATA encoding of text: `x_EncodeCDATASection`, and what the tokenizer makes of it. */
module CData {
  import opened Token
  import opened Content

  /** `]]>` stands at `i`. */
  predicate MarkAt(s: string, i: nat) {
    i + 3 <= |s| && s[i] == ']' && s[i + 1] == ']' && s[i + 2] == '>'
  }

  /** The first `]]>` at or after `i`, or the length of the text. */
  function FindMark(s: string, i: nat): (j: nat)
    requires i <= |s|
    ensures i <= j <= |s| && (j < |s| ==> MarkAt(s, j)) && forall k :: i <= k < j ==> !MarkAt(s, k)
    decreases |s| - i
  {
    if i == |s| || MarkAt(s, i) then i else FindMark(s, i + 1)
  }

  const OPEN := "<![CDATA["
  const CLOSE := "]]>"
  const HALF := "]]"

  function Section(body: string): string {
    OPEN + body + CLOSE
  }

  /** The content that stands for `pre + s`: a section that would end early is ended after `]]`,
      and the `>` opens the next one. */
  function Sections(pre: string, s: string): Content
    decreases |s|
  {
    var j := FindMark(s, 0);
    if j == |s| then Mark("", Section(pre + s), End(""))
    else Mark("", Section(pre + s[..j] + HALF), Sections(">", s[j + 3..]))
  }

  /** `x_EncodeCDATASection`. */
  method EncodeCDATASection(szData: string) returns (strData: string)
    ensures strData == Render(Sections("", szData))
  {
    hide Render, Tail;
    strData := "<![CDATA[";
    var nNextStart := 0;
    var nEnd := FindMark(szData, 0);
    EncodeStart(szData);
    while nEnd < |szData|
      invariant nNextStart <= |szData| && nEnd == FindMark(szData, nNextStart)
      invariant strData + Tail(szData[nNextStart..]) == Render(Sections("", szData))
    {
      EncodeStep(strData, szData, nNextStart, nEnd);
      strData := strData + szData[nNextStart..nEnd] + "]]]]><![CDATA[>";
      nNextStart := nEnd + 3;
      nEnd := FindMark(szData, nNextStart);
    }
    EncodeEnd(strData, szData, nNextStart);
    strData := strData + szData[nNextStart..] + "]]>";
  }

  /** What remains to be written behind an open section. */
  function Tail(s: string): string {
    var j := FindMark(s, 0);
    if j == |s| then s + CLOSE else s[..j] + (HALF + CLOSE) + Render(Sections(">", s[j + 3..]))
  }

  lemma Assoc(o: string, p: string, x: string, b: string, c: string, r: string)
    ensures o + (p + x + b) + c + r == o + p + (x + (b + c) + r)
  {
  }

  lemma RenderMark(m: string, r: Content)
    ensures Render(Mark("", m, r)) == m + Render(r)
  {
  }

  lemma TailOf(pre: string, s: string)
    ensures Render(Sections(pre, s)) == OPEN + pre + Tail(s)
  {
    hide Render;
    var j := FindMark(s, 0);
    if j == |s| {
      RenderMark(Section(pre + s), End(""));
      assert Render(End("")) == "" by { RenderEnd(""); }
      Assoc(OPEN, pre, s, "", CLOSE, "");
      assert pre + s + "" == pre + s && s + ("" + CLOSE) + "" == s + CLOSE;
      assert Section(pre + s) + "" == OPEN + (pre + s) + CLOSE + "";
    } else {
      var r := Sections(">", s[j + 3..]);
      RenderMark(Section(pre + s[..j] + HALF), r);
      Assoc(OPEN, pre, s[..j], HALF, CLOSE, Render(r));
    }
  }

  lemma RenderEnd(t: string)
    ensures Render(End(t)) == t
  {
  }

  lemma {:induction false} FindShift(s: string, i: nat, k: nat)
    requires i <= k <= |s|
    ensures FindMark(s, k) == i + FindMark(s[i..], k - i)
    decreases |s| - k
  {
    if k < |s| && !MarkAt(s, k) {
      FindShift(s, i, k + 1);
    }
  }

  lemma EncodeStart(s: string)
    ensures OPEN + Tail(s[0..]) == Render(Sections("", s))
  {
    hide Render, Tail;
    assert s[0..] == s && OPEN + "" == OPEN;
    TailOf("", s);
  }

  lemma Assoc2(a: string, x: string, h: string, o: string, p: string, y: string)
    ensures a + (x + h + (o + p + y)) == (a + x + (h + o + p)) + y
  {
  }

  lemma Joint()
    ensures HALF + CLOSE + OPEN + ">" == "]]]]><![CDATA[>"
  {
  }

  lemma TailAt(s: string, i: nat, j: nat)
    requires i <= j < |s| && j == FindMark(s, i)
    ensures j + 3 <= |s| && Tail(s[i..]) == s[i..j] + (HALF + CLOSE) + Render(Sections(">", s[j + 3..]))
  {
    hide Render, Sections;
    FindShift(s, i, i);
    var t := s[i..];
    assert t[..j - i] == s[i..j] && t[j - i + 3..] == s[j + 3..];
  }

  lemma EncodeStep(a: string, s: string, i: nat, j: nat)
    requires i <= j < |s| && j == FindMark(s, i)
    ensures a + Tail(s[i..]) == (a + s[i..j] + "]]]]><![CDATA[>") + Tail(s[j + 3..])
  {
    hide Render, Tail, Sections, FindMark;
    TailAt(s, i, j);
    TailOf(">", s[j + 3..]);
    Joint();
    Assoc2(a, s[i..j], HALF + CLOSE, OPEN, ">", Tail(s[j + 3..]));
  }

  lemma EncodeEnd(a: string, s: string, i: nat)
    requires i <= |s| && FindMark(s, i) == |s|
    ensures a + Tail(s[i..]) == a + s[i..] + "]]>"
  {
    FindShift(s, i, i);
    var t := s[i..];
    assert Tail(t) == t + CLOSE;
    assert a + (t + CLOSE) == a + t + CLOSE;
  }

  // ---- The sections are tokens ----

  /** No section with this body ends early. */
  predicate NoMarks(body: string) {
    forall k :: 0 <= k < |body| ==> !MarkAt(body, k)
  }

  lemma {:induction false} RunSection(s: string, body: string, i: nat)
    requires s == Section(body) && NoMarks(body) && 9 <= i <= |s| - 1
    ensures var st := START.(end := CDATAEnd, typ := CDATA);
            Run(s, 1, i, st) == Result(st.(end := NoEnd), |s|, false)
    decreases |s| - i
  {
    var st := START.(end := CDATAEnd, typ := CDATA);
    assert s[8] == '[' && s[|s| - 1] == '>' && s[|s| - 2] == ']' && s[|s| - 3] == ']';
    if i < |s| - 1 {
      if s[i] == '>' {
        if i >= 11 && s[i - 1] == ']' && s[i - 2] == ']' {
          SectionChar(body, i - 2);
          SectionChar(body, i - 1);
          SectionChar(body, i);
          assert MarkAt(body, i - 11);
        }
        assert !Completes(s, 1, i, CDATAEnd);
      }
      assert Step(s, 1, i, st) == More(st);
      RunSection(s, body, i + 1);
    }
  }

  lemma SectionChar(body: string, i: nat)
    requires 9 <= i < |Section(body)|
    ensures Section(body)[i] == if i - 9 < |body| then body[i - 9] else "]]>"[i - 9 - |body|]
  {
  }

  lemma SectionIsNode(body: string)
    requires NoMarks(body)
    ensures IsNode(Section(body), CDATA)
  {
    var s := Section(body);
    assert s[..9] == "<![CDATA[";
    forall k | 0 <= k < 9 ensures s[k] == "<![CDATA["[k] { assert s[..9][k] == s[k]; }
    var a, b, c := START.(phase := OpenTag), START.(phase := Bang), START.(phase := Bracket);
    var d := START.(end := CDATAEnd, typ := CDATA);
    assert Step(s, 1, 0, START) == More(a) && Step(s, 1, 1, a) == More(b) && Step(s, 1, 2, b) == More(c) && Step(s, 1, 3, c) == More(d);
    assert Run(s, 1, 0, START) == Run(s, 1, 1, a) == Run(s, 1, 2, b) == Run(s, 1, 3, c) == Run(s, 1, 4, d);
    RunPrefix(s, 4, d);
    RunSection(s, body, 9);
  }

  lemma {:induction false} RunPrefix(s: string, i: nat, d: Scan)
    requires d == START.(end := CDATAEnd, typ := CDATA) && i <= 9 <= |s| && forall k :: i <= k < 9 ==> s[k] != '>'
    ensures Run(s, 1, i, d) == Run(s, 1, 9, d)
    decreases 9 - i
  {
    if i < 9 {
      assert Step(s, 1, i, d) == More(d);
      RunPrefix(s, i + 1, d);
    }
  }

  /** The encoding of any text is well-formed content without elements. */
  lemma {:induction false} SectionsWF(pre: string, s: string)
    requires pre == "" || pre == ">"
    ensures WF(Sections(pre, s))
    decreases |s|
  {
    hide IsNode;
    var j := FindMark(s, 0);
    if j == |s| {
      NoMarksJoin(pre, s, "");
      assert pre + s + "" == pre + s;
      SectionIsNode(pre + s);
    } else {
      assert forall k :: 0 <= k < j ==> MarkAt(s[..j], k) ==> MarkAt(s, k);
      NoMarksJoin(pre, s[..j], HALF);
      SectionIsNode(pre + s[..j] + HALF);
      SectionsWF(">", s[j + 3..]);
    }
  }

  lemma NoMarksJoin(pre: string, s: string, post: string)
    requires (pre == "" || pre == ">") && (post == "" || post == "]]") && forall k :: 0 <= k < |s| ==> !MarkAt(s, k)
    ensures NoMarks(pre + s + post)
  {
    var x := pre + s + post;
    forall k | 0 <= k < |x| ensures !MarkAt(x, k) {
      if MarkAt(x, k) {
        MarkInside(pre, s, post, k);
      }
    }
  }

  /** A `]]>` in the joined text lies inside `s`. */
  lemma MarkInside(pre: string, s: string, post: string, k: nat)
    requires (pre == "" || pre == ">") && (post == "" || post == "]]") && MarkAt(pre + s + post, k)
    ensures |pre| <= k && MarkAt(s, k - |pre|)
  {
    JoinedAt(pre, s, post, k);
    JoinedAt(pre, s, post, k + 1);
    JoinedAt(pre, s, post, k + 2);
  }

  lemma JoinedAt(pre: string, s: string, post: string, i: nat)
    requires i < |pre + s + post|
    ensures (pre + s + post)[i] ==
            if i < |pre| then pre[i] else if i < |pre| + |s| then s[i - |pre|] else post[i - |pre| - |s|]
  {
  }
}
