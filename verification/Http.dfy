/** The header parser of Netlib/TcpClientHttp.cpp, and the frames of a byte stream.

    A buffer is a string that a zero byte or its end terminates.  `ParseHttpHeaders` ignores how much of the
    buffer holds received bytes, so the parser is stated on the whole buffer, and the frames on the
    received bytes alone; `DecideIff` says how far the two agree. */
module Http {

  import opened Chars

  /** A header line, as offsets into the buffer. */
  datatype Header = Header(key: nat, keyLen: nat, value: nat, valueLen: nat)

  const NUL: char := '\0'
  const LINE_END := "\r\n"
  const BLOCK_END := "\r\n\r\n"

  // ---- The C library ----

  /** `strstr(d + i, x)` as an offset, or -1. */
  function StrStr(d: string, i: nat, x: string): (r: int)
    requires i <= |d|
    ensures r >= 0 ==> i <= r && At(d, r, x) && forall k :: i <= k < r ==> d[k] != NUL && !At(d, k, x)
    decreases |d| - i
  {
    if At(d, i, x) then i
    else if i == |d| || d[i] == NUL then -1
    else StrStr(d, i + 1, x)
  }

  /** `memchr(d + i, c, n - i)` as an offset, or -1. */
  function MemChr(d: string, i: nat, n: nat, c: char): (r: int)
    requires i <= n <= |d|
    ensures r >= 0 ==> i <= r < n
    decreases n - i
  {
    if i == n then -1 else if d[i] == c then i else MemChr(d, i + 1, n, c)
  }

  function Lower(c: char): char {
    if 'A' <= c <= 'Z' then (c as int + 32) as char else c
  }

  /** `_strnicmp(d + i, x, |x|) == 0` for an `x` without zero bytes. */
  predicate SameText(d: string, i: nat, x: string) {
    i + |x| <= |d| && forall k :: 0 <= k < |x| ==> Lower(d[i + k]) == Lower(x[k])
  }

  predicate Space(c: char) {
    c == ' ' || 9 <= c as int <= 13
  }

  predicate Digit(c: char) {
    '0' <= c <= '9'
  }

  function SkipSpace(d: string, i: nat): (r: nat)
    requires i <= |d|
    ensures i <= r <= |d| && (r < |d| ==> !Space(d[r])) && forall k :: i <= k < r ==> Space(d[k])
    decreases |d| - i
  {
    if i < |d| && Space(d[i]) then SkipSpace(d, i + 1) else i
  }

  function DigitsEnd(d: string, i: nat): (r: nat)
    requires i <= |d|
    ensures i <= r <= |d| && (r < |d| ==> !Digit(d[r])) && forall k :: i <= k < r ==> Digit(d[k])
    decreases |d| - i
  {
    if i < |d| && Digit(d[i]) then DigitsEnd(d, i + 1) else i
  }

  function Number(s: string): nat {
    if s == "" then 0 else Number(s[..|s| - 1]) * 10 + (s[|s| - 1] as int - '0' as int) % 10
  }

  /** An `int` of 32 bits; a number that does not fit becomes the nearest one that does. */
  function Clamp(n: int): (r: int)
    ensures -0x8000_0000 <= r <= 0x7fff_ffff
  {
    if n > 0x7fff_ffff then 0x7fff_ffff else if n < -0x8000_0000 then -0x8000_0000 else n
  }

  /** Where `atoi(d + i)` begins to read digits, and the first character that it does not take. */
  function NumberStart(d: string, i: nat): (r: nat)
    requires i <= |d|
    ensures i <= r <= |d|
  {
    var j := SkipSpace(d, i);
    if j < |d| && (d[j] == '-' || d[j] == '+') then j + 1 else j
  }

  function Atoi(d: string, i: nat): (n: int)
    requires i <= |d|
    ensures -0x8000_0000 <= n <= 0x7fff_ffff
  {
    var j, k := SkipSpace(d, i), NumberStart(d, i);
    var n: int := Number(d[k..DigitsEnd(d, k)]);
    Clamp(if j < |d| && d[j] == '-' then -n else n)
  }

  // ---- Headers ----

  /** Offset of the blank line that ends the headers, or -1. */
  function BlockEnd(d: string): (e: int)
    ensures e >= 0 ==> At(d, e, BLOCK_END) && forall k :: 0 <= k < e ==> d[k] != NUL && !At(d, k, BLOCK_END)
  {
    StrStr(d, 0, BLOCK_END)
  }

  function SkipBlanks(d: string, i: nat, n: nat): (r: nat)
    requires i <= n <= |d|
    ensures i <= r <= n
    decreases n - i
  {
    if i < n && d[i] == ' ' then SkipBlanks(d, i + 1, n) else i
  }

  /** The header on the line `d[p..n]`, if the line has a colon. */
  function LineHeader(d: string, p: nat, n: nat): (hs: seq<Header>)
    requires p <= n <= |d|
    ensures forall h :: h in hs ==> p <= h.key && h.key + h.keyLen < h.value && h.value + h.valueLen == n
  {
    var c := MemChr(d, p, n, ':');
    if c < 0 then [] else
      var v := SkipBlanks(d, c + 1, n);
      [Header(p, c - p, v, n - v)]
  }

  /** The headers from `p` on, for a block that ends at `e`. */
  function HeaderLines(d: string, p: nat, e: nat): (hs: seq<Header>)
    requires p <= |d|
    decreases |d| - p
  {
    if p >= e then [] else
      var n := StrStr(d, p, LINE_END);
      if n < 0 then [] else LineHeader(d, p, n) + HeaderLines(d, n + 2, e)
  }

  /** Offset of the second line. */
  function SecondLine(d: string): (p: nat)
    requires BlockEnd(d) >= 0
    ensures p <= BlockEnd(d) + 2 <= |d|
  {
    LineBefore(d, 0, BlockEnd(d));
    StrStr(d, 0, LINE_END) + 2
  }

  function HeadersOf(d: string): seq<Header>
    requires BlockEnd(d) >= 0
  {
    HeaderLines(d, SecondLine(d), BlockEnd(d))
  }

  predicate KeyEqual(d: string, h: Header, key: string) {
    h.keyLen == |key| && SameText(d, h.key, key)
  }

  /** The index of the first header with this key, or the number of headers. */
  function FirstWith(d: string, hs: seq<Header>, key: string): (i: nat)
    ensures i <= |hs| && (i < |hs| ==> KeyEqual(d, hs[i], key)) && forall j :: 0 <= j < i ==> !KeyEqual(d, hs[j], key)
  {
    if hs == [] || KeyEqual(d, hs[0], key) then 0 else
      var r := FirstWith(d, hs[1..], key);
      assert forall j :: 0 < j < r + 1 ==> hs[j] == hs[1..][j - 1];
      1 + r
  }

  function ContentLength(d: string, hs: seq<Header>): int {
    var i := FirstWith(d, hs, "Content-Length");
    if i < |hs| && hs[i].value <= |d| then Atoi(d, hs[i].value) else 0
  }

  predicate ConnectionClose(d: string, hs: seq<Header>) {
    exists i :: 0 <= i < |hs| && Closing(d, hs[i])
  }

  predicate Closing(d: string, h: Header) {
    KeyEqual(d, h, "Connection") && SameText(d, h.value, "close")
  }

  lemma {:induction false} LineBefore(d: string, i: nat, e: nat)
    requires i <= e && At(d, e, BLOCK_END) && forall k :: i <= k < e ==> d[k] != NUL
    ensures 0 <= StrStr(d, i, LINE_END) <= e
    decreases e - i
  {
    assert BLOCK_END[..2] == LINE_END;
    assert d[e..e + 4][..2] == d[e..e + 2];
    if !At(d, i, LINE_END) { LineBefore(d, i + 1, e); }
  }

  // ---- Only the received bytes matter ----

  /** The two buffers hold the same first `n` bytes. */
  predicate SameStart(d: string, d': string, n: nat) {
    n <= |d| && n <= |d'| && d[..n] == d'[..n]
  }

  lemma SameAt(d: string, d': string, n: nat, k: nat, x: string)
    requires SameStart(d, d', n) && At(d, k, x) && k + |x| <= n
    ensures At(d', k, x)
  {
    assert d[k..k + |x|] == d[..n][k..k + |x|] == d'[..n][k..k + |x|] == d'[k..k + |x|];
  }

  lemma SameChar(d: string, d': string, n: nat, k: nat)
    requires SameStart(d, d', n) && k < n
    ensures d[k] == d'[k]
  {
    assert d[k] == d[..n][k] == d'[..n][k] == d'[k];
  }

  /** A match inside the common part is found in both buffers. */
  lemma {:induction false} StrStrLocal(d: string, d': string, n: nat, i: nat, x: string)
    requires SameStart(d, d', n) && i <= n && StrStr(d, i, x) >= 0 && StrStr(d, i, x) + |x| <= n && x != ""
    ensures StrStr(d', i, x) == StrStr(d, i, x)
    decreases n - i
  {
    if At(d, i, x) {
      SameAt(d, d', n, i, x);
    } else {
      if At(d', i, x) && i + |x| <= n { SameAt(d', d, n, i, x); }
      SameChar(d, d', n, i);
      StrStrLocal(d, d', n, i + 1, x);
    }
  }

  lemma {:induction false} MemChrLocal(d: string, d': string, n: nat, i: nat, e: nat, c: char)
    requires SameStart(d, d', n) && i <= e <= n
    ensures MemChr(d', i, e, c) == MemChr(d, i, e, c)
    decreases e - i
  {
    if i < e {
      SameChar(d, d', n, i);
      MemChrLocal(d, d', n, i + 1, e, c);
    }
  }

  lemma {:induction false} BlanksLocal(d: string, d': string, n: nat, i: nat, e: nat)
    requires SameStart(d, d', n) && i <= e <= n
    ensures SkipBlanks(d', i, e) == SkipBlanks(d, i, e)
    decreases e - i
  {
    if i < e {
      SameChar(d, d', n, i);
      BlanksLocal(d, d', n, i + 1, e);
    }
  }

  lemma LineLocal(d: string, d': string, n: nat, p: nat, e: nat)
    requires SameStart(d, d', n) && p <= e <= n
    ensures LineHeader(d', p, e) == LineHeader(d, p, e)
  {
    MemChrLocal(d, d', n, p, e, ':');
    var c := MemChr(d, p, e, ':');
    if c >= 0 { BlanksLocal(d, d', n, c + 1, e); }
  }

  /** The headers of a block that lies inside the common part, and where each of them ends. */
  lemma {:induction false} LinesLocal(d: string, d': string, n: nat, p: nat, e: nat)
    requires SameStart(d, d', n) && p <= e + 2 && e + 4 <= n && At(d, e, BLOCK_END) && forall k :: 0 <= k < e ==> d[k] != NUL
    ensures HeaderLines(d', p, e) == HeaderLines(d, p, e)
    ensures forall h :: h in HeaderLines(d, p, e) ==> h.key + h.keyLen < h.value && h.value + h.valueLen <= e
    decreases n - p
  {
    if p < e {
      LineBefore(d, p, e);
      var m := StrStr(d, p, LINE_END);
      StrStrLocal(d, d', n, p, LINE_END);
      LineLocal(d, d', n, p, m);
      LinesLocal(d, d', n, m + 2, e);
    }
  }

  lemma TextLocal(d: string, d': string, n: nat, i: nat, x: string)
    requires SameStart(d, d', n) && i + |x| <= n
    ensures SameText(d', i, x) == SameText(d, i, x)
  {
    forall k | i <= k < i + |x| ensures d[k] == d'[k] { SameChar(d, d', n, k); }
  }

  lemma {:induction false} FirstLocal(d: string, d': string, n: nat, hs: seq<Header>, key: string)
    requires SameStart(d, d', n) && forall h :: h in hs ==> h.key + h.keyLen <= n
    ensures FirstWith(d', hs, key) == FirstWith(d, hs, key)
  {
    if hs != [] {
      assert hs[0] in hs;
      if hs[0].keyLen == |key| { TextLocal(d, d', n, hs[0].key, key); }
      assert forall h :: h in hs[1..] ==> h in hs;
      FirstLocal(d, d', n, hs[1..], key);
    }
  }

  /** Not all of `d[i..k]` is white space. */
  predicate NotBlank(d: string, i: nat, k: nat) {
    i <= k <= |d| && exists j :: i <= j < k && !Space(d[j])
  }

  /** `atoi` reads no further than the first character that does not belong to a number. */
  lemma AtoiLocal(d: string, d': string, n: nat, i: nat, k: nat)
    requires SameStart(d, d', n) && k < n && !Digit(d[k]) && NotBlank(d, i, k)
    ensures Atoi(d', i) == Atoi(d, i)
  {
    hide Number, DigitsEnd, SkipSpace;
    var a := SkipSpace(d, i);
    SkipLocal(d, d', n, i);
    SameChar(d, d', n, a);
    var b := NumberStart(d, i);
    DigitsLocal(d, d', n, b, k);
    SameSlice(d, d', n, b, DigitsEnd(d, b));
  }

  lemma SameSlice(d: string, d': string, n: nat, a: nat, b: nat)
    requires SameStart(d, d', n) && a <= b <= n
    ensures d[a..b] == d'[a..b]
  {
    assert d[a..b] == d[..n][a..b];
    assert d'[a..b] == d'[..n][a..b];
  }

  lemma {:induction false} SkipLocal(d: string, d': string, n: nat, i: nat)
    requires SameStart(d, d', n) && i <= n && SkipSpace(d, i) < n
    ensures SkipSpace(d', i) == SkipSpace(d, i)
    decreases n - i
  {
    SameChar(d, d', n, i);
    if Space(d[i]) { SkipLocal(d, d', n, i + 1); }
  }

  lemma {:induction false} DigitsLocal(d: string, d': string, n: nat, i: nat, k: nat)
    requires SameStart(d, d', n) && i <= k < n && !Digit(d[k])
    ensures DigitsEnd(d', i) == DigitsEnd(d, i) <= k
    decreases n - i
  {
    SameChar(d, d', n, i);
    if Digit(d[i]) { DigitsLocal(d, d', n, i + 1, k); }
  }

  /** The header that gives the length of the body, if there is one, gives a value: something other than
      white space follows its colon before the headers end. */
  predicate LengthGiven(d: string)
    requires BlockEnd(d) >= 0
  {
    var hs := HeadersOf(d);
    var i := FirstWith(d, hs, "Content-Length");
    i < |hs| ==> NotBlank(d, hs[i].value, BlockEnd(d))
  }

  /** A header block inside the common part is read alike from both buffers. */
  lemma BlockLocal(d: string, d': string, n: nat)
    requires SameStart(d, d', n) && BlockEnd(d) >= 0 && BlockEnd(d) + 4 <= n
    ensures BlockEnd(d') == BlockEnd(d) && HeadersOf(d') == HeadersOf(d)
    ensures LengthGiven(d') == LengthGiven(d)
    ensures LengthGiven(d) ==> ContentLength(d', HeadersOf(d)) == ContentLength(d, HeadersOf(d))
    ensures ConnectionClose(d', HeadersOf(d)) == ConnectionClose(d, HeadersOf(d))
  {
    hide StrStr, HeaderLines, FirstWith, ContentLength, ConnectionClose, NotBlank;
    var e := BlockEnd(d);
    StrStrLocal(d, d', n, 0, BLOCK_END);
    LineBefore(d, 0, e);
    StrStrLocal(d, d', n, 0, LINE_END);
    LinesLocal(d, d', n, SecondLine(d), e);
    assert HeadersOf(d') == HeadersOf(d);
    LengthLocal(d, d', n, HeadersOf(d), e);
    CloseLocal(d, d', n, HeadersOf(d), e);
  }

  lemma LengthLocal(d: string, d': string, n: nat, hs: seq<Header>, e: nat)
    requires SameStart(d, d', n) && At(d, e, BLOCK_END) && e + 4 <= n
    requires forall h :: h in hs ==> h.key + h.keyLen < h.value && h.value + h.valueLen <= e
    ensures FirstWith(d', hs, "Content-Length") == FirstWith(d, hs, "Content-Length")
    ensures var i := FirstWith(d, hs, "Content-Length");
            i < |hs| ==> && NotBlank(d', hs[i].value, e) == NotBlank(d, hs[i].value, e)
                         && (NotBlank(d, hs[i].value, e) ==> ContentLength(d', hs) == ContentLength(d, hs))
    ensures FirstWith(d, hs, "Content-Length") == |hs| ==> ContentLength(d', hs) == ContentLength(d, hs) == 0
  {
    hide FirstWith, Atoi;
    FirstLocal(d, d', n, hs, "Content-Length");
    var i := FirstWith(d, hs, "Content-Length");
    if i < |hs| {
      var v := hs[i].value;
      assert hs[i] in hs;
      forall j | v <= j < e ensures d[j] == d'[j] { SameChar(d, d', n, j); }
      assert d[e] == d[e..e + 4][0] == '\r';
      if NotBlank(d, v, e) { AtoiLocal(d, d', n, v, e); }
    }
  }

  lemma CloseLocal(d: string, d': string, n: nat, hs: seq<Header>, e: nat)
    requires SameStart(d, d', n) && At(d, e, BLOCK_END) && e + 4 <= n
    requires forall h :: h in hs ==> h.key + h.keyLen < h.value && h.value + h.valueLen <= e
    ensures ConnectionClose(d', hs) == ConnectionClose(d, hs)
  {
    SameAt(d, d', n, e, BLOCK_END);
    forall i | 0 <= i < |hs| ensures Closing(d', hs[i]) == Closing(d, hs[i]) {
      var h := hs[i];
      assert h in hs;
      if h.keyLen == |"Connection"| { TextLocal(d, d', n, h.key, "Connection"); }
      CloseWithin(d, h.value, e);
      CloseWithin(d', h.value, e);
      if h.value + 5 <= n { TextLocal(d, d', n, h.value, "close"); }
    }
  }

  /** The word `close` does not run over the end of the headers. */
  lemma CloseWithin(d: string, v: nat, e: nat)
    requires At(d, e, BLOCK_END) && v <= e
    ensures SameText(d, v, "close") ==> v + 5 <= e
  {
    if e < v + 5 {
      assert d[e] == d[e..e + 4][0] == '\r';
      assert Lower(d[v + (e - v)]) != Lower("close"[e - v]);
    }
  }

  /** No header block ends inside the common part, seen from the part itself. */
  lemma NoBlockLocal(d: string, v: string)
    requires v <= d && (BlockEnd(d) < 0 || BlockEnd(d) + 4 > |v|)
    ensures BlockEnd(v) < 0
  {
    if BlockEnd(v) >= 0 {
      assert v[..|v|] == d[..|v|];
      StrStrLocal(v, d, |v|, 0, BLOCK_END);
    }
  }

  // ---- Frames ----

  /** What stands at the front of a stream: not yet a whole frame, a frame of that size, or neither. */
  datatype Frame = Wait | Illegal | Packet(size: nat)

  /** `(int)(headerSize + contentLength)`. */
  function Wrap(n: int): (r: int)
    ensures -0x8000_0000 <= r < 0x8000_0000
  {
    (n + 0x8000_0000) % 0x1_0000_0000 - 0x8000_0000
  }

  /** The decision `SplitHttpPacket` takes about a buffer whose first `n` bytes have been received. */
  function Decide(d: string, n: nat, max: nat): Frame {
    var e := BlockEnd(d);
    if e < 0 then Wait else
      var len := ContentLength(d, HeadersOf(d));
      var size := Wrap(e + 4 + len);
      if len < 0 || size <= 0 || size > max then Illegal
      else if n < size then Wait
      else Packet(size)
  }

  /** The frame at the front of the stream `v`: a header block and as many bytes as its headers announce. */
  function First(v: string, max: nat): (f: Frame)
    ensures f.Packet? ==> 0 < f.size <= |v| && f.size <= max
  {
    var e := BlockEnd(v);
    if e < 0 then Wait else
      var len := ContentLength(v, HeadersOf(v));
      if len < 0 || e + 4 + len > max then Illegal
      else if |v| < e + 4 + len then Wait
      else Packet(e + 4 + len)
  }

  /** The header block at the front of `v`, if it is whole, gives its length. */
  predicate Given(v: string) {
    BlockEnd(v) >= 0 ==> LengthGiven(v)
  }

  /** Every frame of the stream gives its length. */
  predicate Sound(t: string, max: nat)
    decreases |t|
  {
    Given(t) && (First(t, max).Packet? ==> Sound(t[First(t, max).size..], max))
  }

  /** The bytes that were not received take part in the decision: they complete a header block that is not legal. */
  predicate StaleIllegal(d: string, n: nat, max: nat) {
    var e := BlockEnd(d);
    e >= 0 && e + 4 > n && (ContentLength(d, HeadersOf(d)) < 0 || e + 4 + ContentLength(d, HeadersOf(d)) > max)
  }

  /** The decision is that for the received bytes alone, except when stale bytes complete an illegal block;
      then it is an error where it should be to wait.  It is never another frame. */
  lemma DecideIff(d: string, n: nat, max: nat)
    requires n <= |d| <= max + 1 < 0x8000_0000 && Given(d[..n])
    ensures Decide(d, n, max) == First(d[..n], max) <==> !StaleIllegal(d, n, max)
    ensures StaleIllegal(d, n, max) ==> Decide(d, n, max) == Illegal && First(d[..n], max) == Wait
  {
    hide BlockEnd, ContentLength, Wrap, At;
    var v, e := d[..n], BlockEnd(d);
    if e >= 0 { BlockFits(d); WrapIs(e + 4 + ContentLength(d, HeadersOf(d))); }
    if e < 0 || e + 4 > n {
      NoBlockLocal(d, v);
    } else {
      assert v[..n] == d[..n];
      NoBlockBack(v, d, n);
      BlockLocal(v, d, n);
    }
  }

  lemma WrapIs(n: int)
    ensures 0 <= n < 0x1_0000_0000 ==> Wrap(n) == if n < 0x8000_0000 then n else n - 0x1_0000_0000
  {
  }

  lemma BlockFits(d: string)
    requires BlockEnd(d) >= 0
    ensures BlockEnd(d) + 4 <= |d|
    ensures -0x8000_0000 <= ContentLength(d, HeadersOf(d)) <= 0x7fff_ffff
  {
    hide Atoi;
  }

  lemma NoBlockBack(v: string, d: string, n: nat)
    requires SameStart(v, d, n) && n == |v| && BlockEnd(d) >= 0 && BlockEnd(d) + 4 <= n
    ensures BlockEnd(v) == BlockEnd(d)
  {
    StrStrLocal(d, v, n, 0, BLOCK_END);
  }

  /** The headers ask for the connection to be closed. */
  predicate Closes(v: string) {
    BlockEnd(v) >= 0 && ConnectionClose(v, HeadersOf(v))
  }

  /** A frame, or an illegal block, stays what it is when more bytes arrive. */
  lemma FirstStays(v: string, t: string, max: nat)
    requires v <= t && Given(t)
    ensures Given(v)
    ensures First(v, max) != Wait ==> First(t, max) == First(v, max)
    ensures BlockEnd(v) >= 0 ==> Closes(t) == Closes(v)
  {
    hide BlockEnd, ContentLength;
    if BlockEnd(v) >= 0 {
      assert v[..|v|] == t[..|v|];
      BlockLocal(v, t, |v|);
    }
  }

  // ---- Splitting a stream ----

  /** The frames at the front of a stream. */
  function Packets(t: string, max: nat): (ps: seq<string>)
    decreases |t|
  {
    var f := First(t, max);
    if f.Packet? then [t[..f.size]] + Packets(t[f.size..], max) else []
  }

  /** What follows them. */
  function Rest(t: string, max: nat): string
    decreases |t|
  {
    var f := First(t, max);
    if f.Packet? then Rest(t[f.size..], max) else t
  }

  /** No byte is lost, doubled or moved. */
  lemma {:induction false} Conserved(t: string, max: nat)
    ensures Concat(Packets(t, max)) + Rest(t, max) == t
    decreases |t|
  {
    hide First;
    var f := First(t, max);
    if f.Packet? {
      var u := t[f.size..];
      Conserved(u, max);
      ConcatFirst(t[..f.size], Packets(u, max), Rest(u, max));
    }
  }

  lemma ConcatFirst(p: string, ps: seq<string>, r: string)
    ensures Concat([p] + ps) + r == p + (Concat(ps) + r)
  {
    assert ([p] + ps)[1..] == ps;
  }

  lemma {:induction false} RestWaits(t: string, max: nat)
    ensures !First(Rest(t, max), max).Packet?
    decreases |t|
  {
    hide First;
    var f := First(t, max);
    if f.Packet? { RestWaits(t[f.size..], max); }
  }

  /** Splitting a stream in two steps, the second with what the first left over. */
  lemma {:induction false} SplitLater(t: string, x: string, max: nat)
    requires Sound(t + x, max)
    ensures Sound(Rest(t, max) + x, max)
    ensures Packets(t + x, max) == Packets(t, max) + Packets(Rest(t, max) + x, max)
    ensures Rest(t + x, max) == Rest(Rest(t, max) + x, max)
    decreases |t|
  {
    hide First, Given;
    FirstStays(t, t + x, max);
    var f := First(t, max);
    if f.Packet? {
      var u := t[f.size..];
      assert (t + x)[f.size..] == u + x && (t + x)[..f.size] == t[..f.size];
      SplitLater(u, x, max);
    }
  }

  /** What has arrived of a sound stream is sound. */
  lemma {:induction false} SoundPrefix(t: string, x: string, max: nat)
    requires Sound(t + x, max)
    ensures Sound(t, max)
    decreases |t|
  {
    hide First, Given;
    FirstStays(t, t + x, max);
    var f := First(t, max);
    if f.Packet? {
      assert (t + x)[f.size..] == t[f.size..] + x;
      SoundPrefix(t[f.size..], x, max);
    }
  }

  /** The stream as far as it has been received: the packets handed over, and the bytes kept. */
  datatype Receiver = Receiver(delivered: seq<string>, kept: string)

  /** What one call does, when it reports no error. */
  function Take(r: Receiver, chunk: string, max: nat): Receiver {
    Receiver(r.delivered + Packets(r.kept + chunk, max), Rest(r.kept + chunk, max))
  }

  /** What a run of calls does. */
  function Feed(r: Receiver, chunks: seq<string>, max: nat): Receiver
    decreases |chunks|
  {
    if chunks == [] then r else Feed(Take(r, chunks[0], max), chunks[1..], max)
  }

  lemma ConcatNone(chunks: seq<string>)
    requires chunks == []
    ensures Concat(chunks) == "" && forall k: string :: k + Concat(chunks) == k
  {
  }

  lemma ConcatNext(k: string, chunks: seq<string>)
    requires chunks != []
    ensures k + Concat(chunks) == (k + chunks[0]) + Concat(chunks[1..])
  {
    hide Concat;
    assert Concat(chunks) == chunks[0] + Concat(chunks[1..]) by { ConcatHead(chunks); }
  }

  lemma ConcatHead(chunks: seq<string>)
    requires chunks != []
    ensures Concat(chunks) == chunks[0] + Concat(chunks[1..])
  {
  }

  lemma NoPacket(t: string, max: nat)
    requires !First(t, max).Packet?
    ensures Packets(t, max) == [] && Rest(t, max) == t
  {
  }

  /** However a stream is cut into chunks, its frames are delivered. */
  lemma {:induction false} FeedIsSplit(r: Receiver, chunks: seq<string>, max: nat)
    requires Sound(r.kept + Concat(chunks), max) && !First(r.kept, max).Packet?
    ensures var t := r.kept + Concat(chunks);
            Feed(r, chunks, max) == Receiver(r.delivered + Packets(t, max), Rest(t, max))
    decreases |chunks|
  {
    hide First, Sound, Packets, Rest, Concat;
    if chunks == [] {
      ConcatNone(chunks);
      NoPacket(r.kept, max);
    } else {
      var c, x := chunks[0], Concat(chunks[1..]);
      ConcatNext(r.kept, chunks);
      SplitLater(r.kept + c, x, max);
      RestWaits(r.kept + c, max);
      FeedIsSplit(Take(r, c, max), chunks[1..], max);
    }
  }

  /** Two ways to cut the same stream into chunks deliver the same packets and keep the same bytes, and what
      is delivered and kept is the stream. */
  lemma ChunksDoNotMatter(cs: seq<string>, ds: seq<string>, max: nat)
    requires Concat(cs) == Concat(ds) && Sound(Concat(cs), max)
    ensures Feed(Receiver([], ""), cs, max) == Feed(Receiver([], ""), ds, max)
    ensures var r := Feed(Receiver([], ""), cs, max); Concat(r.delivered) + r.kept == Concat(cs)
  {
    hide First, Sound, Feed;
    var t := Concat(cs);
    assert "" + t == t;
    NothingWaits(max);
    FeedIsSplit(Receiver([], ""), cs, max);
    FeedIsSplit(Receiver([], ""), ds, max);
    Conserved(t, max);
    assert [] + Packets(t, max) == Packets(t, max);
  }

  lemma NothingWaits(max: nat)
    ensures First("", max) == Wait
  {
  }

  /** What is delivered is one frame: its own headers announce its size. */
  lemma {:induction false} PacketsAreFrames(t: string, max: nat, p: string)
    requires Sound(t, max) && p in Packets(t, max)
    ensures First(p, max) == Packet(|p|)
    decreases |t|
  {
    hide First, Given;
    var f := First(t, max);
    if p == t[..f.size] {
      FrameAlone(t, max);
    } else {
      PacketsAreFrames(t[f.size..], max, p);
    }
  }

  lemma FrameAlone(t: string, max: nat)
    requires Given(t) && First(t, max).Packet?
    ensures var n := First(t, max).size; First(t[..n], max) == Packet(n)
  {
    hide BlockEnd, ContentLength;
    var n := First(t, max).size;
    var v := t[..n];
    assert BlockEnd(t) + 4 <= n by { LengthNotNegative(t, max); }
    assert v[..n] == t[..n];
    BlockLocal(t, v, n);
  }

  lemma LengthNotNegative(t: string, max: nat)
    requires First(t, max).Packet?
    ensures BlockEnd(t) + 4 <= First(t, max).size
  {
  }

  // ---- When a header block gives its length ----

  /** The length that a header block announces does not depend on what follows it just when the value of its
      `Content-Length` header is not left blank. */
  lemma GivenIff(b: string)
    requires BlockEnd(b) >= 0 && BlockEnd(b) + 4 == |b|
    ensures LengthGiven(b) <==> forall x :: SameLength(b, b + x)
  {
    hide BlockEnd, ContentLength, LengthGiven, NotBlank;
    forall x ensures BlockEnd(b + x) == BlockEnd(b) && (LengthGiven(b) ==> SameLength(b, b + x)) {
      assert b[..|b|] == (b + x)[..|b|];
      BlockLocal(b, b + x, |b|);
    }
    if !LengthGiven(b) {
      assert SameStart(b, b + "1", |b|) by { assert b[..|b|] == (b + "1")[..|b|]; }
      BlankReadsOn(b);
      assert !SameLength(b, b + "1");
    }
  }

  predicate SameLength(b: string, d: string) {
    BlockEnd(b) >= 0 && BlockEnd(d) >= 0 && ContentLength(d, HeadersOf(d)) == ContentLength(b, HeadersOf(b))
  }

  lemma BlankReadsOn(b: string)
    requires BlockEnd(b) >= 0 && BlockEnd(b) + 4 == |b| && !LengthGiven(b)
    ensures BlockEnd(b + "1") == BlockEnd(b) && ContentLength(b + "1", HeadersOf(b + "1")) == 1 && ContentLength(b, HeadersOf(b)) == 0
  {
    hide BlockEnd, HeaderLines, FirstWith, Atoi;
    var d, e, n := b + "1", BlockEnd(b), |b|;
    assert b[..n] == d[..n];
    BlockLocal(b, d, n);
    var hs := HeadersOf(b);
    LinesLocal(b, d, n, SecondLine(b), e);
    LengthLocal(b, d, n, hs, e);
    var i := FirstWith(b, hs, "Content-Length");
    assert hs[i] in hs;
    BlankAtoi(b, hs[i].value, e);
  }

  lemma BlankAtoi(b: string, v: nat, e: nat)
    requires v <= e && e + 4 == |b| && At(b, e, BLOCK_END) && !NotBlank(b, v, e)
    ensures Atoi(b, v) == 0 && Atoi(b + "1", v) == 1
  {
    var n, d := |b|, b + "1";
    forall k | v <= k < n ensures Space(b[k]) && d[k] == b[k] {
      if k >= e { assert b[k] == b[e..e + 4][k - e]; }
    }
    assert d[n] == '1';
    assert SkipSpace(b, v) == n && SkipSpace(d, v) == n;
    assert NumberStart(d, v) == n && DigitsEnd(d, n) == n + 1;
    assert d[n..n + 1] == "1" && "1"[..0] == "";
    assert Number("1") == Number("") * 10 + 1;
  }

  /** Stale bytes can turn a wait into an error: one byte has been received, and what an earlier packet left
      behind it completes a header block that announces too long a body. */
  lemma StaleError()
    ensures |STALE| == 24 && First(STALE[..1], 23) == Wait && Decide(STALE, 1, 23) == Illegal && Given(STALE[..1])
  {
    hide StrStr, HeaderLines, ContentLength;
    StaleBlock();
    StaleLength();
    WrapIs(32);
    var v := STALE[..1];
    assert v == "a" && BlockEnd(v) < 0 by { NotFound(v); }
  }

  const STALE := "a\r\nContent-Length:9\r\n\r\n\0"

  lemma NotFound(v: string)
    requires v == "a"
    ensures BlockEnd(v) < 0
  {
    assert StrStr(v, 0, BLOCK_END) == StrStr(v, 1, BLOCK_END) == -1;
  }

  lemma StaleBlock()
    ensures BlockEnd(STALE) == 19 && SecondLine(STALE) == 3 && StrStr(STALE, 3, LINE_END) == 19
  {
    hide StrStr;
    var d := STALE;
    assert d[1] == '\r' && d[2] == '\n' && d[19] == '\r' && d[20] == '\n' && d[21] == '\r' && d[22] == '\n';
    assert d[1..3] == LINE_END && d[19..21] == LINE_END && d[19..23] == BLOCK_END;
    forall k | 0 <= k < 19 ensures d[k] != NUL && !At(d, k, BLOCK_END) && (k != 1 ==> !At(d, k, LINE_END)) {
      NotAt(d, k, BLOCK_END, if k == 1 then 2 else 0);
      if k != 1 { NotAt(d, k, LINE_END, 0); }
    }
    StrStrIs(d, 0, BLOCK_END, 19);
    StrStrIs(d, 0, LINE_END, 1);
    StrStrIs(d, 3, LINE_END, 19);
  }

  lemma StaleLength()
    ensures BlockEnd(STALE) >= 0 && ContentLength(STALE, HeadersOf(STALE)) == 9
  {
    hide StrStr, Atoi, MemChr, KeyEqual, BlockEnd, SecondLine;
    StaleBlock();
    StaleLine();
    assert HeaderLines(STALE, 21, 19) == [];
    assert HeadersOf(STALE) == [Header(3, 14, 18, 1)];
    StaleNumber();
  }

  lemma StaleLine()
    ensures LineHeader(STALE, 3, 19) == [Header(3, 14, 18, 1)] && KeyEqual(STALE, Header(3, 14, 18, 1), "Content-Length")
  {
    hide MemChr;
    var d := STALE;
    MemChrIs(d, 3, 19, ':', 17);
    assert d[3..17] == "Content-Length";
    forall k | 0 <= k < 14 ensures Lower(d[3 + k]) == Lower("Content-Length"[k]) { assert d[3 + k] == d[3..17][k]; }
  }

  lemma {:induction false} MemChrIs(d: string, i: nat, n: nat, c: char, r: nat)
    requires i <= r < n <= |d| && d[r] == c && c !in d[i..r]
    ensures MemChr(d, i, n, c) == r
    decreases r - i
  {
    if i < r {
      assert d[i] == d[i..r][0] && forall x :: x in d[i + 1..r] ==> x in d[i..r];
      MemChrIs(d, i + 1, n, c, r);
    }
  }

  lemma StaleNumber()
    ensures Atoi(STALE, 18) == 9
  {
    var d := STALE;
    assert NumberStart(d, 18) == 18 && DigitsEnd(d, 18) == 19;
    assert d[18..19] == "9" && "9"[..0] == "";
    assert Number("9") == Number("") * 10 + 9;
  }

  lemma NotAt(d: string, k: nat, x: string, j: nat)
    requires j < |x| && (k + j < |d| ==> d[k + j] != x[j])
    ensures !At(d, k, x)
  {
    if k + |x| <= |d| { assert d[k..k + |x|][j] == d[k + j]; }
  }

  lemma {:induction false} StrStrIs(d: string, i: nat, x: string, r: nat)
    requires i <= r && At(d, r, x) && x != "" && forall k :: i <= k < r ==> d[k] != NUL && !At(d, k, x)
    ensures StrStr(d, i, x) == r
    decreases r - i
  {
    if i < r { StrStrIs(d, i + 1, x, r); }
  }
}
