/** The UTF-8 and UTF-16 codecs of Baselib/Markup.cpp.  A character stands for one byte; a UTF-16 unit
    is a number below 0x10000.  The masks and shifts of the source are written as remainders and quotients. */
module Utf8 {

  import opened Chars

  function Byte(n: int): (c: char)
    requires 0 <= n < 256
  {
    n as char
  }

  /** `EncodeCharUTF8`. */
  function Encode(u: int): (s: string)
    ensures 1 <= |s| <= 4
  {
    if 0 <= u < 0x80 then [Byte(u)]
    else if 0 <= u < 0x800 then [Byte(u / 64 % 32 + 0xc0), Byte(u % 64 + 0x80)]
    else if 0 <= u < 0x10000 then [Byte(u / 4096 % 16 + 0xe0), Byte(u / 64 % 64 + 0x80), Byte(u % 64 + 0x80)]
    else [Byte(u / 262144 % 8 + 0xf0), Byte(u / 4096 % 64 + 0x80), Byte(u / 64 % 64 + 0x80), Byte(u % 64 + 0x80)]
  }

  /** A code point, or -1, and where reading goes on. */
  datatype Point = Point(u: int, next: nat)

  predicate Bit(n: int, b: int)
    requires b > 0
  {
    n / b % 2 == 1
  }

  /** The `k` continuation bytes from `i` on, of which only the top bit is looked at. */
  function More(s: string, i: nat, k: nat, u: int): (p: Point)
    requires i <= |s|
    ensures i <= p.next <= |s|
    decreases k
  {
    if k == 0 then Point(u, i)
    else if i == |s| || !Bit(s[i] as int, 0x80) then Point(-1, i)
    else More(s, i + 1, k - 1, u * 64 + s[i] as int % 64)
  }

  /** `DecodeCharUTF8` of a text that ends where `s` does. */
  function Decode(s: string, i: nat): (p: Point)
    requires i < |s|
    ensures i < p.next <= |s|
  {
    var n := s[i] as int;
    if !Bit(n, 0x80) then Point(n, i + 1)
    else if !Bit(n, 0x20) then More(s, i + 1, 1, n % 32)
    else if !Bit(n, 0x10) then More(s, i + 1, 2, n % 16)
    else if !Bit(n, 0x08) then More(s, i + 1, 3, n % 8)
    else Point(-1, i + 1)
  }

  /** `EncodeCharUTF16`. */
  function Encode16(u: int): (w: seq<nat>)
    ensures 1 <= |w| <= 2
  {
    if 0 <= u < 0x10000 then [u]
    else [(u - 0x10000) / 1024 % 1024 + 0xd800, (u - 0x10000) % 1024 + 0xdc00]
  }

  /** `DecodeCharUTF16` of a text that ends where `w` does.  Any surrogate is taken for the first of a pair. */
  function Decode16(w: seq<nat>, i: nat): (p: Point)
    requires i < |w|
    ensures i < p.next <= |w|
  {
    if w[i] / 2048 * 2048 != 0xd800 then Point(w[i], i + 1)
    else if i + 1 == |w| || w[i + 1] == 0 then Point(-1, i + 1)
    else Point(w[i] % 1024 * 1024 + w[i + 1] % 1024 + 0x10000, i + 2)
  }

  // ---- One code point ----

  /** A code point of section 3 of RFC 3629. */
  predicate CodePoint(u: int) {
    0 <= u < 0x110000
  }

  predicate Surrogate(u: int) {
    0xd800 <= u < 0xe000
  }

  // ---- The standards ----

  /** A byte that begins with the bits of `lead`, of which `n` values are free. */
  predicate InByte(c: char, lead: int, n: int) {
    lead <= c as int < lead + n
  }

  /** Section 3 of RFC 3629: how many bytes a code point takes, the bits that mark them, and the bits left over, which
      spell the code point from the highest to the lowest. */
  predicate Utf8Form(u: int, s: string) {
    if u < 0x80 then |s| == 1 && s[0] as int == u
    else if u < 0x800 then
      |s| == 2 && InByte(s[0], 0xc0, 0x20) && InByte(s[1], 0x80, 0x40) && u == (s[0] as int - 0xc0) * 0x40 + (s[1] as int - 0x80)
    else if u < 0x1_0000 then
      && |s| == 3 && InByte(s[0], 0xe0, 0x10) && InByte(s[1], 0x80, 0x40) && InByte(s[2], 0x80, 0x40)
      && u == ((s[0] as int - 0xe0) * 0x40 + (s[1] as int - 0x80)) * 0x40 + (s[2] as int - 0x80)
    else
      && |s| == 4 && InByte(s[0], 0xf0, 0x08) && InByte(s[1], 0x80, 0x40) && InByte(s[2], 0x80, 0x40) && InByte(s[3], 0x80, 0x40)
      && u == (((s[0] as int - 0xf0) * 0x40 + (s[1] as int - 0x80)) * 0x40 + (s[2] as int - 0x80)) * 0x40 + (s[3] as int - 0x80)
  }

  /** Section 2.1 of RFC 2781: a code point from 0x10000 on, less 0x10000, is spelt by the ten free bits of a first unit
      from 0xd800 on and those of a second from 0xdc00 on. */
  predicate Utf16Form(u: int, w: seq<nat>) {
    if u < 0x1_0000 then w == [u]
    else |w| == 2 && 0xd800 <= w[0] <= 0xdbff && 0xdc00 <= w[1] <= 0xdfff && u == 0x1_0000 + (w[0] - 0xd800) * 0x400 + (w[1] - 0xdc00)
  }

  /** Exactly the bytes that the standard prescribes. */
  lemma EncodeIff(u: int, s: string)
    requires CodePoint(u)
    ensures Utf8Form(u, s) <==> s == Encode(u)
  {
    SixBits(u);
    if Utf8Form(u, s) { FormOnce(u, s, Encode(u)); }
  }

  lemma SixBits(u: int)
    requires CodePoint(u)
    ensures Utf8Form(u, Encode(u))
  {
    Sixes(u);
    if u < 0x800 {
      assert u / 64 % 32 == u / 64;
    } else if u < 0x1_0000 {
      assert u / 4096 % 16 == u / 4096;
    } else {
      assert u / 262144 % 8 == u / 262144;
    }
  }

  lemma FormOnce(u: int, s: string, t: string)
    requires CodePoint(u) && Utf8Form(u, s) && Utf8Form(u, t)
    ensures s == t
  {
    assert |s| == |t|;
    assert s[0] == t[0];
  }

  /** Exactly the units that the standard prescribes. */
  lemma Encode16Iff(u: int, w: seq<nat>)
    requires CodePoint(u)
    ensures Utf16Form(u, w) <==> w == Encode16(u)
  {
    if u >= 0x1_0000 {
      var v := u - 0x1_0000;
      assert v == v / 1024 * 1024 + v % 1024;
    }
  }

  /** A continuation byte gives its six bits. */
  lemma MoreStep(s: string, i: nat, k: nat, u: int, x: int)
    requires i < |s| && 0 < k && 0 <= x < 64 && s[i] == Byte(x + 0x80)
    ensures More(s, i, k, u) == More(s, i + 1, k - 1, u * 64 + x)
  {
    assert s[i] as int == x + 0x80;
  }

  /** The lead byte of each length. */
  lemma LeadBits(x: int)
    ensures 0 <= x < 0x80 ==> !Bit(x, 0x80)
    ensures 0 <= x < 32 ==> Bit(x + 0xc0, 0x80) && !Bit(x + 0xc0, 0x20) && (x + 0xc0) % 32 == x
    ensures 0 <= x < 16 ==> Bit(x + 0xe0, 0x80) && Bit(x + 0xe0, 0x20) && !Bit(x + 0xe0, 0x10) && (x + 0xe0) % 16 == x
    ensures 0 <= x < 8 ==> Bit(x + 0xf0, 0x80) && Bit(x + 0xf0, 0x20) && Bit(x + 0xf0, 0x10) && !Bit(x + 0xf0, 0x08) && (x + 0xf0) % 8 == x
  {
  }

  /** The bits of a code point, six at a time. */
  lemma Sixes(u: int)
    requires CodePoint(u)
    ensures u < 0x800 ==> u / 64 % 32 == u / 64
    ensures u < 0x10000 ==> u / 4096 % 16 == u / 4096
    ensures u / 262144 % 8 == u / 262144
    ensures u / 64 * 64 + u % 64 == u && u / 4096 * 64 + u / 64 % 64 == u / 64 && u / 262144 * 64 + u / 4096 % 64 == u / 4096
  {
  }

  /** Decoding undoes encoding, wherever it stands. */
  lemma DecodeOfEncode(s: string, i: nat, u: int)
    requires CodePoint(u) && i + |Encode(u)| <= |s| && s[i..i + |Encode(u)|] == Encode(u)
    ensures Decode(s, i) == Point(u, i + |Encode(u)|)
  {
    hide More, Bit;
    var e := Encode(u);
    forall k | i <= k < i + |e| ensures s[k] == e[k - i] { assert s[k] == s[i..i + |e|][k - i]; }
    Sixes(u);
    MoreDone(s, i + |e|, u);
    if u < 0x80 {
      LeadBits(u);
    } else if u < 0x800 {
      LeadBits(u / 64);
      MoreStep(s, i + 1, 1, u / 64, u % 64);
    } else if u < 0x10000 {
      LeadBits(u / 4096);
      MoreStep(s, i + 1, 2, u / 4096, u / 64 % 64);
      MoreStep(s, i + 2, 1, u / 64, u % 64);
    } else {
      LeadBits(u / 262144);
      MoreStep(s, i + 1, 3, u / 262144, u / 4096 % 64);
      MoreStep(s, i + 2, 2, u / 4096, u / 64 % 64);
      MoreStep(s, i + 3, 1, u / 64, u % 64);
    }
  }

  lemma MoreDone(s: string, i: nat, u: int)
    requires i <= |s|
    ensures More(s, i, 0, u) == Point(u, i)
  {
  }

  lemma DecodeOfEncode16(w: seq<nat>, i: nat, u: int)
    requires CodePoint(u) && !Surrogate(u) && i + |Encode16(u)| <= |w| && w[i..i + |Encode16(u)|] == Encode16(u)
    ensures Decode16(w, i) == Point(u, i + |Encode16(u)|)
  {
    var e := Encode16(u);
    assert w[i] == w[i..i + |e|][0] == e[0];
    if u >= 0x10000 { assert w[i + 1] == w[i..i + |e|][1] == e[1]; }
  }

  // ---- Texts ----

  function Text8(ps: seq<int>): string {
    if ps == [] then "" else Encode(ps[0]) + Text8(ps[1..])
  }

  function Text16(ps: seq<int>): seq<nat> {
    if ps == [] then [] else Encode16(ps[0]) + Text16(ps[1..])
  }

  /** Unicode scalar values, without the one that ends a text. */
  predicate Scalars(ps: seq<int>) {
    forall i :: 0 <= i < |ps| ==> CodePoint(ps[i]) && !Surrogate(ps[i]) && ps[i] != 0
  }

  /** What stands for a unit that cannot be decoded. */
  function OrMark(u: int): int {
    if u == -1 then '?' as int else u
  }

  /** What `UTF16To8` writes for each code point from `i` on. */
  function Units(w: seq<nat>, i: nat): seq<string>
    decreases |w| - i
  {
    if i >= |w| || w[i] == 0 then [] else
      var p := Decode16(w, i);
      [Encode(OrMark(p.u))] + Units(w, p.next)
  }

  /** What `UTF8To16` writes for the text from `i` on. */
  function To16(s: string, i: nat): seq<nat>
    decreases |s| - i
  {
    if i >= |s| then [] else
      var p := Decode(s, i);
      if p.u == 0 then [] else Encode16(OrMark(p.u)) + To16(s, p.next)
  }

  /** How far it reads: to the end, or past the first code point that is zero. */
  function Read(s: string, i: nat): (n: nat)
    decreases |s| - i
  {
    if i >= |s| then i else
      var p := Decode(s, i);
      if p.u == 0 then p.next else Read(s, p.next)
  }

  lemma TwoParts<T>(s: seq<T>, i: nat, e: seq<T>, r: seq<T>)
    requires i <= |s| && s[i..] == e + r
    ensures i + |e| <= |s| && s[i..i + |e|] == e && s[i + |e|..] == r
  {
    assert s[i..i + |e|] == s[i..][..|e|] && s[i + |e|..] == s[i..][|e|..];
  }

  lemma FirstUnit(u: int)
    requires u != 0
    ensures Encode16(u)[0] != 0
  {
  }

  /** Whether it reads a code point that is zero. */
  predicate ZeroRead(s: string, i: nat)
    decreases |s| - i
  {
    i < |s| && (Decode(s, i).u == 0 || ZeroRead(s, Decode(s, i).next))
  }

  lemma {:induction false} UnitsOfText(w: seq<nat>, i: nat, ps: seq<int>)
    requires Scalars(ps) && i <= |w| && w[i..] == Text16(ps)
    ensures Concat(Units(w, i)) == Text8(ps)
    decreases |ps|
  {
    hide Encode, Decode16, Encode16;
    if ps != [] {
      var e := Encode16(ps[0]);
      TwoParts(w, i, e, Text16(ps[1..]));
      assert w[i] == w[i..i + |e|][0] == e[0];
      FirstUnit(ps[0]);
      DecodeOfEncode16(w, i, ps[0]);
      UnitsOfText(w, i + |e|, ps[1..]);
      var us := Units(w, i);
      assert us[1..] == Units(w, i + |e|);
    }
  }

  lemma {:induction false} To16OfText(s: string, i: nat, ps: seq<int>)
    requires Scalars(ps) && i <= |s| && s[i..] == Text8(ps)
    ensures To16(s, i) == Text16(ps) && Read(s, i) == |s|
    decreases |ps|
  {
    hide Encode, Decode, Encode16;
    if ps != [] {
      var e := Encode(ps[0]);
      TwoParts(s, i, e, Text8(ps[1..]));
      DecodeOfEncode(s, i, ps[0]);
      To16OfText(s, i + |e|, ps[1..]);
    }
  }

  /** UTF-16 that encodes scalar values: every surrogate is in a pair, and nothing ends the text early. */
  ghost predicate WellFormed16(w: seq<nat>) {
    exists ps :: Scalars(ps) && w == Text16(ps)
  }

  /** `UTF8To16` undoes `UTF16To8`. */
  lemma RoundTrip16(w: seq<nat>)
    requires WellFormed16(w)
    ensures To16(Concat(Units(w, 0)), 0) == w
  {
    var ps :| Scalars(ps) && w == Text16(ps);
    assert w[0..] == w;
    UnitsOfText(w, 0, ps);
    var s := Concat(Units(w, 0));
    assert s[0..] == s;
    To16OfText(s, 0, ps);
  }

  /** And the other way, for UTF-8 that encodes scalar values. */
  lemma RoundTrip8(ps: seq<int>)
    requires Scalars(ps)
    ensures Concat(Units(To16(Text8(ps), 0), 0)) == Text8(ps)
  {
    var s := Text8(ps);
    assert s[0..] == s;
    To16OfText(s, 0, ps);
    var w := To16(s, 0);
    assert w[0..] == w;
    UnitsOfText(w, 0, ps);
  }

  // ---- The bounded conversion ----

  /** `k` is the number of leading pieces that fit into `count` bytes. */
  predicate Longest(units: seq<string>, count: nat, k: nat) {
    k <= |units| && |Concat(units[..k])| <= count && (k < |units| ==> |Concat(units[..k + 1])| > count)
  }

  lemma {:induction false} ConcatLast(units: seq<string>, k: nat)
    requires k < |units|
    ensures Concat(units[..k + 1]) == Concat(units[..k]) + units[k]
    decreases k
  {
    var a, b := units[..k + 1], units[..k];
    if k == 0 {
      assert a == [units[0]] && b == [];
      assert Concat(a) == units[0] + Concat([]);
    } else {
      ConcatLast(units[1..], k - 1);
      assert a[1..] == units[1..][..k] && b[1..] == units[1..][..k - 1] && a[0] == b[0] == units[0];
    }
  }

  lemma UnitsStep(w: seq<nat>, i: nat, done: seq<string>)
    requires i < |w| && w[i] != 0
    ensures var p := Decode16(w, i);
            done + Units(w, i) == (done + [Encode(OrMark(p.u))]) + Units(w, p.next)
  {
    hide Encode, Decode16;
  }

  /** `UTF16To8` into a buffer of `nUTF8Count` bytes, or only counting when there is none.  What is written are the
      leading code points that fit, all of each; if all fit and there is room, a zero byte follows. */
  method UTF16To8(buf: array?<char>, w: seq<nat>, nUTF8Count: nat) returns (n: nat, ghost k: nat)
    requires buf != null ==> nUTF8Count <= buf.Length
    modifies buf
    ensures buf == null ==> n == |Concat(Units(w, 0))|
    ensures buf != null ==> Longest(Units(w, 0), nUTF8Count, k) && n <= nUTF8Count && buf[..n] == Concat(Units(w, 0)[..k])
    ensures buf != null && k == |Units(w, 0)| && n < nUTF8Count ==> buf[n] == '\0'
  {
    hide Encode, Decode16, Units;
    var i := 0;
    n := 0;
    k := 0;
    ghost var us := Units(w, 0);
    assert us[..0] + us == us;
    while i < |w| && w[i] != 0
      invariant i <= |w| && k <= |us| && us[..k] + Units(w, i) == us && n == |Concat(us[..k])|
      invariant buf != null ==> n <= nUTF8Count && buf[..n] == Concat(us[..k])
      decreases |w| - i
    {
      var p := Decode16(w, i);
      var e := Encode(OrMark(p.u));
      UnitsStep(w, i, us[..k]);
      assert us[k] == e && us[..k + 1] == us[..k] + [e];
      ConcatLast(us, k);
      if buf != null {
        if n + |e| > nUTF8Count {
          return;
        }
        forall j | 0 <= j < |e| { buf[n + j] := e[j]; }
        assert buf[..n + |e|] == buf[..n] + e;
      }
      n := n + |e|;
      i := p.next;
      k := k + 1;
    }
    NoUnits(w, i);
    assert us[..k] == us;
    if buf != null && n < nUTF8Count {
      buf[n] := '\0';
    }
  }

  lemma NoUnits(w: seq<nat>, i: nat)
    requires i >= |w| || w[i] == 0
    ensures Units(w, i) == []
  {
  }

  /** `UTF8To16` of `s` into a buffer that is large enough, or only counting. */
  method UTF8To16(buf: array?<nat>, s: string) returns (n: nat)
    requires buf != null ==> |To16(s, 0)| < buf.Length
    modifies buf
    ensures buf == null ==> n == |To16(s, 0)|
    ensures buf != null ==> buf[..|To16(s, 0)|] == To16(s, 0)
    ensures buf != null ==> n == Read(s, 0) && (ZeroRead(s, 0) ==> buf[|To16(s, 0)|] == 0)
  {
    hide Encode16, Decode, To16, Read, ZeroRead;
    var pos, len, stop := 0, 0, false;
    ghost var w := To16(s, 0);
    while pos < |s| && !stop
      invariant pos <= |s| && 0 <= len <= |w| && (if stop then len == |w| && pos == Read(s, 0) else w[len..] == To16(s, pos) && Read(s, pos) == Read(s, 0))
      invariant buf != null ==> buf[..len] == w[..len]
      invariant if stop then (buf != null ==> buf[len] == 0) else ZeroRead(s, pos) == ZeroRead(s, 0)
      decreases |s| - pos
    {
      To16Step(s, pos);
      var p := Decode(s, pos);
      pos := p.next;
      if p.u == 0 {
        if buf != null { buf[len] := 0; }
        stop := true;
      } else {
        var e := Encode16(OrMark(p.u));
        assert w == w[..len] + w[len..];
        assert w[len..][..|e|] == e && w[len + |e|..] == w[len..][|e|..];
        if buf != null {
          forall j | 0 <= j < |e| { buf[len + j] := e[j]; }
          assert buf[..len + |e|] == buf[..len] + e;
        }
        len := len + |e|;
      }
    }
    if !stop { To16Done(s, pos); }
    n := if buf == null then len else pos;
  }

  lemma To16Step(s: string, i: nat)
    requires i < |s|
    ensures var p := Decode(s, i);
            && To16(s, i) == (if p.u == 0 then [] else Encode16(OrMark(p.u)) + To16(s, p.next))
            && Read(s, i) == (if p.u == 0 then p.next else Read(s, p.next))
            && ZeroRead(s, i) == (p.u == 0 || ZeroRead(s, p.next))
  {
  }

  lemma To16Done(s: string, i: nat)
    requires i >= |s|
    ensures To16(s, i) == [] && Read(s, i) == i && !ZeroRead(s, i)
  {
  }

  // ---- Telling UTF-8 from other text ----

  /** `ok`, the number of non-ASCII sequences up to the first that is not valid, and whether the text was cut off
      in the middle of one. */
  datatype Detected = Detected(ok: bool, nonAscii: nat, errorAtEnd: bool)

  function Detect(s: string, i: nat, c: nat): Detected
    decreases |s| - i
  {
    if i >= |s| || s[i] == '\0' then Detected(true, c, false)
    else if !Bit(s[i] as int, 0x80) then Detect(s, i + 1, c)
    else
      var p := Decode(s, i);
      if p.u == -1 then Detected(false, c + 1, p.next == |s|) else Detect(s, p.next, c + 1)
  }

  /** `DetectUTF8`. */
  method DetectUTF8(s: string) returns (d: Detected)
    ensures d == Detect(s, 0, 0)
  {
    hide Decode, Bit;
    var i, c := 0, 0;
    while i < |s| && s[i] != '\0'
      invariant i <= |s| && Detect(s, i, c) == Detect(s, 0, 0)
      decreases |s| - i
    {
      if Bit(s[i] as int, 0x80) {
        c := c + 1;
        var p := Decode(s, i);
        if p.u == -1 {
          return Detected(false, c, p.next == |s|);
        }
        i := p.next;
      } else {
        i := i + 1;
      }
    }
    return Detected(true, c, false);
  }

  function NonAscii(ps: seq<int>): nat {
    if ps == [] then 0 else (if ps[0] >= 0x80 then 1 else 0) + NonAscii(ps[1..])
  }

  lemma DetectStep(s: string, i: nat, c: nat, u: int)
    requires CodePoint(u) && u != 0 && i + |Encode(u)| <= |s| && s[i..i + |Encode(u)|] == Encode(u)
    ensures Detect(s, i, c) == Detect(s, i + |Encode(u)|, c + if u >= 0x80 then 1 else 0)
  {
    hide Encode, Decode, Bit;
    assert s[i] == s[i..i + |Encode(u)|][0] == Encode(u)[0];
    DecodeOfEncode(s, i, u);
    LeadByte(u);
  }

  /** Encoded text goes through to whatever follows it. */
  lemma {:induction false} DetectText(s: string, i: nat, c: nat, ps: seq<int>, rest: string)
    requires i <= |s| && s[i..] == Text8(ps) + rest && forall k :: 0 <= k < |ps| ==> CodePoint(ps[k]) && ps[k] != 0
    ensures i + |Text8(ps)| <= |s| && Detect(s, i, c) == Detect(s, i + |Text8(ps)|, c + NonAscii(ps))
    decreases |ps|
  {
    hide Encode, Detect;
    if ps != [] {
      var e, r := Encode(ps[0]), Text8(ps[1..]) + rest;
      assert s[i..] == e + r;
      TwoParts(s, i, e, r);
      DetectStep(s, i, c, ps[0]);
      DetectText(s, i + |e|, c + (if ps[0] >= 0x80 then 1 else 0), ps[1..], rest);
    }
  }

  lemma LeadByte(u: int)
    requires CodePoint(u)
    ensures Bit(Encode(u)[0] as int, 0x80) <==> u >= 0x80
    ensures u != 0 ==> Encode(u)[0] != '\0'
    ensures u < 0x80 ==> |Encode(u)| == 1
  {
    LeadBits(u);
    LeadBits(u / 64 % 32);
    LeadBits(u / 4096 % 16);
    LeadBits(u / 262144 % 8);
  }

  /** Encoded text is UTF-8. */
  lemma DetectWhole(ps: seq<int>)
    requires forall k :: 0 <= k < |ps| ==> CodePoint(ps[k]) && ps[k] != 0
    ensures Detect(Text8(ps), 0, 0) == Detected(true, NonAscii(ps), false)
  {
    hide Text8, CodePoint, Decode, Bit, NonAscii;
    var s := Text8(ps);
    assert s[0..] == s + "";
    DetectText(s, 0, 0, ps, "");
  }

  /** Encoded text that is cut off inside its last sequence is told from text that is not UTF-8. */
  lemma DetectCut(ps: seq<int>, u: int, n: nat)
    requires (forall k :: 0 <= k < |ps| ==> CodePoint(ps[k]) && ps[k] != 0) && CodePoint(u) && 0 < n < |Encode(u)|
    ensures Detect(Text8(ps) + Encode(u)[..n], 0, 0) == Detected(false, NonAscii(ps) + 1, true)
  {
    hide Encode, Decode, Bit;
    var s, i := Text8(ps) + Encode(u)[..n], |Text8(ps)|;
    assert s[0..] == s;
    DetectText(s, 0, 0, ps, Encode(u)[..n]);
    LeadByte(u);
    assert s[i..] == Encode(u)[..n] && s[i] == Encode(u)[0];
    DecodeCut(s, i, u, n);
  }

  lemma DecodeCut(s: string, i: nat, u: int, n: nat)
    requires CodePoint(u) && 0 < n < |Encode(u)| && i + n == |s| && s[i..] == Encode(u)[..n]
    ensures Decode(s, i) == Point(-1, |s|)
  {
    hide More, Bit;
    var e := Encode(u);
    forall k | i <= k < i + n ensures s[k] == e[k - i] { assert s[k] == s[i..][k - i]; }
    Sixes(u);
    if u < 0x800 {
      LeadBits(u / 64);
      MoreCut(s, 1, u / 64);
    } else if u < 0x10000 {
      LeadBits(u / 4096);
      if n == 2 { MoreStep(s, i + 1, 2, u / 4096, u / 64 % 64); MoreCut(s, 1, u / 64); } else { MoreCut(s, 2, u / 4096); }
    } else {
      LeadBits(u / 262144);
      if n > 1 { MoreStep(s, i + 1, 3, u / 262144, u / 4096 % 64); }
      if n > 2 { MoreStep(s, i + 2, 2, u / 4096, u / 64 % 64); }
      MoreCut(s, 4 - n, if n == 1 then u / 262144 else if n == 2 then u / 4096 else u / 64);
    }
  }

  lemma MoreCut(s: string, k: nat, u: int)
    requires k > 0
    ensures More(s, |s|, k, u) == Point(-1, |s|)
  {
  }
}
