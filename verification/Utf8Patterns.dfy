/** Which bytes `DetectUTF8` takes for UTF-8, told by the values of the bytes, and how that differs from the patterns
    that the code documents. */
module Utf8Patterns {
  import opened Utf8

  predicate Bytes(s: string) {
    forall k :: 0 <= k < |s| ==> s[k] as int < 0x100
  }

  /** How many bytes belong behind the first one of a sequence, or -1 when none begins with it. */
  function Extra(c: char): (n: int)
    ensures -1 <= n <= 3
  {
    var b := c as int;
    if b < 0x80 then 0
    else if b < 0xa0 || 0xc0 <= b < 0xe0 then 1
    else if b < 0xb0 || 0xe0 <= b < 0xf0 then 2
    else if b < 0xb8 || 0xf0 <= b < 0xf8 then 3
    else -1
  }

  /** `n` bytes from 0x80 on. */
  predicate High(s: string, i: nat, n: nat) {
    i + n <= |s| && forall k :: i <= k < i + n ==> s[k] as int >= 0x80
  }

  /** What a text is found to be from `i` on, up to its end or the first zero byte. */
  function Judged(s: string, i: nat): (d: Detected)
    requires i <= |s|
    decreases |s| - i
  {
    if i == |s| || s[i] == '\0' then Detected(true, 0, false) else
    var n := Extra(s[i]);
    if n == -1 then Detected(false, 1, i + 1 == |s|)
    else if !High(s, i + 1, n) then Detected(false, 1, High(s, i + 1, |s| - i - 1))
    else
      var d := Judged(s, i + 1 + n);
      Detected(d.ok, d.nonAscii + (if n > 0 then 1 else 0), d.errorAtEnd)
  }

  lemma {:induction false} MoreIff(s: string, i: nat, k: nat, u: int)
    requires i <= |s| && Bytes(s) && u >= 0
    ensures var p := More(s, i, k, u); p.u >= -1 && (p.u == -1 <==> !High(s, i, k)) && (p.u != -1 ==> p.next == i + k)
    ensures !High(s, i, k) ==> (More(s, i, k, u).next == |s| <==> High(s, i, |s| - i))
    decreases k
  {
    if k > 0 && i < |s| {
      TopBit(s[i]);
      if s[i] as int >= 0x80 {
        MoreIff(s, i + 1, k - 1, u * 64 + s[i] as int % 64);
      }
    }
  }

  lemma TopBit(c: char)
    requires c as int < 0x100
    ensures Bit(c as int, 0x80) <==> c as int >= 0x80
  {
  }

  lemma LeadBytes(c: char)
    requires 0x80 <= c as int < 0x100
    ensures Extra(c) == 1 <==> !Bit(c as int, 0x20)
    ensures Extra(c) == 2 <==> Bit(c as int, 0x20) && !Bit(c as int, 0x10)
    ensures Extra(c) == 3 <==> Bit(c as int, 0x20) && Bit(c as int, 0x10) && !Bit(c as int, 0x08)
    ensures Extra(c) != 0
  {
  }

  lemma PointIff(s: string, i: nat)
    requires i < |s| && Bytes(s) && s[i] as int >= 0x80
    ensures var p, n := Decode(s, i), Extra(s[i]);
            && (p.u == -1 <==> n == -1 || !High(s, i + 1, n)) && (p.u != -1 ==> p.next == i + 1 + n)
            && (n == -1 ==> p.next == i + 1) && (n != -1 && !High(s, i + 1, n) ==> (p.next == |s| <==> High(s, i + 1, |s| - i - 1)))
  {
    hide More, Bit, High, Extra;
    var b := s[i] as int;
    TopBit(s[i]);
    LeadBytes(s[i]);
    MoreIff(s, i + 1, 1, b % 32);
    MoreIff(s, i + 1, 2, b % 16);
    MoreIff(s, i + 1, 3, b % 8);
  }

  /** The detection goes by the first bytes of the sequences, and of the others only asks that they are not ASCII. */
  lemma {:induction false} DetectIs(s: string, i: nat, c: nat)
    requires Bytes(s) && i <= |s|
    ensures var d := Judged(s, i); Detect(s, i, c) == Detected(d.ok, d.nonAscii + c, d.errorAtEnd)
    decreases |s| - i
  {
    hide Decode, Bit, High;
    if i < |s| && s[i] != '\0' {
      TopBit(s[i]);
      var n := Extra(s[i]);
      if s[i] as int < 0x80 {
        assert High(s, i + 1, 0) by { NoneHigh(s, i + 1); }
        DetectIs(s, i + 1, c);
      } else {
        PointIff(s, i);
        if n != -1 && High(s, i + 1, n) {
          assert i + 1 + n <= |s| by { HighFits(s, i + 1, n); }
          DetectIs(s, i + 1 + n, c + 1);
        }
      }
    }
  }

  lemma NoneHigh(s: string, i: nat)
    requires i <= |s|
    ensures High(s, i, 0)
  {
  }

  lemma HighFits(s: string, i: nat, n: nat)
    requires High(s, i, n)
    ensures i + n <= |s|
  {
  }

  // ---- The documented patterns ----

  /** `n` bytes 10xxxxxx. */
  predicate Trail(s: string, i: nat, n: nat) {
    i + n <= |s| && forall k :: i <= k < i + n ==> 0x80 <= s[k] as int < 0xc0
  }

  /** A sequence of `n` bytes begins at `i`: 0xxxxxxx, 110xxxxx, 1110xxxx or 11110xxx and what belongs behind it. */
  predicate SequenceAt(s: string, i: nat, n: nat) {
    1 <= n <= 4 && i + n <= |s| && Trail(s, i + 1, n - 1) &&
    var b := s[i] as int;
    match n
    case 1 => b < 0x80
    case 2 => 0xc0 <= b < 0xe0
    case 3 => 0xe0 <= b < 0xf0
    case 4 => 0xf0 <= b < 0xf8
  }

  /** The text is made of such sequences, from `i` on, up to its end or the first zero byte. */
  predicate Documented(s: string, i: nat)
    decreases |s| - i
  {
    i == |s| || (i < |s| && (s[i] == '\0' || exists n :: 1 <= n <= 4 && SequenceAt(s, i, n) && Documented(s, i + n)))
  }

  /** A sequence begins with 10xxxxxx, or goes on with 11xxxxxx. */
  predicate Loose(s: string, i: nat)
    requires i <= |s|
    decreases |s| - i
  {
    i < |s| && s[i] != '\0' &&
    var n := Extra(s[i]);
    n >= 0 && High(s, i + 1, n) && ((n > 0 && (s[i] as int < 0xc0 || !Trail(s, i + 1, n))) || Loose(s, i + 1 + n))
  }

  lemma SequenceIff(s: string, i: nat, n: nat)
    requires i < |s|
    ensures SequenceAt(s, i, n) <==> n == Extra(s[i]) + 1 && n > 0 && High(s, i + 1, n - 1) && (n > 1 ==> s[i] as int >= 0xc0 && Trail(s, i + 1, n - 1))
  {
  }

  /** A text is as documented exactly when it is taken for UTF-8 and no sequence in it is loose. */
  lemma {:induction false} DocumentedIff(s: string, i: nat)
    requires i <= |s|
    ensures Documented(s, i) <==> Judged(s, i).ok && !Loose(s, i)
    decreases |s| - i
  {
    hide High, Trail, SequenceAt, Extra;
    if i < |s| && s[i] != '\0' {
      var n := Extra(s[i]) + 1;
      forall m: nat ensures SequenceAt(s, i, m) ==> m == n { SequenceIff(s, i, m); }
      SequenceIff(s, i, n);
      if n > 0 && High(s, i + 1, n - 1) {
        HighFits(s, i + 1, n - 1);
        DocumentedIff(s, i + n);
      }
    }
  }

  /** Two bytes that no documented pattern allows, and that are taken for UTF-8. */
  lemma LooseAccepted()
    ensures !Documented("\U{80}\U{ff}", 0) && Detect("\U{80}\U{ff}", 0, 0) == Detected(true, 1, false)
  {
    var s := "\U{80}\U{ff}";
    assert Judged(s, 2) == Detected(true, 0, false);
    DetectIs(s, 0, 0);
    DocumentedIff(s, 0);
  }
}
