/** UTF-8 byte offsets into a string of Unicode scalar values (section 3 of RFC 3629). */
module Utf8 {

  /** A byte that continues a multi-byte sequence. */
  predicate IsContinuation(b: int) {
    0x80 <= b < 0xC0
  }

  function CharLen(c: char): (n: nat)
    ensures 1 <= n <= 4
  {
    if c as int < 0x80 then 1 else if c as int < 0x800 then 2 else if c as int < 0x10000 then 3 else 4
  }

  function CharBytes(c: char): (b: seq<int>)
    ensures |b| == CharLen(c)
    ensures !IsContinuation(b[0])
    ensures forall i | 1 <= i < |b| :: IsContinuation(b[i])
    ensures forall i | 0 <= i < |b| :: 0 <= b[i] < 256
  {
    var n := c as int;
    if n < 0x80 then [n]
    else if n < 0x800 then [0xC0 + n / 64, 0x80 + n % 64]
    else if n < 0x10000 then [0xE0 + n / 4096, 0x80 + n / 64 % 64, 0x80 + n % 64]
    else [0xF0 + n / 262144, 0x80 + n / 4096 % 64, 0x80 + n / 64 % 64, 0x80 + n % 64]
  }

  /** The lead byte tells the length, the payload bits give the character back, and no shorter form would hold it. */
  lemma CharBytesRead(c: char)
    ensures var b, n := CharBytes(c), c as int;
            match |b|
            case 1 => b[0] < 0x80 && n == b[0]
            case 2 => 0xC0 <= b[0] < 0xE0 && n == (b[0] - 0xC0) * 64 + b[1] - 0x80 && n >= 0x80
            case 3 => 0xE0 <= b[0] < 0xF0 && n == (b[0] - 0xE0) * 4096 + (b[1] - 0x80) * 64 + b[2] - 0x80 && n >= 0x800
            case 4 => 0xF0 <= b[0] < 0xF8 && n >= 0x10000
                      && n == (b[0] - 0xF0) * 262144 + (b[1] - 0x80) * 4096 + (b[2] - 0x80) * 64 + b[3] - 0x80
            case _ => false
  {
    var n := c as int;
    assert n / 64 / 64 == n / 4096 && n / 4096 / 64 == n / 262144;
  }

  /** The length of `s` in bytes. */
  function ByteLen(s: string): nat {
    if s == "" then 0 else CharLen(s[0]) + ByteLen(s[1..])
  }

  function Encode(s: string): (b: seq<int>)
    ensures |b| == ByteLen(s)
  {
    if s == "" then [] else CharBytes(s[0]) + Encode(s[1..])
  }

  lemma {:induction false} ByteLenConcat(a: string, b: string)
    ensures ByteLen(a + b) == ByteLen(a) + ByteLen(b)
  {
    if a == "" {
      assert a + b == b;
    } else {
      ByteLenConcat(a[1..], b);
      assert (a + b)[1..] == a[1..] + b;
    }
  }

  lemma {:induction false} ByteLenOne(c: char)
    ensures ByteLen([c]) == CharLen(c)
  {
    assert ByteLen([c][1..]) == 0;
  }

  /** The byte test a string slice uses to accept an offset. */
  predicate IsCharBoundary(s: string, i: nat) {
    var bytes := Encode(s);
    i == 0 || i == |bytes| || (i < |bytes| && !IsContinuation(bytes[i]))
  }

  /** A boundary past the first byte lies past the whole first character. */
  lemma BoundaryInTail(s: string, i: nat)
    requires s != "" && 0 < i <= ByteLen(s)
    ensures IsCharBoundary(s, i) <==> CharLen(s[0]) <= i && IsCharBoundary(s[1..], i - CharLen(s[0]))
  {
    hide CharBytes, CharLen;
    var head, tail := CharBytes(s[0]), Encode(s[1..]);
    assert Encode(s) == head + tail;
    assert |tail| > 0 ==> tail == CharBytes(s[1]) + Encode(s[1..][1..]);
    hide Encode, ByteLen;
    if i < |head| {
      assert Encode(s)[i] == head[i];
    } else if i < ByteLen(s) {
      assert Encode(s)[i] == tail[i - |head|];
    }
  }

  /** How many characters of `s` the first `i` bytes hold. */
  function CharsIn(s: string, i: nat): (k: nat)
    requires i <= ByteLen(s) && IsCharBoundary(s, i)
    ensures k <= |s| && ByteLen(s[..k]) == i
  {
    if i == 0 then 0
    else
      BoundaryInTail(s, i);
      var k := 1 + CharsIn(s[1..], i - CharLen(s[0]));
      assert s[..k][1..] == s[1..][..k - 1];
      k
  }

  lemma {:induction false} PrefixIsBoundary(s: string, k: nat)
    requires k <= |s|
    ensures ByteLen(s[..k]) <= ByteLen(s) && IsCharBoundary(s, ByteLen(s[..k]))
  {
    if k > 0 {
      PrefixIsBoundary(s[1..], k - 1);
      assert s[..k][1..] == s[1..][..k - 1];
      BoundaryInTail(s, ByteLen(s[..k]));
    }
  }

  /** The byte test holds exactly at the end of a whole number of characters. */
  lemma {:induction false} BoundaryIffWholeChars(s: string, i: nat)
    requires i <= ByteLen(s)
    ensures IsCharBoundary(s, i) <==> exists k :: 0 <= k <= |s| && ByteLen(s[..k]) == i
  {
    if IsCharBoundary(s, i) {
      var k := CharsIn(s, i);
      assert 0 <= k <= |s| && ByteLen(s[..k]) == i;
    }
    if k :| 0 <= k <= |s| && ByteLen(s[..k]) == i {
      PrefixIsBoundary(s, k);
    }
  }
}
