/** UTF-8 and size-limited reads (`read_utf8_limited` in src/document.rs). */
module Utf8 {
  import opened Common
  import opened Text

  predicate IsTail(b: byte) {
    0x80 <= b <= 0xBF
  }

  /** Length of a character that begins with `b`; 0 when none does. */
  function Width(b: byte): (r: nat) {
    if b <= 0x7F then 1
    else if 0xC2 <= b <= 0xDF then 2
    else if 0xE0 <= b <= 0xEF then 3
    else if 0xF0 <= b <= 0xF4 then 4
    else 0
  }

  /** The second byte is restricted after four first bytes, to rule out overlong forms and surrogates. */
  predicate SecondFits(first: byte, second: byte) {
    if first == 0xE0 then 0xA0 <= second <= 0xBF
    else if first == 0xED then 0x80 <= second <= 0x9F
    else if first == 0xF0 then 0x90 <= second <= 0xBF
    else if first == 0xF4 then 0x80 <= second <= 0x8F
    else IsTail(second)
  }

  predicate StartsWithChar(s: Bytes, width: nat) {
    && 0 < width <= |s|
    && (width >= 2 ==> SecondFits(s[0], s[1]))
    && (width >= 3 ==> IsTail(s[2]))
    && (width >= 4 ==> IsTail(s[3]))
  }

  /** Length of the character at the front, by the syntax of RFC 3629, section 4; 0 when there is none. */
  function HeadLength(s: Bytes): (n: nat)
    ensures n <= |s| && n <= 4
  {
    if s != [] && StartsWithChar(s, Width(s[0])) then Width(s[0]) else 0
  }

  /** `str::from_utf8` accepts. */
  predicate IsValid(s: Bytes)
    decreases |s|
  {
    s == [] || (HeadLength(s) > 0 && IsValid(s[HeadLength(s)..]))
  }

  // ---- Encoding ----

  function EncodeChar(c: char): (b: Bytes)
    ensures |b| == CharLen(c)
  {
    var n := c as int;
    if n < 0x80 then [n]
    else if n < 0x800 then [0xC0 + n / 64, 0x80 + n % 64]
    else
      var m := n / 64;
      if n < 0x1_0000 then [0xE0 + m / 64, 0x80 + m % 64, 0x80 + n % 64]
      else
        var k := m / 64;
        [0xF0 + k / 64, 0x80 + k % 64, 0x80 + m % 64, 0x80 + n % 64]
  }

  /** `str::as_bytes`. */
  function Encode(s: string): (r: Bytes) {
    if s == [] then [] else EncodeChar(s[0]) + Encode(s[1..])
  }

  lemma EncodedCharIsAHead(c: char, rest: Bytes)
    ensures HeadLength(EncodeChar(c) + rest) == CharLen(c)
  {
    var n := c as int;
    var m := n / 64;
    if 0x800 <= n < 0x1_0000 {
      assert m == 64 * (m / 64) + m % 64;
    } else if n >= 0x1_0000 {
      var k := m / 64;
      assert k == 64 * (k / 64) + k % 64;
    }
  }

  /** Encoded text is valid and as long as its length in bytes. */
  lemma {:induction false} EncodeIsValid(s: string)
    ensures IsValid(Encode(s)) && |Encode(s)| == ByteLen(s)
  {
    if s != [] {
      EncodeIsValid(s[1..]);
      EncodedCharIsAHead(s[0], Encode(s[1..]));
      assert Encode(s)[CharLen(s[0])..] == Encode(s[1..]);
    }
  }

  // ---- Decoding ----

  /** Six bits from each continuation byte, the rest from the first byte. */
  function CodePoint(s: Bytes, width: nat): (r: int)
    requires |s| >= width >= 1
  {
    if width == 1 then s[0] as int
    else if width == 2 then Join(s[0] as int - 0xC0, s[1])
    else if width == 3 then Join(Join(s[0] as int - 0xE0, s[1]), s[2])
    else if width == 4 && |s| >= 4 then Join(Join(Join(s[0] as int - 0xF0, s[1]), s[2]), s[3])
    else 0
  }

  function Join(high: int, low: int): (r: int) {
    64 * high + low - 0x80
  }

  lemma JoinSplits(high: int, low: int)
    requires 0x80 <= low <= 0xBF
    ensures Join(high, low) / 64 == high && Join(high, low) % 64 == low - 0x80
  {
  }

  lemma SplitJoins(n: int)
    ensures Join(n / 64, 0x80 + n % 64) == n
  {
  }

  /** The character that valid bytes begin with. */
  function DecodeHead(s: Bytes): (r: char)
    requires HeadLength(s) > 0
  {
    HeadIsAScalar(s);
    CodePoint(s, HeadLength(s)) as char
  }

  lemma HeadIsAScalar(s: Bytes)
    requires HeadLength(s) > 0
    ensures var n := CodePoint(s, HeadLength(s)); 0 <= n < 0xD800 || 0xE000 <= n < 0x11_0000
    ensures var n := CodePoint(s, HeadLength(s));
            HeadLength(s) == if n < 0x80 then 1 else if n < 0x800 then 2 else if n < 0x1_0000 then 3 else 4
  {
  }

  lemma EncodesTheHead(s: Bytes)
    requires HeadLength(s) > 0
    ensures EncodeChar(DecodeHead(s)) == s[..HeadLength(s)]
  {
    var h := HeadLength(s);
    HeadIsAScalar(s);
    if h == 2 {
      JoinSplits(s[0] as int - 0xC0, s[1]);
    } else if h == 3 {
      var high := s[0] as int - 0xE0;
      JoinSplits(high, s[1]);
      JoinSplits(Join(high, s[1]), s[2]);
    } else if h == 4 {
      var high := s[0] as int - 0xF0;
      JoinSplits(high, s[1]);
      JoinSplits(Join(high, s[1]), s[2]);
      JoinSplits(Join(Join(high, s[1]), s[2]), s[3]);
    }
  }

  /** `String::from_utf8` on valid bytes. */
  function Decode(s: Bytes): (r: string)
    requires IsValid(s)
    decreases |s|
  {
    if s == [] then "" else [DecodeHead(s)] + Decode(s[HeadLength(s)..])
  }

  lemma EncodeFirst(s: Bytes, rest: string)
    requires HeadLength(s) > 0
    ensures Encode([DecodeHead(s)] + rest) == s[..HeadLength(s)] + Encode(rest)
  {
    EncodesTheHead(s);
    assert ([DecodeHead(s)] + rest)[1..] == rest;
  }

  lemma {:induction false} EncodeUndoesDecode(s: Bytes)
    requires IsValid(s)
    ensures Encode(Decode(s)) == s
    decreases |s|
  {
    if s != [] {
      var h := HeadLength(s);
      EncodeUndoesDecode(s[h..]);
      EncodeFirst(s, Decode(s[h..]));
      assert s == s[..h] + s[h..];
    }
  }

  lemma EncodeCharIsInjective(c: char, d: char)
    requires EncodeChar(c) == EncodeChar(d)
    ensures c == d
  {
    var a, b := EncodeChar(c), EncodeChar(d);
    assert |a| == |b| && a[0] == b[0];
    SplitJoins(c as int);
    SplitJoins(d as int);
    if |a| >= 2 { assert a[1] == b[1]; }
    if |a| >= 3 {
      assert a[2] == b[2];
      SplitJoins(c as int / 64);
      SplitJoins(d as int / 64);
    }
    if |a| == 4 {
      assert a[3] == b[3];
      SplitJoins(c as int / 64 / 64);
      SplitJoins(d as int / 64 / 64);
    }
  }

  lemma {:induction false} DecodeUndoesEncode(t: string)
    ensures IsValid(Encode(t)) && Decode(Encode(t)) == t
  {
    EncodeIsValid(t);
    if t != [] {
      var s, n := Encode(t), CharLen(t[0]);
      DecodeUndoesEncode(t[1..]);
      EncodedCharIsAHead(t[0], Encode(t[1..]));
      assert s[n..] == Encode(t[1..]) && s[..n] == EncodeChar(t[0]);
      EncodesTheHead(s);
      EncodeCharIsInjective(DecodeHead(s), t[0]);
    }
  }

  // ---- Limited reads ----

  /** Drops bytes from the end until what is left is valid. */
  function Cut(bytes: Bytes): (text: Bytes)
    ensures text <= bytes && IsValid(text)
    ensures forall n | |text| < n <= |bytes| :: !IsValid(bytes[..n])
  {
    if IsValid(bytes) then bytes
    else
      var shorter := bytes[..|bytes| - 1];
      assert forall n | 0 <= n <= |shorter| :: shorter[..n] == bytes[..n];
      assert bytes[..|bytes|] == bytes;
      Cut(shorter)
  }

  /** What a limited read returns: the text, `None` for `InvalidUtf8`, and whether it was truncated. */
  function LimitedRead(file: Bytes, maxBytes: nat): (r: (Option<Bytes>, bool)) {
    if |file| > maxBytes then (Some(Cut(file[..maxBytes])), true)
    else (if IsValid(file) then Some(file) else None, false)
  }

  /** `text` is the longest valid prefix of the first `maxBytes` bytes. */
  ghost predicate IsLongestValidPrefix(text: Bytes, file: Bytes, maxBytes: nat)
    requires maxBytes <= |file|
  {
    && text <= file[..maxBytes] && IsValid(text)
    && forall n | |text| < n <= maxBytes :: !IsValid(file[..n])
  }

  /** `None` is `InvalidUtf8`. A file on disk is shorter than 2^64 bytes. */
  method ReadUtf8Limited(file: Bytes, maxBytes: nat) returns (text: Option<Bytes>, truncated: bool)
    requires |file| <= U64_MAX && maxBytes <= U64_MAX
    ensures truncated == (|file| > maxBytes)
    ensures truncated ==> text.Some? && IsLongestValidPrefix(text.value, file, maxBytes)
    ensures !truncated ==> text == if IsValid(file) then Some(file) else None
    ensures (text, truncated) == LimitedRead(file, maxBytes)
  {
    var limit := SaturatingAdd(maxBytes, 1);
    var bytes := if |file| <= limit then file else file[..limit];
    truncated := |bytes| > maxBytes;
    if truncated {
      bytes := bytes[..maxBytes];
      while bytes != [] && !IsValid(bytes)
        invariant |bytes| <= maxBytes && bytes == file[..|bytes|]
        invariant forall n | |bytes| < n <= maxBytes :: !IsValid(file[..n])
        decreases |bytes|
      {
        bytes := bytes[..|bytes| - 1];
      }
    }
    text := if IsValid(bytes) then Some(bytes) else None;
    if truncated {
      CutIsTheLongest(file, maxBytes);
      LongestValidPrefixIsUnique(file, maxBytes, bytes, Cut(file[..maxBytes]));
    }
  }

  lemma CutIsTheLongest(file: Bytes, maxBytes: nat)
    requires maxBytes <= |file|
    ensures IsLongestValidPrefix(Cut(file[..maxBytes]), file, maxBytes)
  {
    assert forall n | 0 <= n <= maxBytes :: file[..maxBytes][..n] == file[..n];
  }

  /** The head of a text is the head of every prefix that contains it. */
  lemma HeadOfPrefix(s: Bytes, n: nat)
    requires HeadLength(s) <= n <= |s| && HeadLength(s) > 0
    ensures HeadLength(s[..n]) == HeadLength(s)
  {
  }

  /** Every stretch of valid text can be cut validly within its last three bytes. */
  lemma {:induction false} ValidCut(file: Bytes, maxBytes: nat) returns (n: nat)
    requires IsValid(file) && maxBytes < |file|
    ensures n <= maxBytes <= n + 3 && IsValid(file[..n])
    decreases |file|
  {
    var h := HeadLength(file);
    if h > maxBytes {
      n := 0;
    } else {
      var m := ValidCut(file[h..], maxBytes - h);
      n := h + m;
      HeadOfPrefix(file, n);
      assert file[..n][h..] == file[h..][..m];
    }
  }

  /** A truncated read of a file that is valid as a whole loses at most three bytes of the limit. */
  lemma TruncationLosesAtMostThree(file: Bytes, maxBytes: nat, text: Bytes)
    requires IsValid(file) && maxBytes < |file| && IsLongestValidPrefix(text, file, maxBytes)
    ensures |text| + 3 >= maxBytes
  {
    var n := ValidCut(file, maxBytes);
  }

  /** There is only one longest valid prefix. */
  lemma LongestValidPrefixIsUnique(file: Bytes, maxBytes: nat, a: Bytes, b: Bytes)
    requires maxBytes <= |file|
    requires IsLongestValidPrefix(a, file, maxBytes) && IsLongestValidPrefix(b, file, maxBytes)
    ensures a == b
  {
    assert a == file[..|a|] && b == file[..|b|];
  }
}
