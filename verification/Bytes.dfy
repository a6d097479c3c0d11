/** Byte strings as Rust's `String` and `&[u8]` see them. */
module Bytes {
  import opened Wrappers

  newtype Byte = x: int | 0 <= x < 0x100

  type ByteString = seq<Byte>

  const NEWLINE: Byte := 10

  datatype ByteRange = ByteRange(start: nat, end: nat)

  /** `slice.get(start..end)`. */
  function Get(s: ByteString, range: ByteRange): (r: Option<ByteString>) {
    if range.start <= range.end <= |s| then Some(s[range.start..range.end]) else None
  }

  predicate IsContinuation(b: Byte) {
    0x80 <= b < 0xC0
  }

  /** `str::is_char_boundary`. */
  predicate IsCharBoundary(s: ByteString, i: nat) {
    i == 0 || i == |s| || (i < |s| && !IsContinuation(s[i]))
  }

  /** The length of the well-formed character that `s` starts with (RFC 3629, section 4), or 0. */
  function CharLength(s: ByteString): (n: nat)
    ensures n <= 4 && n <= |s|
    ensures n > 0 ==> !IsContinuation(s[0]) && forall i :: 1 <= i < n ==> IsContinuation(s[i])
    ensures n > 0 ==> (n == 1 <==> s[0] < 0x80)
  {
    if s == [] then 0
    else if s[0] < 0x80 then 1
    else if |s| < 2 || !IsContinuation(s[1]) then 0
    else if 0xC2 <= s[0] < 0xE0 then 2
    else if |s| < 3 || !IsContinuation(s[2]) then 0
    else if s[0] == 0xE0 then (if 0xA0 <= s[1] then 3 else 0)
    else if s[0] == 0xED then (if s[1] < 0xA0 then 3 else 0)
    else if 0xE0 < s[0] < 0xF0 then 3
    else if |s| < 4 || !IsContinuation(s[3]) then 0
    else if s[0] == 0xF0 then (if 0x90 <= s[1] then 4 else 0)
    else if s[0] == 0xF4 then (if s[1] < 0x90 then 4 else 0)
    else if 0xF0 < s[0] < 0xF4 then 4
    else 0
  }

  /** `std::str::from_utf8(s).is_ok()`. */
  predicate ValidUtf8(s: ByteString)
    decreases |s|
  {
    s == [] || (CharLength(s) > 0 && ValidUtf8(s[CharLength(s)..]))
  }

  /** In text, what follows an ASCII byte starts a character, so it may be cut there. */
  lemma {:induction false} AsciiEndsCharacter(s: ByteString, i: nat)
    requires ValidUtf8(s) && 0 < i <= |s| && s[i - 1] < 0x80
    ensures IsCharBoundary(s, i)
    decreases |s|
  {
    var n := CharLength(s);
    if n < i {
      AsciiEndsCharacter(s[n..], i - n);
    } else if i == n && i < |s| {
      assert CharLength(s[n..]) > 0;
    }
  }

  /** Text never starts in the middle of a character. */
  lemma FirstByteStartsCharacter(s: ByteString)
    requires ValidUtf8(s) && s != []
    ensures !IsContinuation(s[0])
  {
    assert CharLength(s) > 0;
  }

  lemma CharLengthStays(s: ByteString, t: ByteString)
    requires CharLength(s) > 0 && CharLength(s) <= |t| && t[..CharLength(s)] == s[..CharLength(s)]
    ensures CharLength(t) == CharLength(s)
  {
    var n := CharLength(s);
    assert forall i :: 0 <= i < n ==> t[i] == t[..n][i] && s[i] == s[..n][i];
  }

  /** Cutting text at a character boundary leaves text on both sides. */
  lemma {:induction false} CutIsUtf8(s: ByteString, i: nat)
    requires ValidUtf8(s) && i <= |s| && IsCharBoundary(s, i)
    ensures ValidUtf8(s[..i]) && ValidUtf8(s[i..])
    decreases |s|
  {
    var n := CharLength(s);
    if i == 0 {
      assert s[0..] == s;
    } else {
      assert i >= n;
      assert IsCharBoundary(s[n..], i - n);
      CutIsUtf8(s[n..], i - n);
      CharLengthStays(s, s[..i]);
      assert s[..i][n..] == s[n..][..i - n] && s[n..][i - n..] == s[i..];
    }
  }

  /** So is every slice between two character boundaries. */
  lemma SliceIsUtf8(s: ByteString, range: ByteRange)
    requires ValidUtf8(s) && range.start <= range.end <= |s|
    requires IsCharBoundary(s, range.start) && IsCharBoundary(s, range.end)
    ensures ValidUtf8(s[range.start..range.end])
  {
    hide ValidUtf8;
    CutIsUtf8(s, range.end);
    var head := s[..range.end];
    assert IsCharBoundary(head, range.start);
    CutIsUtf8(head, range.start);
    assert head[range.start..] == s[range.start..range.end];
  }

  lemma {:induction false} JoinIsUtf8(a: ByteString, b: ByteString)
    requires ValidUtf8(a) && ValidUtf8(b)
    ensures ValidUtf8(a + b)
    decreases |a|
  {
    hide CharLength;
    if a == [] {
      assert a + b == b;
    } else {
      var n := CharLength(a);
      JoinIsUtf8(a[n..], b);
      assert (a + b)[..n] == a[..n];
      CharLengthStays(a, a + b);
      assert (a + b)[n..] == a[n..] + b;
    }
  }
}
