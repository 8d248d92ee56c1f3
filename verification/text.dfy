/** The string functions the service relies on: trimming, substring search, byte length and order. */
module Text {

  /** unicode.IsSpace. */
  predicate IsSpace(c: char) {
    || '\U{0009}' <= c <= '\U{000D}'
    || c == ' ' || c == '\U{0085}' || c == '\U{00A0}' || c == '\U{1680}'
    || '\U{2000}' <= c <= '\U{200A}'
    || c == '\U{2028}' || c == '\U{2029}' || c == '\U{202F}' || c == '\U{205F}' || c == '\U{3000}'
  }

  function TrimLeft(s: string): string {
    if s != [] && IsSpace(s[0]) then TrimLeft(s[1..]) else s
  }

  function TrimRight(s: string): string {
    if s != [] && IsSpace(s[|s| - 1]) then TrimRight(s[..|s| - 1]) else s
  }

  /** strings.TrimSpace. */
  function Trim(s: string): string {
    TrimRight(TrimLeft(s))
  }

  predicate Trimmed(s: string) {
    s == [] || (!IsSpace(s[0]) && !IsSpace(s[|s| - 1]))
  }

  lemma {:induction false} TrimRightKeepsStart(s: string)
    ensures |TrimRight(s)| <= |s| && TrimRight(s) == s[..|TrimRight(s)|]
    ensures TrimRight(s) != [] ==> !IsSpace(TrimRight(s)[|TrimRight(s)| - 1])
  {
    if s != [] && IsSpace(s[|s| - 1]) {
      TrimRightKeepsStart(s[..|s| - 1]);
    }
  }

  lemma {:induction false} TrimLeftDropsSpace(s: string)
    ensures TrimLeft(s) != [] ==> !IsSpace(TrimLeft(s)[0])
  {
    if s != [] && IsSpace(s[0]) {
      TrimLeftDropsSpace(s[1..]);
    }
  }

  /** Trimming leaves no outer whitespace, and is the identity exactly on trimmed text. */
  lemma TrimIsTrimmed(s: string)
    ensures Trimmed(Trim(s))
    ensures Trim(s) == s <==> Trimmed(s)
    ensures Trim(Trim(s)) == Trim(s)
  {
    TrimLeftDropsSpace(s);
    TrimRightKeepsStart(TrimLeft(s));
  }

  ghost predicate AllSpace(s: string) {
    forall i :: 0 <= i < |s| ==> IsSpace(s[i])
  }

  lemma {:induction false} TrimLeftSplits(s: string)
    ensures |TrimLeft(s)| <= |s| && s[|s| - |TrimLeft(s)|..] == TrimLeft(s)
    ensures AllSpace(s[..|s| - |TrimLeft(s)|])
  {
    if s != [] && IsSpace(s[0]) {
      TrimLeftSplits(s[1..]);
      var n := |s| - |TrimLeft(s)|;
      assert s[1..][n - 1..] == s[n..] && s[..n] == [s[0]] + s[1..][..n - 1];
    }
  }

  lemma {:induction false} TrimRightSplits(s: string)
    ensures |TrimRight(s)| <= |s| && s[..|TrimRight(s)|] == TrimRight(s)
    ensures AllSpace(s[|TrimRight(s)|..])
  {
    if s != [] && IsSpace(s[|s| - 1]) {
      var front := s[..|s| - 1];
      TrimRightSplits(front);
      var n := |TrimRight(s)|;
      assert s[..n] == front[..n] && s[n..] == front[n..] + [s[|s| - 1]];
    }
  }

  /** Trimming cuts whitespace off both ends and keeps everything in between. */
  lemma TrimKeepsMiddle(s: string) returns (left: string, right: string)
    ensures s == left + Trim(s) + right && AllSpace(left) && AllSpace(right)
  {
    TrimLeftSplits(s);
    TrimRightSplits(TrimLeft(s));
    left := s[..|s| - |TrimLeft(s)|];
    right := TrimLeft(s)[|Trim(s)|..];
    assert TrimLeft(s) == Trim(s) + right;
    assert s == left + TrimLeft(s) == left + (Trim(s) + right);
  }

  predicate Blank(s: string) {
    Trim(s) == []
  }

  /** Blank text is whitespace throughout, and only that. */
  lemma BlankIsSpace(s: string)
    ensures Blank(s) <==> AllSpace(s)
  {
    var left, right := TrimKeepsMiddle(s);
    TrimIsTrimmed(s);
    if Trim(s) != [] {
      assert s[|left|] == Trim(s)[0] && !IsSpace(s[|left|]);
    }
  }

  predicate OccursAt(s: string, needle: string, i: nat) {
    i + |needle| <= |s| && s[i..i + |needle|] == needle
  }

  /** strings.Contains. */
  predicate Contains(s: string, needle: string) {
    exists i :: 0 <= i <= |s| && OccursAt(s, needle, i)
  }

  ghost predicate Around(s: string, before: string, needle: string, after: string) {
    s == before + needle + after
  }

  /** A string contains another exactly when it is that string with something before and after. */
  lemma ContainsMeaning(s: string, needle: string)
    ensures Contains(s, needle) <==> exists before, after :: Around(s, before, needle, after)
  {
    if Contains(s, needle) {
      var i :| 0 <= i <= |s| && OccursAt(s, needle, i);
      assert s == s[..i] + s[i..i + |needle|] + s[i + |needle|..];
      assert Around(s, s[..i], needle, s[i + |needle|..]);
    }
    if before, after :| Around(s, before, needle, after) {
      assert OccursAt(s, needle, |before|);
    }
  }

  function Utf8Width(c: char): nat {
    if c < '\U{0080}' then 1 else if c < '\U{0800}' then 2 else if c < '\U{10000}' then 3 else 4
  }

  /** len(s) of a Go string: its length in UTF-8 bytes. */
  function ByteLength(s: string): nat {
    if s == [] then 0 else ByteLength(s[..|s| - 1]) + Utf8Width(s[|s| - 1])
  }

  ghost predicate Ascii(s: string) {
    forall i :: 0 <= i < |s| ==> s[i] < '\U{0080}'
  }

  /** One byte up to U+007F, two up to U+07FF, three up to U+FFFF, four beyond. */
  lemma {:induction false} ByteLengthAppends(s: string, c: char)
    ensures ByteLength("") == 0
    ensures ByteLength(s + [c]) == ByteLength(s) + (if c as int <= 0x7F then 1 else if c as int <= 0x7FF then 2
                                                    else if c as int <= 0xFFFF then 3 else 4)
  {
    assert (s + [c])[..|s|] == s;
  }

  /** A byte for each character, exactly for ASCII text; never more than four. */
  lemma {:induction false} ByteLengthBounds(s: string)
    ensures |s| <= ByteLength(s) <= 4 * |s|
    ensures ByteLength(s) == |s| <==> Ascii(s)
  {
    if s != [] {
      var front := s[..|s| - 1];
      ByteLengthBounds(front);
      assert s == front + [s[|s| - 1]];
      assert Ascii(s) <==> Ascii(front) && s[|s| - 1] < '\U{0080}';
    }
  }

  /** Go's string order; byte order of UTF-8 is the order of the code points. */
  predicate LexLe(a: string, b: string) {
    a == [] || (b != [] && (a[0] < b[0] || (a[0] == b[0] && LexLe(a[1..], b[1..]))))
  }

  lemma {:induction false} LexTotal(a: string, b: string)
    ensures LexLe(a, b) || LexLe(b, a)
  {
    if a != [] && b != [] && a[0] == b[0] {
      LexTotal(a[1..], b[1..]);
    }
  }

  lemma {:induction false} LexAntisymmetric(a: string, b: string)
    requires LexLe(a, b) && LexLe(b, a)
    ensures a == b
  {
    if a != [] {
      LexAntisymmetric(a[1..], b[1..]);
      assert a == [a[0]] + a[1..] && b == [b[0]] + b[1..];
    }
  }

  lemma {:induction false} LexTransitive(a: string, b: string, c: string)
    requires LexLe(a, b) && LexLe(b, c)
    ensures LexLe(a, c)
  {
    if a != [] && a[0] == b[0] == c[0] {
      LexTransitive(a[1..], b[1..], c[1..]);
    }
  }

  /** The first place where two strings differ, the first with the smaller character. */
  ghost predicate SmallerAt(a: string, b: string, i: nat) {
    i < |a| && i < |b| && a[..i] == b[..i] && a[i] < b[i]
  }

  /** The order is dictionary order: a prefix goes first, else the first difference decides. */
  lemma {:induction false} LexMeaning(a: string, b: string)
    ensures LexLe(a, b) <==> a <= b || exists i :: SmallerAt(a, b, i)
  {
    if a != [] && b != [] {
      if a[0] == b[0] {
        LexMeaning(a[1..], b[1..]);
        assert a == [a[0]] + a[1..] && b == [b[0]] + b[1..];
        assert a <= b <==> a[1..] <= b[1..];
        if i: nat :| SmallerAt(a[1..], b[1..], i) {
          assert a[..i + 1] == [a[0]] + a[1..][..i] && b[..i + 1] == [b[0]] + b[1..][..i];
          assert SmallerAt(a, b, i + 1);
        }
        if i: nat :| SmallerAt(a, b, i) {
          assert i > 0;
          assert a[1..][..i - 1] == a[..i][1..] && b[1..][..i - 1] == b[..i][1..];
          assert SmallerAt(a[1..], b[1..], i - 1);
        }
      } else if a[0] < b[0] {
        assert SmallerAt(a, b, 0);
      }
    }
  }
}
