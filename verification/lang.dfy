/** The few pieces of Java's standard library the services lean on: 32-bit
    `int` arithmetic and the `String` methods `startsWith`, `contains`,
    `isBlank` and `String.join`. */
module Lang {

  /** Java's `int`. */
  newtype Int32 = x: int | -0x8000_0000 <= x < 0x8000_0000

  const MinInt32: Int32 := -0x8000_0000
  const MaxInt32: Int32 := 0x7FFF_FFFF

  /** Java `int` addition: the exact sum when it fits in 32 bits, otherwise
      its two's-complement wrap-around. */
  function AddInt32(a: Int32, b: Int32): (r: Int32)
    ensures MinInt32 as int <= a as int + b as int <= MaxInt32 as int ==> r as int == a as int + b as int
    ensures a as int + b as int > MaxInt32 as int ==> r as int == a as int + b as int - 0x1_0000_0000
    ensures a as int + b as int < MinInt32 as int ==> r as int == a as int + b as int + 0x1_0000_0000
  {
    var sum := a as int + b as int;
    if sum > MaxInt32 as int then (sum - 0x1_0000_0000) as Int32
    else if sum < MinInt32 as int then (sum + 0x1_0000_0000) as Int32
    else sum as Int32
  }

  /** Adding one wraps only at the top of the range. */
  lemma IncrementWrapsOnlyAtMax(a: Int32)
    ensures a < MaxInt32 ==> AddInt32(a, 1) == a + 1
    ensures a == MaxInt32 ==> AddInt32(a, 1) == MinInt32
  {
  }

  /** `s.startsWith(prefix)` */
  predicate StartsWith(s: string, prefix: string) {
    |prefix| <= |s| && s[..|prefix|] == prefix
  }

  /** `s.contains(sub)`: `sub` occurs at some position of `s`. */
  predicate Contains(s: string, sub: string) {
    exists i :: 0 <= i <= |s| && StartsWith(s[i..], sub)
  }

  /** A string that has `sub` somewhere in the middle contains it. */
  lemma ContainsInfix(before: string, sub: string, after: string)
    ensures Contains(before + sub + after, sub)
  {
    var s := before + sub + after;
    assert s[|before|..][..|sub|] == sub;
    assert StartsWith(s[|before|..], sub);
  }

  /** A string lacking one of the characters of `sub` does not contain it. */
  lemma MissingCharNotContained(s: string, sub: string, c: char)
    requires c in sub && c !in s
    ensures !Contains(s, sub)
  {
    var j :| 0 <= j < |sub| && sub[j] == c;
    forall i | 0 <= i <= |s| ensures !StartsWith(s[i..], sub) {
      if |sub| <= |s[i..]| {
        assert s[i..][..|sub|][j] == s[i + j];
      }
    }
  }

  /** No string contains something longer than itself. */
  lemma ContainsIsNoLonger(s: string, sub: string)
    requires Contains(s, sub)
    ensures |sub| <= |s|
  {
  }

  /** `Character.isWhitespace`: the ASCII controls U+0009..U+000D and
      U+001C..U+001F, and the Unicode space, line and paragraph separators
      other than the non-breaking ones (U+00A0, U+2007, U+202F). */
  predicate IsJavaWhitespace(c: char) {
    || ('\t' <= c <= '\r')
    || ('\U{1C}' <= c <= '\U{1F}')
    || c == ' '
    || c == '\U{1680}'
    || ('\U{2000}' <= c <= '\U{2006}')
    || ('\U{2008}' <= c <= '\U{200A}')
    || c == '\U{2028}' || c == '\U{2029}'
    || c == '\U{205F}' || c == '\U{3000}'
  }

  /** `s.isBlank()`: empty, or whitespace only. */
  predicate IsBlank(s: string) {
    forall i :: 0 <= i < |s| ==> IsJavaWhitespace(s[i])
  }

  /** `String.join(sep, parts)` */
  function Join(parts: seq<string>, sep: string): string
    decreases |parts|
  {
    if |parts| == 0 then ""
    else if |parts| == 1 then parts[0]
    else parts[0] + sep + Join(parts[1..], sep)
  }

  /** Splitting at every occurrence of `c`; the reading a downstream service
      applies to a joined header. The independent partner of `Join`. */
  function Split(s: string, c: char): (r: seq<string>)
    ensures |r| > 0
    decreases |s|
  {
    if |s| == 0 then [""]
    else
      var rest := Split(s[1..], c);
      if s[0] == c then [""] + rest
      else [[s[0]] + rest[0]] + rest[1..]
  }

  lemma {:induction false} SplitWithoutSeparator(x: string, c: char)
    requires c !in x
    ensures Split(x, c) == [x]
    decreases |x|
  {
    if |x| > 0 {
      SplitWithoutSeparator(x[1..], c);
      assert [x[0]] + x[1..] == x;
    }
  }

  lemma {:induction false} SplitAtFirstSeparator(x: string, c: char, t: string)
    requires c !in x
    ensures Split(x + [c] + t, c) == [x] + Split(t, c)
    decreases |x|
  {
    var s := x + [c] + t;
    if |x| == 0 {
      assert s[1..] == t;
    } else {
      assert s[1..] == x[1..] + [c] + t;
      SplitAtFirstSeparator(x[1..], c, t);
      assert [x[0]] + x[1..] == x;
    }
  }

  /** Joining with a one-character separator that no part contains and then
      splitting at it gives the parts back. */
  lemma {:induction false} SplitJoin(parts: seq<string>, c: char)
    requires |parts| > 0
    requires forall i :: 0 <= i < |parts| ==> c !in parts[i]
    ensures Split(Join(parts, [c]), c) == parts
    decreases |parts|
  {
    if |parts| == 1 {
      SplitWithoutSeparator(parts[0], c);
    } else {
      SplitJoin(parts[1..], c);
      SplitAtFirstSeparator(parts[0], c, Join(parts[1..], [c]));
      assert [parts[0]] + parts[1..] == parts;
    }
  }

  /** Each part with `prefix` in front of it. */
  function PrefixEach(parts: seq<string>, prefix: string): (r: seq<string>)
    ensures |r| == |parts|
    ensures forall i :: 0 <= i < |r| ==> r[i] == prefix + parts[i]
  {
    seq(|parts|, i requires 0 <= i < |parts| => prefix + parts[i])
  }

  /** A separator `c` followed by `pad` moves `pad` onto the front of every
      part but the first: joining with it is joining the padded parts with
      `c` alone. */
  lemma {:induction false} JoinPaddedSeparator(parts: seq<string>, c: char, pad: string)
    requires |parts| > 0
    ensures Join(parts, [c] + pad) == Join([parts[0]] + PrefixEach(parts[1..], pad), [c])
  {
    if |parts| > 1 {
      PaddedJoin(parts[1..], c, pad);
      var tail := PrefixEach(parts[1..], pad);
      assert ([parts[0]] + tail)[1..] == tail;
    }
  }

  lemma {:induction false} PaddedJoin(parts: seq<string>, c: char, pad: string)
    requires |parts| > 0
    ensures pad + Join(parts, [c] + pad) == Join(PrefixEach(parts, pad), [c])
    decreases |parts|
  {
    var padded := PrefixEach(parts, pad);
    if |parts| > 1 {
      PaddedJoin(parts[1..], c, pad);
      assert padded[1..] == PrefixEach(parts[1..], pad);
      assert pad + Join(parts, [c] + pad) == (pad + parts[0]) + [c] + (pad + Join(parts[1..], [c] + pad));
    }
  }
}
