/** The two string primitives of JavaScript that the components lean on:
    `String.prototype.trim` (used as a truthiness test for "has the user typed
    anything") and `String.prototype.split` with a one-character separator
    followed by `Array.prototype.pop` (used to derive a repository name from
    its URL). Strings are sequences of Unicode scalar values. */
module Text {

  /** The characters `trim` removes: the WhiteSpace and LineTerminator
      productions of the ECMAScript language specification (tab, vertical tab,
      form feed, space, no-break space, byte order mark, every space separator
      of Unicode category Zs, and the four line terminators). */
  predicate IsWhitespace(c: char) {
    var n := c as int;
    || n == 0x09 || n == 0x0B || n == 0x0C || n == 0x20 || n == 0xA0 || n == 0xFEFF
    || n == 0x1680 || (0x2000 <= n <= 0x200A) || n == 0x202F || n == 0x205F || n == 0x3000
    || n == 0x0A || n == 0x0D || n == 0x2028 || n == 0x2029
  }

  predicate AllWhitespace(s: string) {
    forall i :: 0 <= i < |s| ==> IsWhitespace(s[i])
  }

  /** The number of whitespace characters `s` starts with. */
  function LeadingSpace(s: string): (k: nat)
    ensures k <= |s|
    ensures forall i :: 0 <= i < k ==> IsWhitespace(s[i])
    ensures k < |s| ==> !IsWhitespace(s[k])
  {
    if s != [] && IsWhitespace(s[0]) then 1 + LeadingSpace(s[1..]) else 0
  }

  /** The number of whitespace characters `s` ends with. */
  function TrailingSpace(s: string): (k: nat)
    ensures k <= |s|
    ensures forall i :: |s| - k <= i < |s| ==> IsWhitespace(s[i])
    ensures k < |s| ==> !IsWhitespace(s[|s| - k - 1])
  {
    if s != [] && IsWhitespace(s[|s| - 1]) then 1 + TrailingSpace(s[..|s| - 1]) else 0
  }

  /** `s` with its leading whitespace removed. */
  function TrimStart(s: string): (r: string)
    ensures |r| <= |s| && r == s[|s| - |r|..]
    ensures AllWhitespace(s[..|s| - |r|])
    ensures r != [] ==> !IsWhitespace(r[0])
  {
    var k := LeadingSpace(s);
    assert forall i :: 0 <= i < k ==> s[..k][i] == s[i];
    s[k..]
  }

  /** `s` with its trailing whitespace removed. */
  function TrimEnd(s: string): (r: string)
    ensures |r| <= |s| && r == s[..|r|]
    ensures AllWhitespace(s[|r|..])
    ensures r != [] ==> !IsWhitespace(r[|r| - 1])
  {
    var k := TrailingSpace(s);
    var tail := s[|s| - k..];
    assert forall i :: 0 <= i < k ==> tail[i] == s[|s| - k + i];
    s[..|s| - k]
  }

  /** `r` is what is left of `s` once a prefix and a suffix made of
      whitespace only are cut off. */
  predicate InnerSlice(r: string, s: string) {
    exists i, j :: 0 <= i <= j <= |s| && r == s[i..j] && AllWhitespace(s[..i]) && AllWhitespace(s[j..])
  }

  /** `s.trim()`: the slice of `s` left once its leading and trailing
      whitespace is cut off. It neither starts nor ends with whitespace, and
      is empty exactly when `s` is all whitespace. */
  function Trim(s: string): (r: string)
    ensures |r| <= |s|
    ensures InnerSlice(r, s)
    ensures r != [] ==> !IsWhitespace(r[0]) && !IsWhitespace(r[|r| - 1])
    ensures r == [] <==> AllWhitespace(s)
  {
    var t := TrimStart(s);
    var r := TrimEnd(t);
    TrimSlice(s, t, r);
    r
  }

  /** A whitespace-free start `t` of `s` cut down to a whitespace-free end
      `r` is a slice of `s` surrounded by whitespace only. */
  lemma TrimSlice(s: string, t: string, r: string)
    requires |t| <= |s| && t == s[|s| - |t|..] && AllWhitespace(s[..|s| - |t|])
    requires t != [] ==> !IsWhitespace(t[0])
    requires |r| <= |t| && r == t[..|r|] && AllWhitespace(t[|r|..])
    requires r != [] ==> !IsWhitespace(r[|r| - 1])
    ensures |r| <= |s|
    ensures InnerSlice(r, s)
    ensures r != [] ==> !IsWhitespace(r[0]) && !IsWhitespace(r[|r| - 1])
    ensures r == [] <==> AllWhitespace(s)
  {
    var i := |s| - |t|;
    var j := i + |r|;
    assert r == t[..|r|] == s[i..j];
    assert s[j..] == t[|r|..];
    assert 0 <= i <= j <= |s| && AllWhitespace(s[..i]) && AllWhitespace(s[j..]);
    if r == [] {
      assert t == [];
      assert s[..i] == s;
    } else {
      assert t[0] == r[0];
      assert s[i] == r[0];
    }
  }

  /** JavaScript's truthiness of `s.trim()` is false: the input is blank. */
  predicate IsBlank(s: string) {
    Trim(s) == []
  }

  /** `parts.join([sep])`. */
  function Join(parts: seq<string>, sep: char): (s: string)
    requires |parts| >= 1
  {
    if |parts| == 1 then parts[0] else parts[0] + [sep] + Join(parts[1..], sep)
  }

  /** `s.split(sep)` for a one-character separator: never empty, every piece
      free of the separator, and joining the pieces back gives `s`. */
  function Split(s: string, sep: char): (parts: seq<string>)
    ensures |parts| >= 1
    ensures forall i :: 0 <= i < |parts| ==> sep !in parts[i]
    ensures Join(parts, sep) == s
  {
    if s == [] then
      [[]]
    else if s[0] == sep then
      var rest := Split(s[1..], sep);
      assert [sep] + Join(rest, sep) == s;
      [[]] + rest
    else
      var rest := Split(s[1..], sep);
      var parts := [[s[0]] + rest[0]] + rest[1..];
      assert parts[1..] == rest[1..];
      assert Join(parts, sep) == [s[0]] + Join(rest, sep);
      parts
  }

  /** `r` is the part of `s` after the last `sep`, or all of `s` when `sep`
      does not occur in it. */
  predicate IsLastSegment(r: string, s: string, sep: char) {
    && |r| <= |s|
    && r == s[|s| - |r|..]
    && sep !in r
    && (|r| == |s| || s[|s| - |r| - 1] == sep)
  }

  /** Joining peels off the last piece: with two or more pieces, the joined
      string is the join of all but the last, the separator, then the last. */
  lemma {:induction false} JoinLast(parts: seq<string>, sep: char)
    requires |parts| >= 2
    ensures Join(parts, sep) == Join(parts[..|parts| - 1], sep) + [sep] + parts[|parts| - 1]
  {
    var n := |parts|;
    if n > 2 {
      JoinLast(parts[1..], sep);
      assert parts[..n - 1][1..] == parts[1..][..n - 2];
    }
  }

  /** The last piece of `split` is the part after the last separator. */
  lemma SplitLastIsAfterLastSeparator(s: string, sep: char)
    ensures var parts := Split(s, sep); IsLastSegment(parts[|parts| - 1], s, sep)
  {
    var parts := Split(s, sep);
    var r := parts[|parts| - 1];
    assert sep !in r;
    if |parts| >= 2 {
      JoinLast(parts, sep);
      var front := Join(parts[..|parts| - 1], sep) + [sep];
      assert s == front + r;
      assert s[|s| - |r|..] == r;
      assert s[|s| - |r| - 1] == front[|front| - 1] == sep;
    } else {
      assert s == r;
    }
  }

  /** `s.split(sep).pop()`: the part of `s` after its last `sep` (the array
      returned by `split` is never empty, so `pop` always yields a string). */
  function LastSegment(s: string, sep: char): (r: string)
    ensures IsLastSegment(r, s, sep)
  {
    var parts := Split(s, sep);
    SplitLastIsAfterLastSeparator(s, sep);
    parts[|parts| - 1]
  }

  /** The characterisation of the last segment pins it down uniquely. */
  lemma LastSegmentUnique(a: string, b: string, s: string, sep: char)
    requires IsLastSegment(a, s, sep) && IsLastSegment(b, s, sep)
    ensures a == b
  {
  }
}
