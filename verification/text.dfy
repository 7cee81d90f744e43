/** The string operations the controller relies on: trimming white space
    (to detect a blank search keyword), lower-casing and taking the text after
    the last `.` of a file name (to find its extension). */
module Text {

  /** The characters JavaScript's `trim` removes: the WhiteSpace code points
      (tab, vertical tab, form feed, space, no-break space, byte order mark and
      the other space separators) and the LineTerminator code points. */
  predicate IsWhitespace(c: char)
  {
    || c == '\t' || c == '\n' || c == '\U{000B}' || c == '\U{000C}' || c == '\r'
    || c == ' ' || c == '\U{00A0}' || c == '\U{1680}'
    || ('\U{2000}' <= c <= '\U{200A}')
    || c == '\U{2028}' || c == '\U{2029}' || c == '\U{202F}' || c == '\U{205F}'
    || c == '\U{3000}' || c == '\U{FEFF}'
  }

  predicate AllWhitespace(s: string)
  {
    forall i :: 0 <= i < |s| ==> IsWhitespace(s[i])
  }

  /** `s` without its leading white space. */
  function TrimStart(s: string): (r: string)
    ensures |r| <= |s| && r == s[|s| - |r|..]
    ensures AllWhitespace(s[..|s| - |r|])
    ensures |r| > 0 ==> !IsWhitespace(r[0])
  {
    if |s| > 0 && IsWhitespace(s[0]) then TrimStart(s[1..]) else s
  }

  /** `s` without its trailing white space. */
  function TrimEnd(s: string): (r: string)
    ensures |r| <= |s| && r == s[..|r|]
    ensures AllWhitespace(s[|r|..])
    ensures |r| > 0 ==> !IsWhitespace(r[|r| - 1])
  {
    if |s| > 0 && IsWhitespace(s[|s| - 1]) then TrimEnd(s[..|s| - 1]) else s
  }

  /** JavaScript's `String.prototype.trim`: nothing but white space is cut,
      the result is empty exactly for an all-white-space input, and a
      non-empty result is bounded by characters that are not white space. */
  function Trim(s: string): (r: string)
    ensures |r| <= |s|
    ensures r == "" <==> AllWhitespace(s)
    ensures |r| > 0 ==> !IsWhitespace(r[0]) && !IsWhitespace(r[|r| - 1])
  {
    TrimEnd(TrimStart(s))
  }

  /** Trimming leaves the empty string exactly when every character is white
      space; this is the test `!keyword.trim()` makes. */
  lemma BlankIffAllWhitespace(s: string)
    ensures Trim(s) == "" <==> AllWhitespace(s)
  {
  }

  /** Trimming keeps the middle of `s`: what it removes on either side is
      white space, and a non-empty result starts and ends with a character
      that is not. */
  lemma TrimKeepsMiddle(s: string)
    ensures exists lo, hi ::
              && 0 <= lo <= hi <= |s| && Trim(s) == s[lo..hi]
              && AllWhitespace(s[..lo]) && AllWhitespace(s[hi..])
    ensures |Trim(s)| > 0 ==> !IsWhitespace(Trim(s)[0]) && !IsWhitespace(Trim(s)[|Trim(s)| - 1])
  {
    var front := TrimStart(s);
    var t := TrimEnd(front);
    var lo := |s| - |front|;
    var hi := lo + |t|;
    assert t == s[lo..hi];
    assert s[hi..] == front[|t|..];
    if |t| > 0 {
      assert t[0] == front[0];
    }
  }

  /** Lower-cases one character; only the ASCII letters A-Z are mapped. */
  function LowerChar(c: char): char
  {
    if 'A' <= c <= 'Z' then (c as int - 'A' as int + 'a' as int) as char else c
  }

  /** Lower-cases every character of `s`. */
  function ToLower(s: string): (r: string)
    ensures |r| == |s|
    ensures forall i :: 0 <= i < |s| ==> r[i] == LowerChar(s[i])
    ensures forall i :: 0 <= i < |s| ==> !('A' <= r[i] <= 'Z')
    ensures forall i :: 0 <= i < |s| && !('A' <= s[i] <= 'Z') ==> r[i] == s[i]
  {
    seq(|s|, i requires 0 <= i < |s| => LowerChar(s[i]))
  }

  /** Lower-casing leaves no upper-case ASCII letter behind, so applying it
      twice changes nothing more. */
  lemma ToLowerIdempotent(s: string)
    ensures ToLower(ToLower(s)) == ToLower(s)
    ensures forall i :: 0 <= i < |s| ==> !('A' <= ToLower(s)[i] <= 'Z')
  {
  }

  /** The last element of `name.split('.')`: the text after the last `.`, or
      the whole name when it has no `.`. It is the longest suffix of `name`
      without a `.`. */
  function LastSegment(name: string): (r: string)
    ensures |r| <= |name| && r == name[|name| - |r|..]
    ensures '.' !in r
    ensures |r| < |name| ==> name[|name| - |r| - 1] == '.'
  {
    if |name| == 0 then ""
    else if name[|name| - 1] == '.' then ""
    else LastSegment(name[..|name| - 1]) + [name[|name| - 1]]
  }

  /** A name without a `.` is its own last segment. */
  lemma LastSegmentOfUndotted(name: string)
    requires '.' !in name
    ensures LastSegment(name) == name
  {
  }

  /** Whatever precedes the last `.`, the last segment is what follows it. */
  lemma {:induction false} LastSegmentAfterDot(base: string, ext: string)
    requires '.' !in ext
    ensures LastSegment(base + "." + ext) == ext
    decreases |ext|
  {
    var name := base + "." + ext;
    if ext != "" {
      var init := ext[..|ext| - 1];
      assert name[..|name| - 1] == base + "." + init;
      assert name[|name| - 1] == ext[|ext| - 1] != '.';
      LastSegmentAfterDot(base, init);
      assert ext == init + [ext[|ext| - 1]];
    }
  }
}
