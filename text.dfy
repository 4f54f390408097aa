/** Models of the Python string built-ins that app.py uses: `str.split(",")`,
    `str.strip()` and `str.lower()` on the text of its tables, and `str.startswith`
    on the current diagnosis. */
module Text {

  /** `s.startswith(prefix)`. */
  predicate StartsWith(s: string, prefix: string) {
    |prefix| <= |s| && s[..|prefix|] == prefix
  }

  // ---------------------------------------------------------------------------
  // str.split(sep) with an explicit separator
  // ---------------------------------------------------------------------------

  /** `sep.join(parts)`: the inverse of `Split`. */
  function Join(parts: seq<string>, sep: char): string
    decreases |parts|
  {
    if parts == [] then []
    else if |parts| == 1 then parts[0]
    else parts[0] + [sep] + Join(parts[1..], sep)
  }

  /** `s.split(sep)`: always at least one piece (`"".split(",") == [""]`),
      empty pieces kept, no piece contains the separator, and joining the
      pieces back gives `s`. */
  function Split(s: string, sep: char): (parts: seq<string>)
    ensures |parts| >= 1
    ensures forall i :: 0 <= i < |parts| ==> sep !in parts[i]
    ensures Join(parts, sep) == s
    decreases |s|
  {
    if s == [] then [[]]
    else
      var rest := Split(s[1..], sep);
      if s[0] == sep then [[]] + rest
      else [[s[0]] + rest[0]] + rest[1..]
  }

  /** Splitting text whose first piece is `p` puts `p` in front of the first
      piece of the remainder. */
  lemma {:induction false} SplitPrefix(p: string, t: string, sep: char)
    requires sep !in p
    ensures Split(p + t, sep) == [p + Split(t, sep)[0]] + Split(t, sep)[1..]
    decreases |p|
  {
    if p == [] {
      var st := Split(t, sep);
      assert p + t == t && p + st[0] == st[0];
      assert [st[0]] + st[1..] == st;
    } else {
      assert (p + t)[1..] == p[1..] + t;
      SplitPrefix(p[1..], t, sep);
      assert [p[0]] + (p[1..] + Split(t, sep)[0]) == p + Split(t, sep)[0];
    }
  }

  /** Text that starts with the separator splits into an empty piece followed by
      the pieces of the rest. */
  lemma SplitAfterSeparator(rest: string, sep: char)
    ensures Split([sep] + rest, sep) == [[]] + Split(rest, sep)
  {
  }

  /** Round trip: splitting a joined list of separator-free pieces gives the pieces back. */
  lemma {:induction false} SplitJoin(parts: seq<string>, sep: char)
    requires |parts| >= 1
    requires forall i :: 0 <= i < |parts| ==> sep !in parts[i]
    ensures Split(Join(parts, sep), sep) == parts
    decreases |parts|
  {
    var p := parts[0];
    if |parts| == 1 {
      SplitPrefix(p, [], sep);
      assert p + [] == p;
      assert [p] == parts;
    } else {
      var rest := Join(parts[1..], sep);
      assert Join(parts, sep) == p + ([sep] + rest) by {
        assert Join(parts, sep) == p + [sep] + rest;
      }
      SplitJoin(parts[1..], sep);
      SplitAfterSeparator(rest, sep);
      SplitPrefix(p, [sep] + rest, sep);
      assert p + [] == p;
      assert [p] + parts[1..] == parts;
    }
  }

  // ---------------------------------------------------------------------------
  // str.strip() with no argument
  // ---------------------------------------------------------------------------

  /** The characters for which Python's `str.isspace()` holds, which `str.strip()` removes. */
  predicate IsSpace(c: char) {
    var n := c as int;
    9 <= n <= 13 || 28 <= n <= 32 || n == 0x85 || n == 0xA0 || n == 0x1680
    || 0x2000 <= n <= 0x200A || n == 0x2028 || n == 0x2029 || n == 0x202F
    || n == 0x205F || n == 0x3000
  }

  predicate AllSpace(s: string) {
    forall i :: 0 <= i < |s| ==> IsSpace(s[i])
  }

  /** `s.strip()`: the result neither starts nor ends with whitespace. */
  function Strip(s: string): (r: string)
    ensures |r| <= |s|
    ensures r == [] || (!IsSpace(r[0]) && !IsSpace(r[|r| - 1]))
    decreases |s|
  {
    if s != [] && IsSpace(s[0]) then Strip(s[1..])
    else if s != [] && IsSpace(s[|s| - 1]) then Strip(s[..|s| - 1])
    else s
  }

  /** `strip` removes exactly the surrounding whitespace: padding a string on
      either side with whitespace does not change what it strips to. */
  lemma {:induction false} StripIgnoresPadding(pre: string, s: string, post: string)
    requires AllSpace(pre) && AllSpace(post)
    ensures Strip(pre + s + post) == Strip(s)
    decreases |pre| + |s| + |post|
  {
    var w := pre + s + post;
    if pre != [] {
      assert w[0] == pre[0];
      assert w[1..] == pre[1..] + s + post;
      StripIgnoresPadding(pre[1..], s, post);
    } else if s != [] && IsSpace(s[0]) {
      assert w == s + post && w[0] == s[0];
      assert w[1..] == [] + s[1..] + post;
      StripIgnoresPadding([], s[1..], post);
    } else if post != [] {
      assert w == s + post && w[|w| - 1] == post[|post| - 1];
      if s == [] {
        assert w[0] == post[0];
        assert w[1..] == [] + [] + post[1..];
        StripIgnoresPadding([], [], post[1..]);
      } else {
        assert w[0] == s[0];
        assert w[..|w| - 1] == [] + s + post[..|post| - 1];
        StripIgnoresPadding([], s, post[..|post| - 1]);
      }
    } else {
      assert w == s;
    }
  }

  /** A string with no whitespace at either end strips to itself, and only such a string does. */
  lemma StripFixpoint(s: string)
    ensures Strip(s) == s <==> (s == [] || (!IsSpace(s[0]) && !IsSpace(s[|s| - 1])))
  {
  }

  // ---------------------------------------------------------------------------
  // str.lower()
  // ---------------------------------------------------------------------------

  /** Upper-case letters of the ASCII and Latin-1 ranges (A-Z, À-Þ except ×). */
  predicate IsUpper(c: char) {
    var n := c as int;
    65 <= n <= 90 || (192 <= n <= 222 && n != 215)
  }

  /** The lower-case partner of a letter: 32 code points further on in both ranges. */
  function LowerChar(c: char): (d: char)
    ensures !IsUpper(d)
    ensures !IsUpper(c) ==> d == c
    ensures IsUpper(c) ==> d as int == c as int + 32
  {
    if IsUpper(c) then (c as int + 32) as char else c
  }

  /** `s.lower()`, character by character: same length, no upper-case letter left,
      every other character kept, and every upper-case letter replaced by its partner. */
  function Lower(s: string): (r: string)
    ensures |r| == |s|
    ensures forall i :: 0 <= i < |r| ==> !IsUpper(r[i])
    ensures forall i :: 0 <= i < |s| && !IsUpper(s[i]) ==> r[i] == s[i]
    ensures forall i :: 0 <= i < |s| && IsUpper(s[i]) ==> r[i] as int == s[i] as int + 32
  {
    seq(|s|, i requires 0 <= i < |s| => LowerChar(s[i]))
  }

  /** A string lowers to itself exactly when it holds no upper-case letter. */
  lemma LowerFixpoint(s: string)
    ensures Lower(s) == s <==> forall i :: 0 <= i < |s| ==> !IsUpper(s[i])
  {
  }

  /** Lowering twice is lowering once. */
  lemma LowerIdempotent(s: string)
    ensures Lower(Lower(s)) == Lower(s)
  {
  }
}
