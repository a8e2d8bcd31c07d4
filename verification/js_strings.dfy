/**
 * The few JavaScript string operations the application relies on, written
 * out on `seq<char>`: `startsWith`, `endsWith`, `split` on a one-character
 * separator (with its inverse `join`), the `\s` whitespace class of regular
 * expressions and `trim`.
 */
module JsStrings {

  /** `s.startsWith(p)` */
  predicate StartsWith(s: string, p: string) {
    |p| <= |s| && s[..|p|] == p
  }

  /** `s.endsWith(p)` */
  predicate EndsWith(s: string, p: string) {
    |p| <= |s| && s[|s| - |p|..] == p
  }

  /**
   * The characters matched by `\s` in a JavaScript regular expression,
   * which are also the ones `String.prototype.trim` removes: the ASCII
   * blanks, no-break space, the Unicode space separators, the line and
   * paragraph separators and the byte-order mark.
   */
  predicate IsWhitespace(c: char) {
    || c == ' ' || c == '\t' || c == '\n' || c == '\U{B}' || c == '\U{C}' || c == '\r'
    || c == '\U{A0}' || c == '\U{1680}' || ('\U{2000}' <= c <= '\U{200A}')
    || c == '\U{2028}' || c == '\U{2029}' || c == '\U{202F}' || c == '\U{205F}'
    || c == '\U{3000}' || c == '\U{FEFF}'
  }

  /** A concatenation ends with its right operand. */
  lemma EndsWithAppend(a: string, b: string)
    ensures EndsWith(a + b, b)
  {
    assert (a + b)[|a|..] == b;
  }

  /**
   * A prefix `r` of a suffix `t` of `s` sits in `s` at the offset where
   * `t` starts.
   */
  lemma SuffixPrefixSlice(s: string, t: string, r: string)
    requires EndsWith(s, t) && StartsWith(t, r)
    ensures var k := |s| - |t|; k + |r| <= |s| && s[k..k + |r|] == r
  {
    var k := |s| - |t|;
    assert s[k..k + |r|] == s[k..][..|r|];
  }

  predicate AllWhitespace(s: string) {
    forall i :: 0 <= i < |s| ==> IsWhitespace(s[i])
  }

  /** `s.trimStart()`: the suffix left after dropping the leading whitespace run. */
  function TrimStart(s: string): (r: string)
    ensures EndsWith(s, r)
    ensures r == [] || !IsWhitespace(r[0])
    decreases |s|
  {
    if |s| > 0 && IsWhitespace(s[0]) then
      var r := TrimStart(s[1..]);
      assert s[|s| - |r|..] == s[1..][|s| - 1 - |r|..];
      r
    else s
  }

  /** `s.trimEnd()`: the prefix left after dropping the trailing whitespace run. */
  function TrimEnd(s: string): (r: string)
    ensures StartsWith(s, r)
    ensures r == [] || !IsWhitespace(r[|r| - 1])
    decreases |s|
  {
    if |s| > 0 && IsWhitespace(s[|s| - 1]) then
      var r := TrimEnd(s[..|s| - 1]);
      assert s[..|r|] == s[..|s| - 1][..|r|];
      r
    else s
  }

  /** `s.trim()` */
  function Trim(s: string): (r: string)
    ensures |r| <= |s|
    ensures r == [] || (!IsWhitespace(r[0]) && !IsWhitespace(r[|r| - 1]))
  {
    TrimEnd(TrimStart(s))
  }

  /** `TrimStart` drops only whitespace. */
  lemma {:induction false} TrimStartDropsWhitespace(s: string)
    ensures forall i :: 0 <= i < |s| - |TrimStart(s)| ==> IsWhitespace(s[i])
    decreases |s|
  {
    if |s| > 0 && IsWhitespace(s[0]) {
      var t := s[1..];
      TrimStartDropsWhitespace(t);
      assert TrimStart(s) == TrimStart(t);
      forall i | 1 <= i < |s| - |TrimStart(s)|
        ensures IsWhitespace(s[i])
      {
        assert s[i] == t[i - 1];
      }
    }
  }

  /** `TrimEnd` drops only whitespace. */
  lemma {:induction false} TrimEndDropsWhitespace(s: string)
    ensures forall i :: |TrimEnd(s)| <= i < |s| ==> IsWhitespace(s[i])
    decreases |s|
  {
    if |s| > 0 && IsWhitespace(s[|s| - 1]) {
      var t := s[..|s| - 1];
      TrimEndDropsWhitespace(t);
      assert TrimEnd(s) == TrimEnd(t);
      forall i | |TrimEnd(s)| <= i < |s| - 1
        ensures IsWhitespace(s[i])
      {
        assert s[i] == t[i];
      }
    }
  }

  /**
   * `Trim` keeps a contiguous middle part of its input: what follows the
   * leading whitespace run, up to the trailing one.
   */
  lemma {:induction false} TrimShape(s: string)
    ensures var k := |s| - |TrimStart(s)|; var r := Trim(s);
      k + |r| <= |s| && s[k..k + |r|] == r
  {
    var t := TrimStart(s);
    var r := TrimEnd(t);
    assert Trim(s) == r;
    SuffixPrefixSlice(s, t, r);
  }

  /** Text with no whitespace at either end is its own trim. */
  lemma TrimUnchanged(s: string)
    requires s != [] && !IsWhitespace(s[0]) && !IsWhitespace(s[|s| - 1])
    ensures Trim(s) == s
  {
  }

  /** Trimming twice is trimming once. */
  lemma {:induction false} TrimIdempotent(s: string)
    ensures Trim(Trim(s)) == Trim(s)
  {
  }

  /**
   * `parts.join(sep)`: the pieces with one separator between neighbours.
   */
  function Join(parts: seq<string>, sep: char): string
    requires |parts| >= 1
    decreases |parts|
  {
    if |parts| == 1 then parts[0] else parts[0] + [sep] + Join(parts[1..], sep)
  }

  /**
   * `s.split(sep)` for a one-character separator: the maximal separator-free
   * pieces, always at least one (the empty string splits into `[""]`), which
   * join back into `s`.
   */
  function Split(s: string, sep: char): (parts: seq<string>)
    ensures |parts| >= 1
    ensures forall i :: 0 <= i < |parts| ==> sep !in parts[i]
    ensures Join(parts, sep) == s
    decreases |s|
  {
    if |s| == 0 then [""]
    else
      var rest := Split(s[1..], sep);
      if s[0] == sep then [""] + rest
      else
        var parts := [[s[0]] + rest[0]] + rest[1..];
        assert parts[1..] == rest[1..];
        parts
  }

  /** Joining separator-free pieces and splitting again gives the pieces back. */
  lemma {:induction false} SplitJoin(parts: seq<string>, sep: char)
    requires |parts| >= 1
    requires forall i :: 0 <= i < |parts| ==> sep !in parts[i]
    ensures Split(Join(parts, sep), sep) == parts
    decreases |Join(parts, sep)|
  {
    var s := Join(parts, sep);
    if |parts[0]| == 0 {
      if |parts| == 1 {
      } else {
        var tail := parts[1..];
        SplitJoin(tail, sep);
        assert s == [sep] + Join(tail, sep);
        assert s[1..] == Join(tail, sep);
      }
    } else {
      var c := parts[0][0];
      var shorter := [parts[0][1..]] + parts[1..];
      assert shorter[1..] == parts[1..];
      forall i | 0 <= i < |shorter|
        ensures sep !in shorter[i]
      {
        if i > 0 {
          assert shorter[i] == parts[i];
        }
      }
      SplitJoin(shorter, sep);
      assert parts[0] == [c] + parts[0][1..];
      assert s == [c] + Join(shorter, sep);
      assert s[1..] == Join(shorter, sep);
      assert c != sep;
      assert Split(s, sep) == [[c] + shorter[0]] + shorter[1..];
    }
  }

  /** A piece list with more than one piece contains the separator once joined. */
  lemma {:induction false} JoinHasSeparator(parts: seq<string>, sep: char)
    requires |parts| > 1
    ensures sep in Join(parts, sep)
  {
  }

  /** The last piece ends the joined text, right after a separator when there are several pieces. */
  lemma {:induction false} JoinLast(parts: seq<string>, sep: char)
    requires |parts| >= 1
    ensures var s := Join(parts, sep); var last := parts[|parts| - 1];
      EndsWith(s, last) && (|parts| > 1 ==> |last| < |s| && s[|s| - |last| - 1] == sep)
    decreases |parts|
  {
    if |parts| > 1 {
      var tail := parts[1..];
      JoinLast(tail, sep);
      assert tail[|tail| - 1] == parts[|parts| - 1];
      var s := Join(parts, sep);
      var t := Join(tail, sep);
      var last := parts[|parts| - 1];
      assert s == parts[0] + [sep] + t;
      assert s[|s| - |t|..] == t;
      assert s[|s| - |last|..] == t[|t| - |last|..];
      if |tail| == 1 {
        assert last == t;
        assert s[|s| - |last| - 1] == sep;
      } else {
        assert s[|s| - |last| - 1] == t[|t| - |last| - 1];
      }
    }
  }

  /**
   * The first piece of a split is the text before the first separator and
   * the last piece the text after the last one; without a separator the
   * split is the whole string.
   */
  lemma {:induction false} SplitEnds(s: string, sep: char)
    ensures StartsWith(s, Split(s, sep)[0])
    ensures EndsWith(s, Split(s, sep)[|Split(s, sep)| - 1])
    ensures sep in s ==> |Split(s, sep)[0]| < |s| && s[|Split(s, sep)[0]|] == sep
    ensures sep in s ==> var last := Split(s, sep)[|Split(s, sep)| - 1];
      |last| < |s| && s[|s| - |last| - 1] == sep
    ensures sep !in s ==> Split(s, sep) == [s]
    ensures sep !in Split(s, sep)[0]
    ensures sep !in Split(s, sep)[|Split(s, sep)| - 1]
  {
    var parts := Split(s, sep);
    var first := parts[0];
    JoinLast(parts, sep);
    if |parts| > 1 {
      JoinHasSeparator(parts, sep);
      var tail := Join(parts[1..], sep);
      assert s == first + [sep] + tail;
      assert s[..|first|] == first;
      assert s[|first|] == sep;
    } else {
      assert s == first;
      assert parts == [first];
    }
  }
}
