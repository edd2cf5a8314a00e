/** The parts of .NET string handling that the modelled code relies on:
    char.IsWhiteSpace, string.IsNullOrWhiteSpace, Trim, Split on one character,
    string.Join, ToLowerInvariant, and ordinal case-insensitive comparison.
    Case mapping is modelled on the ASCII letters only. */
module Text {
  import opened Wrappers

  /** char.IsWhiteSpace: U+0009..U+000D, U+0020, U+0085, U+00A0 and the Unicode
      space, line and paragraph separators. */
  predicate IsWhiteSpace(c: char) {
    var n := c as int;
    (0x9 <= n <= 0xD) || n == 0x20 || n == 0x85 || n == 0xA0 || n == 0x1680
    || (0x2000 <= n <= 0x200A) || n == 0x2028 || n == 0x2029 || n == 0x202F
    || n == 0x205F || n == 0x3000
  }

  /** Empty, or made of white-space characters only. */
  predicate IsBlank(s: string) {
    forall i :: 0 <= i < |s| ==> IsWhiteSpace(s[i])
  }

  /** string.IsNullOrWhiteSpace */
  predicate IsNullOrWhiteSpace(s: Option<string>) {
    s.None? || IsBlank(s.value)
  }

  /** string.TrimStart(): the suffix left after dropping leading white space. */
  function TrimStart(s: string): (r: string)
    ensures |r| <= |s| && r == s[|s| - |r|..]
    ensures r == [] || !IsWhiteSpace(r[0])
    ensures IsBlank(s[..|s| - |r|])
  {
    if |s| > 0 && IsWhiteSpace(s[0]) then
      var r := TrimStart(s[1..]);
      assert s[..|s| - |r|] == [s[0]] + s[1..][..|s| - 1 - |r|];
      r
    else s
  }

  /** string.TrimEnd(): the prefix left after dropping trailing white space. */
  function TrimEnd(s: string): (r: string)
    ensures |r| <= |s| && r == s[..|r|]
    ensures r == [] || !IsWhiteSpace(r[|r| - 1])
    ensures IsBlank(s[|r|..])
  {
    if |s| > 0 && IsWhiteSpace(s[|s| - 1]) then
      var r := TrimEnd(s[..|s| - 1]);
      assert s[|r|..] == s[..|s| - 1][|r|..] + [s[|s| - 1]];
      r
    else s
  }

  /** string.Trim(): empty exactly for a blank string; otherwise it starts and
      ends with a character that is not white space. */
  function Trim(s: string): (r: string)
    ensures |r| <= |s|
    ensures r == "" <==> IsBlank(s)
    ensures r != "" ==> !IsWhiteSpace(r[0]) && !IsWhiteSpace(r[|r| - 1])
  {
    var t := TrimStart(s);
    var r := TrimEnd(t);
    BlankTrim(s, t, r);
    r
  }

  lemma BlankTrim(s: string, t: string, r: string)
    requires t == TrimStart(s) && r == TrimEnd(t)
    ensures r == "" <==> IsBlank(s)
  {
    var k := |s| - |t|;
    assert IsBlank(s[..k]);
    if r == "" {
      assert IsBlank(t[|r|..]);
      assert t[|r|..] == t;
      forall i | 0 <= i < |s| ensures IsWhiteSpace(s[i]) {
        if i < k {
          assert s[i] == s[..k][i];
        } else {
          assert s[i] == t[i - k];
        }
      }
    }
    if t != [] {
      assert t[0] == s[k];
      assert !IsBlank(s);
    }
  }

  /** string.Split(sep): the maximal runs between occurrences of sep, in order;
      n occurrences give n + 1 parts, some of which may be empty. */
  function Split(s: string, sep: char): (parts: seq<string>)
    ensures |parts| >= 1
    ensures forall i :: 0 <= i < |parts| ==> sep !in parts[i]
    ensures |parts| == 1 <==> sep !in s
    ensures sep !in s ==> parts == [s]
    decreases |s|
  {
    if |s| == 0 then [""]
    else
      var rest := Split(s[1..], sep);
      assert s == [s[0]] + s[1..];
      if s[0] == sep then [""] + rest
      else [[s[0]] + rest[0]] + rest[1..]
  }

  /** string.Join(sep, parts) */
  function Join(parts: seq<string>, sep: string): string
  {
    if |parts| == 0 then ""
    else if |parts| == 1 then parts[0]
    else parts[0] + sep + Join(parts[1..], sep)
  }

  /** The first part of a split is the prefix of s before the first separator. */
  lemma {:induction false} SplitFirst(s: string, sep: char)
    ensures var p := Split(s, sep)[0];
      |p| <= |s| && p == s[..|p|] && (|p| < |s| ==> s[|p|] == sep)
  {
    if |s| > 0 && s[0] != sep {
      SplitFirst(s[1..], sep);
    }
  }

  /** After the first part, the split continues with the text after the first separator. */
  lemma SplitRest(s: string, sep: char)
    ensures var parts := Split(s, sep); var p := parts[0];
      (|parts| > 1 <==> |p| < |s|) && (|p| < |s| ==> parts[1..] == Split(s[|p| + 1..], sep))
  {
    var p := Split(s, sep)[0];
    SplitFirst(s, sep);
    if |p| < |s| {
      SplitAtFirst(s, sep, p);
    } else {
      assert p == s;
      assert sep !in s;
    }
  }

  /** A string whose first separator follows p splits into p, then the split of the rest. */
  lemma SplitAtFirst(s: string, sep: char, p: string)
    requires |p| < |s| && p == s[..|p|] && s[|p|] == sep && sep !in p
    ensures Split(s, sep) == [p] + Split(s[|p| + 1..], sep)
    ensures |Split(s, sep)| > 1
  {
    var t := s[|p| + 1..];
    assert s == p + [sep] + t by {
      assert s == s[..|p|] + [s[|p|]] + t;
    }
    SplitCons(p, sep, t);
  }

  /** A string made only of separators and spaces splits into blank parts. */
  lemma {:induction false} SplitSpaces(s: string, sep: char)
    requires forall k :: 0 <= k < |s| ==> s[k] == sep || s[k] == ' '
    ensures forall i :: 0 <= i < |Split(s, sep)| ==> IsBlank(Split(s, sep)[i])
  {
    if |s| > 0 {
      SplitSpaces(s[1..], sep);
    }
  }

  /** A part that contains no separator, then a separator, then the rest. */
  lemma {:induction false} SplitCons(p: string, sep: char, t: string)
    requires sep !in p
    ensures Split(p + [sep] + t, sep) == [p] + Split(t, sep)
  {
    var s := p + [sep] + t;
    if p == [] {
      assert s[1..] == t;
    } else {
      assert s[1..] == p[1..] + [sep] + t;
      SplitCons(p[1..], sep, t);
      assert [p[0]] + p[1..] == p;
    }
  }

  /** Joining the parts of a split with the separator gives back the string. */
  lemma {:induction false} JoinSplit(s: string, sep: char)
    ensures Join(Split(s, sep), [sep]) == s
  {
    if sep !in s {
    } else {
      var parts := Split(s, sep);
      var p := parts[0];
      SplitFirst(s, sep);
      var t := s[|p| + 1..];
      assert s == p + [sep] + t;
      SplitCons(p, sep, t);
      JoinSplit(t, sep);
      assert parts[1..] == Split(t, sep);
    }
  }

  /** Splitting a join of separator-free parts gives back the parts. */
  lemma {:induction false} SplitJoin(parts: seq<string>, sep: char)
    requires |parts| >= 1
    requires forall i :: 0 <= i < |parts| ==> sep !in parts[i]
    ensures Split(Join(parts, [sep]), sep) == parts
  {
    if |parts| > 1 {
      SplitJoin(parts[1..], sep);
      SplitCons(parts[0], sep, Join(parts[1..], [sep]));
    }
  }

  /** The first space-separated token, `s.Split(' ')[0]`. */
  function FirstToken(s: string): string {
    Split(s, ' ')[0]
  }

  /** A string that starts with a character other than a space has a non-empty
      first token that starts with that character. */
  lemma FirstTokenStart(s: string)
    requires |s| > 0 && s[0] != ' '
    ensures |FirstToken(s)| > 0 && FirstToken(s)[0] == s[0]
  {
    assert s == [s[0]] + s[1..];
  }

  /** The token before a space or the end, whatever follows the space. */
  lemma {:induction false} FirstTokenOf(p: string, z: string)
    requires ' ' !in p
    requires z == [] || z[0] == ' '
    ensures FirstToken(p + z) == p
  {
    if z == [] {
      assert p + z == p;
    } else {
      assert p + z == p + [' '] + z[1..];
      SplitCons(p, ' ', z[1..]);
    }
  }

  /** Trailing white space after a non-white-space character is all TrimEnd removes. */
  lemma {:induction false} TrimEndAfter(x: string, y: string)
    requires |x| > 0 && !IsWhiteSpace(x[|x| - 1])
    ensures TrimEnd(x + y) == x + TrimEnd(y)
    decreases |y|
  {
    if |y| > 0 && IsWhiteSpace(y[|y| - 1]) {
      assert (x + y)[..|x + y| - 1] == x + y[..|y| - 1];
      TrimEndAfter(x, y[..|y| - 1]);
    } else if |y| == 0 {
      assert x + y == x;
    }
  }

  /** ToLowerInvariant on one character (ASCII letters). */
  function ToLowerChar(c: char): char {
    if 'A' <= c <= 'Z' then (c as int + 32) as char else c
  }

  /** The upper-case mapping used by ordinal case-insensitive comparison (ASCII letters). */
  function ToUpperChar(c: char): char {
    if 'a' <= c <= 'z' then (c as int - 32) as char else c
  }

  /** string.ToLowerInvariant() */
  function ToLower(s: string): (r: string)
    ensures |r| == |s|
    ensures forall i :: 0 <= i < |s| ==> r[i] == ToLowerChar(s[i])
  {
    seq(|s|, i requires 0 <= i < |s| => ToLowerChar(s[i]))
  }

  function ToUpper(s: string): (r: string)
    ensures |r| == |s|
    ensures forall i :: 0 <= i < |s| ==> r[i] == ToUpperChar(s[i])
  {
    seq(|s|, i requires 0 <= i < |s| => ToUpperChar(s[i]))
  }

  /** `a.Equals(b, StringComparison.OrdinalIgnoreCase)` */
  predicate EqualsIgnoreCase(a: string, b: string) {
    ToUpper(a) == ToUpper(b)
  }

  /** Lower-casing is idempotent: a lower-cased key is its own lower-case form. */
  lemma ToLowerIdempotent(s: string)
    ensures ToLower(ToLower(s)) == ToLower(s)
  {
  }

  /** Two strings are equal ignoring case exactly when their lower-case forms are equal. */
  lemma EqualsIgnoreCaseLower(a: string, b: string)
    ensures EqualsIgnoreCase(a, b) <==> ToLower(a) == ToLower(b)
  {
    if EqualsIgnoreCase(a, b) {
      assert |a| == |ToUpper(a)| == |b|;
      forall i | 0 <= i < |a| ensures ToLower(a)[i] == ToLower(b)[i] {
        assert ToUpper(a)[i] == ToUpper(b)[i];
      }
    }
    if ToLower(a) == ToLower(b) {
      forall i | 0 <= i < |a| ensures ToUpper(a)[i] == ToUpper(b)[i] {
        assert ToLower(a)[i] == ToLower(b)[i];
      }
    }
  }
}
