/**
 * The parts of Python's built-in `str` type that the controller relies on:
 * `strip()`, `splitlines()`, `split()` without a separator, and the decimal
 * rendering of a non-negative integer (`str(n)`, and Perl's `printf "%d"`).
 * Strings are sequences of Unicode code points, as Python 3 decodes them.
 */
module PyStr {

  /** `c.isspace()`: the characters `split()` and `strip()` treat as whitespace. */
  predicate IsSpace(c: char)
  {
    c == ' ' || ('\t' <= c <= '\r') || ('\U{1c}' <= c <= '\U{1f}')
    || c == '\U{85}' || c == '\U{a0}' || c == '\U{1680}'
    || ('\U{2000}' <= c <= '\U{200a}') || c == '\U{2028}' || c == '\U{2029}'
    || c == '\U{202f}' || c == '\U{205f}' || c == '\U{3000}'
  }

  /** The line boundaries `splitlines()` splits on ("\r\n" is one boundary, see BreakWidth). */
  predicate IsLineBreak(c: char)
  {
    ('\n' <= c <= '\r') || ('\U{1c}' <= c <= '\U{1e}')
    || c == '\U{85}' || c == '\U{2028}' || c == '\U{2029}'
  }

  predicate AllSpace(s: string)
  {
    forall i :: 0 <= i < |s| ==> IsSpace(s[i])
  }

  predicate NoSpace(s: string)
  {
    forall i :: 0 <= i < |s| ==> !IsSpace(s[i])
  }

  predicate NoLineBreak(s: string)
  {
    forall i :: 0 <= i < |s| ==> !IsLineBreak(s[i])
  }

  /** A sequence is its prefix of length k followed by the rest. */
  lemma SplitAt<T>(s: seq<T>, k: nat)
    requires k <= |s|
    ensures s == s[..k] + s[k..]
  {
  }

  /** The prefix of length i + 1 is the prefix of length i and element i. */
  lemma TakeSnoc<T>(s: seq<T>, i: nat)
    requires i < |s|
    ensures s[..i + 1] == s[..i] + [s[i]]
  {
  }

  /** The ends of a sequence with one element put in front. */
  lemma ConsEnds<T>(first: T, rest: seq<T>)
    requires |rest| > 0
    ensures |[first] + rest| == |rest| + 1
    ensures ([first] + rest)[0] == first
    ensures ([first] + rest)[|rest|] == rest[|rest| - 1]
  {
  }

  lemma AppendAssoc<T>(a: seq<T>, b: seq<T>, c: seq<T>)
    ensures a + (b + c) == a + b + c
  {
  }

  // ---------------------------------------------------------------------------
  // strip()
  // ---------------------------------------------------------------------------

  /** `s.lstrip()`: the suffix of `s` left after dropping its leading whitespace. */
  function TrimLeft(s: string): (r: string)
    ensures |r| <= |s| && r == s[|s| - |r|..]
    ensures forall i :: 0 <= i < |s| - |r| ==> IsSpace(s[i])
    ensures r == [] || !IsSpace(r[0])
    decreases |s|
  {
    if s != [] && IsSpace(s[0]) then
      var r := TrimLeft(s[1..]);
      assert s[1..][|s| - 1 - |r|..] == s[|s| - |r|..];
      assert forall i :: 1 <= i < |s| - |r| ==> s[1..][i - 1] == s[i];
      r
    else s
  }

  /** `s.rstrip()`: the prefix of `s` left after dropping its trailing whitespace. */
  function TrimRight(s: string): (r: string)
    ensures |r| <= |s| && r == s[..|r|]
    ensures forall i :: |r| <= i < |s| ==> IsSpace(s[i])
    ensures r == [] || !IsSpace(r[|r| - 1])
    decreases |s|
  {
    if s != [] && IsSpace(s[|s| - 1]) then
      var t := s[..|s| - 1];
      var r := TrimRight(t);
      assert t[..|r|] == s[..|r|];
      assert forall i :: |r| <= i < |t| ==> t[i] == s[i];
      r
    else s
  }

  /** `s.strip()`: empty exactly when `s` is all whitespace, and otherwise
      starting and ending with a non-whitespace character. */
  function Strip(s: string): (r: string)
    ensures r == [] <==> AllSpace(s)
    ensures r != [] ==> !IsSpace(r[0]) && !IsSpace(r[|r| - 1])
  {
    var l := TrimLeft(s);
    var r := TrimRight(l);
    r
  }

  /** `strip()` only removes whitespace: `s` is `Strip(s)` with a whitespace
      prefix and a whitespace suffix around it. */
  lemma StripDecompose(s: string) returns (lead: string, trail: string)
    ensures s == lead + Strip(s) + trail
    ensures AllSpace(lead) && AllSpace(trail)
  {
    var l := TrimLeft(s);
    var r := TrimRight(l);
    lead := s[..|s| - |l|];
    trail := l[|r|..];
    TakeAllSpace(s, |s| - |l|);
    DropAllSpace(l, |r|);
    SplitAt(s, |s| - |l|);
    SplitAt(l, |r|);
    AppendAssoc(lead, r, trail);
  }

  lemma TakeAllSpace(s: string, k: nat)
    requires k <= |s|
    requires forall i :: 0 <= i < k ==> IsSpace(s[i])
    ensures AllSpace(s[..k])
  {
  }

  lemma DropAllSpace(s: string, k: nat)
    requires k <= |s|
    requires forall i :: k <= i < |s| ==> IsSpace(s[i])
    ensures AllSpace(s[k..])
  {
  }

  /** Stripping a text that is some whitespace, a core with non-whitespace
      ends, and more whitespace gives back exactly the core. */
  lemma StripPadded(u: string, core: string, t: string)
    requires AllSpace(u) && AllSpace(t)
    requires core != [] && !IsSpace(core[0]) && !IsSpace(core[|core| - 1])
    ensures Strip(u + core + t) == core
  {
    AppendAssoc(u, core, t);
    assert (core + t)[0] == core[0];
    TrimLeftPadded(u, core + t);
    TrimRightPadded(core, t);
  }

  /** Only the whitespace after a text with non-whitespace ends is stripped. */
  lemma StripTrailing(core: string, t: string)
    requires AllSpace(t)
    requires core != [] && !IsSpace(core[0]) && !IsSpace(core[|core| - 1])
    ensures Strip(core + t) == core
  {
    assert [] + core + t == core + t;
    StripPadded([], core, t);
  }

  /** `lstrip()` removes exactly a whitespace prefix in front of a text that
      does not start with whitespace. */
  lemma {:induction false} TrimLeftPadded(u: string, x: string)
    requires AllSpace(u)
    requires x == [] || !IsSpace(x[0])
    ensures TrimLeft(u + x) == x
    decreases |u|
  {
    if u == [] {
      assert u + x == x;
    } else {
      assert (u + x)[0] == u[0];
      assert (u + x)[1..] == u[1..] + x;
      TrimLeftPadded(u[1..], x);
    }
  }

  /** `rstrip()` removes exactly a whitespace suffix behind a text that does
      not end with whitespace. */
  lemma {:induction false} TrimRightPadded(x: string, t: string)
    requires AllSpace(t)
    requires x == [] || !IsSpace(x[|x| - 1])
    ensures TrimRight(x + t) == x
    decreases |t|
  {
    if t == [] {
      assert x + t == x;
    } else {
      var t' := t[..|t| - 1];
      assert (x + t)[|x + t| - 1] == t[|t| - 1];
      assert (x + t)[..|x + t| - 1] == x + t';
      TrimRightPadded(x, t');
    }
  }

  // ---------------------------------------------------------------------------
  // splitlines()
  // ---------------------------------------------------------------------------

  /** The length of the first line of `s`: the index of its first line boundary, or |s|. */
  function LineLength(s: string): (n: nat)
    ensures n <= |s|
    ensures forall i :: 0 <= i < n ==> !IsLineBreak(s[i])
    ensures n == |s| || IsLineBreak(s[n])
    decreases |s|
  {
    if s == [] || IsLineBreak(s[0]) then 0 else 1 + LineLength(s[1..])
  }

  /** The number of characters the line boundary at `s[i]` occupies. */
  function BreakWidth(s: string, i: nat): (w: nat)
    requires i < |s|
    ensures 1 <= w <= |s| - i
  {
    if s[i] == '\r' && i + 1 < |s| && s[i + 1] == '\n' then 2 else 1
  }

  /** `s.splitlines()`: the lines of `s` without their boundaries; a final
      boundary does not start an extra empty line. */
  function SplitLines(s: string): (lines: seq<string>)
    ensures |lines| <= |s|
    ensures forall k :: 0 <= k < |lines| ==> NoLineBreak(lines[k])
    decreases |s|
  {
    if s == [] then []
    else
      var n := LineLength(s);
      if n == |s| then [s]
      else [s[..n]] + SplitLines(s[n + BreakWidth(s, n)..])
  }

  /** A line with no boundary in it, followed by "\n", is the first line. */
  lemma SplitLinesCons(line: string, rest: string)
    requires NoLineBreak(line)
    ensures SplitLines(line + "\n" + rest) == [line] + SplitLines(rest)
  {
    var s := line + "\n" + rest;
    var n := LineLength(s);
    assert s[|line|] == '\n';
    assert forall i :: 0 <= i < |line| ==> s[i] == line[i];
    assert n == |line|;
    assert s[..n] == line;
    assert s[n + BreakWidth(s, n)..] == rest;
  }

  /** A non-empty text without line boundaries is a single line. */
  lemma SplitLinesSingle(line: string)
    requires line != [] && NoLineBreak(line)
    ensures SplitLines(line) == [line]
  {
  }

  /** Lines joined with "\n" between them, the way a program prints them. */
  function JoinLines(lines: seq<string>): string
    decreases |lines|
  {
    if |lines| == 0 then ""
    else if |lines| == 1 then lines[0]
    else lines[0] + "\n" + JoinLines(lines[1..])
  }

  /** `splitlines()` undoes joining boundary-free lines with "\n", provided
      the last line is not empty (a final "\n" starts no extra line). */
  lemma {:induction false} SplitLinesJoin(lines: seq<string>)
    requires forall k :: 0 <= k < |lines| ==> NoLineBreak(lines[k])
    requires |lines| > 0 ==> lines[|lines| - 1] != []
    ensures SplitLines(JoinLines(lines)) == lines
    decreases |lines|
  {
    if |lines| == 1 {
      SplitLinesSingle(lines[0]);
    } else if |lines| > 1 {
      SplitLinesJoin(lines[1..]);
      SplitLinesCons(lines[0], JoinLines(lines[1..]));
      assert [lines[0]] + lines[1..] == lines;
    }
  }

  /** Text printed as boundary-free lines that start and end with a
      non-whitespace character, followed by any trailing whitespace (such as
      the final newlines a program prints), comes back as those lines from
      `strip().splitlines()`. */
  lemma SplitJoinedText(lines: seq<string>, trail: string)
    requires |lines| > 0 && lines[0] != [] && !IsSpace(lines[0][0])
    requires lines[|lines| - 1] != [] && !IsSpace(lines[|lines| - 1][|lines[|lines| - 1]| - 1])
    requires forall k :: 0 <= k < |lines| ==> NoLineBreak(lines[k])
    requires AllSpace(trail)
    ensures SplitLines(Strip(JoinLines(lines) + trail)) == lines
  {
    var text := JoinLines(lines);
    assert Strip(text + trail) == text by {
      JoinLinesFirst(lines);
      JoinLinesLast(lines);
      StripTrailing(text, trail);
    }
    SplitLinesJoin(lines);
  }

  /** The joined text starts with the first character of the first line. */
  lemma JoinLinesFirst(lines: seq<string>)
    requires |lines| > 0 && lines[0] != []
    ensures JoinLines(lines) != [] && JoinLines(lines)[0] == lines[0][0]
  {
  }

  /** Joining one more line in front adds it and one "\n". */
  lemma JoinLinesCons(first: string, lines: seq<string>)
    requires |lines| > 0
    ensures JoinLines([first] + lines) == first + "\n" + JoinLines(lines)
  {
    assert ([first] + lines)[1..] == lines;
  }

  /** A boundary-free line in front of boundary-free lines. */
  lemma ConsNoLineBreak(first: string, lines: seq<string>)
    requires NoLineBreak(first)
    requires forall k :: 0 <= k < |lines| ==> NoLineBreak(lines[k])
    ensures forall k :: 0 <= k < |[first] + lines| ==> NoLineBreak(([first] + lines)[k])
  {
    var all := [first] + lines;
    assert forall k :: 1 <= k < |all| ==> all[k] == lines[k - 1];
  }

  /** The joined text ends with the last character of the last line. */
  lemma {:induction false} JoinLinesLast(lines: seq<string>)
    requires |lines| > 0 && lines[|lines| - 1] != []
    ensures JoinLines(lines) != []
    ensures JoinLines(lines)[|JoinLines(lines)| - 1] == lines[|lines| - 1][|lines[|lines| - 1]| - 1]
    decreases |lines|
  {
    if |lines| > 1 {
      var rest := lines[1..];
      assert rest[|rest| - 1] == lines[|lines| - 1];
      JoinLinesLast(rest);
    }
  }

  // ---------------------------------------------------------------------------
  // split()
  // ---------------------------------------------------------------------------

  /** The length of the maximal run of non-whitespace characters that starts `s`. */
  function WordLength(s: string): (n: nat)
    ensures n <= |s|
    ensures forall i :: 0 <= i < n ==> !IsSpace(s[i])
    ensures n == |s| || IsSpace(s[n])
    decreases |s|
  {
    if s == [] || IsSpace(s[0]) then 0 else 1 + WordLength(s[1..])
  }

  /** `s.split()`: the maximal runs of non-whitespace characters of `s`, in order. */
  function Fields(s: string): (fs: seq<string>)
    ensures forall k :: 0 <= k < |fs| ==> fs[k] != [] && NoSpace(fs[k])
    decreases |s|
  {
    if s == [] then []
    else if IsSpace(s[0]) then Fields(s[1..])
    else
      var n := WordLength(s);
      [s[..n]] + Fields(s[n..])
  }

  /** A text of whitespace only has no fields. */
  lemma {:induction false} FieldsAllSpace(u: string)
    requires AllSpace(u)
    ensures Fields(u) == []
    decreases |u|
  {
    if u != [] {
      FieldsAllSpace(u[1..]);
    }
  }

  /** A single word is its own only field. */
  lemma FieldsOfWord(w: string)
    requires w != [] && NoSpace(w)
    ensures Fields(w) == [w]
  {
    assert WordLength(w) == |w|;
    assert w[..|w|] == w;
  }

  /** WordLength is the one length that covers only non-whitespace and
      stops at whitespace or at the end. */
  lemma {:induction false} WordLengthUnique(s: string, n: nat)
    requires n <= |s|
    requires forall i :: 0 <= i < n ==> !IsSpace(s[i])
    requires n == |s| || IsSpace(s[n])
    ensures WordLength(s) == n
    decreases n
  {
    if n > 0 {
      assert !IsSpace(s[0]);
      assert forall i :: 0 <= i < n - 1 ==> s[1..][i] == s[i + 1];
      assert n - 1 < |s| - 1 ==> s[1..][n - 1] == s[n];
      WordLengthUnique(s[1..], n - 1);
    }
  }

  /** The first word of a text is not extended by what follows it when it
      already stops at whitespace or the next part starts with whitespace. */
  lemma WordLengthAppend(a: string, b: string)
    requires WordLength(a) < |a| || b == [] || IsSpace(b[0])
    ensures WordLength(a + b) == WordLength(a)
  {
    var n := WordLength(a);
    var ab := a + b;
    assert forall i :: 0 <= i < n ==> ab[i] == a[i];
    if n < |a| {
      assert ab[n] == a[n];
    } else if b != [] {
      assert ab[n] == b[0];
    }
    WordLengthUnique(ab, n);
  }

  lemma TakeAppend<T>(a: seq<T>, b: seq<T>, n: nat)
    requires n <= |a|
    ensures (a + b)[..n] == a[..n]
    ensures (a + b)[n..] == a[n..] + b
  {
  }

  /** Splitting at whitespace commutes with concatenation when the two parts
      are separated by whitespace (or one of them is empty). */
  lemma {:induction false} FieldsConcat(a: string, b: string)
    requires a == [] || b == [] || IsSpace(a[|a| - 1]) || IsSpace(b[0])
    ensures Fields(a + b) == Fields(a) + Fields(b)
    decreases |a|
  {
    if a == [] {
      assert a + b == b;
    } else if IsSpace(a[0]) {
      TakeAppend(a, b, 1);
      assert (a + b)[0] == a[0];
      FieldsConcat(a[1..], b);
    } else {
      var n := WordLength(a);
      var ab := a + b;
      assert WordLength(ab) == n by {
        if n == |a| {
          assert !IsSpace(a[|a| - 1]);
        }
        WordLengthAppend(a, b);
      }
      assert Fields(ab) == [a[..n]] + Fields(a[n..] + b) by {
        assert ab[0] == a[0];
        TakeAppend(a, b, n);
      }
      assert a[n..] == [] || b == [] || IsSpace(a[n..][|a[n..]| - 1]) || IsSpace(b[0]) by {
        if a[n..] != [] {
          assert a[n..][|a[n..]| - 1] == a[|a| - 1];
        }
      }
      FieldsConcat(a[n..], b);
      AppendAssoc([a[..n]], Fields(a[n..]), Fields(b));
    }
  }

  /** A word followed by a whitespace character is the first field. */
  lemma FieldsWordThen(w: string, c: char, rest: string)
    requires w != [] && NoSpace(w) && IsSpace(c)
    ensures Fields(w + [c] + rest) == [w] + Fields(rest)
  {
    FieldsOfWord(w);
    FieldsConcat(w, [c] + rest);
    assert Fields([c] + rest) == Fields(rest) by {
      assert ([c] + rest)[0] == c;
      assert ([c] + rest)[1..] == rest;
    }
    AppendAssoc(w, [c], rest);
  }

  /** Two words separated by a whitespace character. */
  lemma FieldsTwoWords(a: string, c: char, b: string)
    requires a != [] && NoSpace(a) && b != [] && NoSpace(b) && IsSpace(c)
    ensures Fields(a + [c] + b) == [a, b]
  {
    FieldsWordThen(a, c, b);
    FieldsOfWord(b);
  }

  /** Words each followed by one blank, the way command lines are assembled. */
  function JoinWords(words: seq<string>): string
  {
    if words == [] then [] else words[0] + " " + JoinWords(words[1..])
  }

  /** Splitting a command line assembled from words gives back those words. */
  lemma {:induction false} FieldsJoinWords(words: seq<string>, rest: string)
    requires forall k :: 0 <= k < |words| ==> words[k] != [] && NoSpace(words[k])
    ensures Fields(JoinWords(words) + rest) == words + Fields(rest)
    decreases |words|
  {
    if words == [] {
      assert JoinWords(words) + rest == rest;
    } else {
      var tail := JoinWords(words[1..]) + rest;
      assert JoinWords(words) + rest == words[0] + [' '] + tail by {
        AppendAssoc(words[0] + " ", JoinWords(words[1..]), rest);
      }
      FieldsWordThen(words[0], ' ', tail);
      FieldsJoinWords(words[1..], rest);
      assert words == [words[0]] + words[1..];
      AppendAssoc([words[0]], words[1..], Fields(rest));
    }
  }

  /** Whitespace around a text adds no fields. */
  lemma FieldsPadded(lead: string, r: string, trail: string)
    requires AllSpace(lead) && AllSpace(trail)
    ensures Fields(lead + r + trail) == Fields(r)
  {
    FieldsAllSpace(lead);
    FieldsAllSpace(trail);
    if trail != [] {
      assert IsSpace(trail[0]);
    }
    FieldsConcat(r, trail);
    assert Fields(r + trail) == Fields(r);
    if lead != [] {
      assert IsSpace(lead[|lead| - 1]);
    }
    FieldsConcat(lead, r + trail);
    AppendAssoc(lead, r, trail);
  }

  /** `strip()` does not change the fields. */
  lemma FieldsStrip(s: string)
    ensures Fields(Strip(s)) == Fields(s)
  {
    var lead, trail := StripDecompose(s);
    FieldsPadded(lead, Strip(s), trail);
  }

  // ---------------------------------------------------------------------------
  // Decimal rendering of non-negative integers
  // ---------------------------------------------------------------------------

  predicate IsDigit(c: char)
  {
    '0' <= c <= '9'
  }

  predicate AllDigits(s: string)
  {
    forall i :: 0 <= i < |s| ==> IsDigit(s[i])
  }

  function DigitChar(d: nat): (c: char)
    requires d < 10
    ensures IsDigit(c) && c as int - '0' as int == d
  {
    ('0' as int + d) as char
  }

  /** `str(n)` for n >= 0, and Perl's `printf "%d"` of the same value: the
      digits of `n` in base ten, with no leading zero except for 0 itself. */
  function DecimalString(n: nat): (s: string)
    ensures s != [] && AllDigits(s)
    ensures s[0] == '0' ==> n == 0
    decreases n
  {
    if n < 10 then [DigitChar(n)] else DecimalString(n / 10) + [DigitChar(n % 10)]
  }

  /** The number a string of decimal digits denotes. */
  function DecimalValue(s: string): nat
    requires AllDigits(s)
    decreases |s|
  {
    if s == [] then 0
    else 10 * DecimalValue(s[..|s| - 1]) + (s[|s| - 1] as int - '0' as int)
  }

  /** Reading back a rendered number gives the number. */
  lemma {:induction false} DecimalRoundTrip(n: nat)
    ensures DecimalValue(DecimalString(n)) == n
    decreases n
  {
    var s := DecimalString(n);
    if n >= 10 {
      DecimalRoundTrip(n / 10);
      assert s[..|s| - 1] == DecimalString(n / 10);
    }
  }

  /** Distinct numbers render as distinct strings. */
  lemma DecimalStringInjective(m: nat, n: nat)
    requires DecimalString(m) == DecimalString(n)
    ensures m == n
  {
    DecimalRoundTrip(m);
    DecimalRoundTrip(n);
  }

  /** A rendered number contains no whitespace. */
  lemma DecimalStringNoSpace(n: nat)
    ensures NoSpace(DecimalString(n)) && NoLineBreak(DecimalString(n))
  {
  }
}
