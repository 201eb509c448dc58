/**
 * The pieces of JavaScript string handling that approved_PR/index.js relies on:
 * `String.prototype.split` with the two-character separator "\r\n", and the
 * character classes `\s` and `\w` of a regular expression without the `u` flag.
 */
module JsText {

  /** The separator the extractor splits on: browsers submit textareas with CR LF line breaks. */
  const BrowserEol: string := "\r\n"

  /** JavaScript's `\s`: the WhiteSpace and LineTerminator code points of ECMAScript. */
  predicate IsWhitespace(c: char) {
    c == '\t' || c == '\n' || c == '\U{B}' || c == '\U{C}' || c == '\r' || c == ' '
    || c == '\U{A0}' || c == '\U{1680}' || ('\U{2000}' <= c <= '\U{200A}')
    || c == '\U{2028}' || c == '\U{2029}' || c == '\U{202F}' || c == '\U{205F}'
    || c == '\U{3000}' || c == '\U{FEFF}'
  }

  /** JavaScript's `\w` without the `u` flag: `[A-Za-z0-9_]`. */
  predicate IsWordChar(c: char)
    ensures IsWordChar(c) ==> !IsWhitespace(c)
  {
    ('a' <= c <= 'z') || ('A' <= c <= 'Z') || ('0' <= c <= '9') || c == '_'
  }

  predicate AllWhitespace(s: string) {
    forall k | 0 <= k < |s| :: IsWhitespace(s[k])
  }

  predicate AllWordChars(s: string) {
    forall k | 0 <= k < |s| :: IsWordChar(s[k])
  }

  /** `s` holds the separator at position `k`. */
  ghost predicate EolAt(s: string, k: int) {
    0 <= k && k + 1 < |s| && s[k] == '\r' && s[k + 1] == '\n'
  }

  /** No occurrence of the separator anywhere in `s`. */
  ghost predicate EolFree(s: string) {
    forall k :: !EolAt(s, k)
  }

  /** Text without a carriage return cannot hold the separator. */
  lemma EolFreeWithoutCr(s: string)
    requires '\r' !in s
    ensures EolFree(s)
  {
    forall k | 0 <= k < |s| ensures s[k] != '\r' {
      assert s[k] in s;
    }
  }

  /** `Array.prototype.join(BrowserEol)` on a non-empty array of lines. */
  function Join(lines: seq<string>): string
    requires |lines| >= 1
  {
    if |lines| == 1 then lines[0] else lines[0] + BrowserEol + Join(lines[1..])
  }

  /**
   * `s.split(BrowserEol)`: the separator is found left to right; text without it
   * gives `[s]`, the empty string gives `[""]`, and adjacent separators give empty lines.
   * SplitJoins says the lines put back together with the separator give `s` again,
   * SplitLinesEolFree that no line holds the separator, and SplitUnique that
   * these two facts pin the result down.
   */
  function Split(s: string): (lines: seq<string>)
    ensures |lines| >= 1
  {
    if |s| < 2 then [s]
    else if s[0] == '\r' && s[1] == '\n' then [""] + Split(s[2..])
    else
      var rest := Split(s[1..]);
      [[s[0]] + rest[0]] + rest[1..]
  }

  /** Joining the lines of `s` with the separator gives `s` back. */
  lemma {:induction false} SplitJoins(s: string)
    ensures Join(Split(s)) == s
    decreases |s|
  {
    if |s| < 2 {
    } else if s[0] == '\r' && s[1] == '\n' {
      SplitJoins(s[2..]);
      var rest := Split(s[2..]);
      assert ([""] + rest)[1..] == rest;
    } else {
      SplitJoins(s[1..]);
      var rest := Split(s[1..]);
      var lines := [[s[0]] + rest[0]] + rest[1..];
      if |rest| > 1 { assert lines[1..] == rest[1..]; }
    }
  }

  /** No line that Split returns holds the separator. */
  lemma {:induction false} SplitLinesEolFree(s: string)
    ensures forall k :: 0 <= k < |Split(s)| ==> EolFree(Split(s)[k])
    decreases |s|
  {
    if |s| < 2 {
      assert Split(s) == [s];
    } else if s[0] == '\r' && s[1] == '\n' {
      SplitLinesEolFree(s[2..]);
      assert Split(s) == [""] + Split(s[2..]);
    } else {
      var rest := Split(s[1..]);
      SplitLinesEolFree(s[1..]);
      SplitJoins(s[1..]);
      JoinFirstIsPrefix(rest);
      var first := [s[0]] + rest[0];
      assert EolFree(first) by {
        forall k ensures !EolAt(first, k) {
          if k >= 1 { assert !EolAt(rest[0], k - 1); }
          else if k == 0 && |first| >= 2 { assert first[1] == s[1]; }
        }
      }
      assert Split(s) == [first] + rest[1..];
    }
  }

  lemma JoinFirstIsPrefix(lines: seq<string>)
    requires |lines| >= 1
    ensures |lines[0]| <= |Join(lines)| && Join(lines)[..|lines[0]|] == lines[0]
    ensures |lines| > 1 ==> |Join(lines)| >= |lines[0]| + 2
  {
  }

  /** Text without the separator is one line. */
  lemma {:induction false} SplitEolFree(s: string)
    requires EolFree(s)
    ensures Split(s) == [s]
  {
    if |s| >= 2 {
      assert !EolAt(s, 0);
      assert EolFree(s[1..]) by {
        forall k ensures !EolAt(s[1..], k) { assert !EolAt(s, k + 1); }
      }
      SplitEolFree(s[1..]);
      assert [s[0]] + s[1..] == s;
    }
  }

  /** A line without the separator, the separator, then any text: the line comes first and the rest splits on its own. */
  lemma {:induction false} SplitAfterLine(line: string, rest: string)
    requires EolFree(line)
    ensures Split(line + BrowserEol + rest) == [line] + Split(rest)
  {
    var s := line + BrowserEol + rest;
    if line == [] {
      assert s[2..] == rest;
    } else {
      var tail := line[1..];
      assert EolFree(tail) by {
        forall k ensures !EolAt(tail, k) { assert !EolAt(line, k + 1); }
      }
      assert s[1..] == tail + BrowserEol + rest;
      assert !(s[0] == '\r' && s[1] == '\n') by {
        if tail == [] { assert s[1] == '\r'; } else { assert !EolAt(line, 0); }
      }
      SplitAfterLine(tail, rest);
      assert [s[0]] + tail == line;
    }
  }

  /** Split is the only way to cut `s` into separator-free lines that join back to `s`. */
  lemma {:induction false} SplitUnique(s: string, lines: seq<string>)
    requires |lines| >= 1 && Join(lines) == s
    requires forall k :: 0 <= k < |lines| ==> EolFree(lines[k])
    ensures Split(s) == lines
    decreases |lines|
  {
    if |lines| == 1 {
      SplitEolFree(s);
    } else {
      SplitUnique(Join(lines[1..]), lines[1..]);
      SplitAfterLine(lines[0], Join(lines[1..]));
    }
  }

  lemma {:induction false} JoinAppend(a: seq<string>, b: seq<string>)
    requires |a| >= 1 && |b| >= 1
    ensures Join(a + b) == Join(a) + BrowserEol + Join(b)
  {
    if |a| > 1 {
      assert (a + b)[1..] == a[1..] + b;
      JoinAppend(a[1..], b);
    } else {
      assert (a + b)[1..] == b;
    }
  }

  /** Splitting text that has a separator in it splits the two sides independently. */
  lemma SplitAtEol(a: string, b: string)
    ensures Split(a + BrowserEol + b) == Split(a) + Split(b)
  {
    var lines := Split(a) + Split(b);
    SplitJoins(a);
    SplitJoins(b);
    JoinAppend(Split(a), Split(b));
    SplitLinesEolFree(a);
    SplitLinesEolFree(b);
    SplitUnique(a + BrowserEol + b, lines);
  }
}
