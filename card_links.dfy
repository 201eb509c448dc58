/**
 * extractTrelloCardIds (approved_PR/index.js:77-102): the PR description is split
 * on "\r\n" and each line is matched against `^\s*(https:\/\/trello\.com\/c\/(\w+))?\s*$`.
 * The pattern is written out by hand over characters: leading whitespace, then
 * either nothing more than whitespace (a blank line), or the card URL prefix, a
 * greedy run of word characters (the captured id) and whitespace to the end of
 * the line.
 */
module CardLinks {
  import opened JsText

  /** The literal part of the card URL in the pattern. */
  const CardUrlPrefix: string := "https://trello.com/c/"

  /** What `linkRegex.exec(line)` says about one line. */
  datatype LineMatch =
    | NonLink               // exec returns null
    | Blank                 // a match whose group 2 is undefined
    | Link(cardId: string)  // a match whose group 2 is cardId

  /** The end of the run of whitespace that starts at `i`. */
  function SkipWhitespace(s: string, i: nat): (j: nat)
    requires i <= |s|
    ensures i <= j <= |s|
    ensures forall k :: i <= k < j ==> IsWhitespace(s[k])
    ensures j < |s| ==> !IsWhitespace(s[j])
    decreases |s| - i
  {
    if i == |s| || !IsWhitespace(s[i]) then i else SkipWhitespace(s, i + 1)
  }

  /** The end of the run of word characters that starts at `i`: the greedy `\w+`. */
  function SkipWordChars(s: string, i: nat): (j: nat)
    requires i <= |s|
    ensures i <= j <= |s|
    ensures forall k :: i <= k < j ==> IsWordChar(s[k])
    ensures j < |s| ==> !IsWordChar(s[j])
    decreases |s| - i
  {
    if i == |s| || !IsWordChar(s[i]) then i else SkipWordChars(s, i + 1)
  }

  /** The pattern applied to one whole line (no `m` flag: `^` and `$` are the line's ends). */
  function MatchLine(line: string): (m: LineMatch)
    ensures m.Link? ==> 0 < |m.cardId| <= |line|
  {
    var i := SkipWhitespace(line, 0);
    if i == |line| then Blank
    else if CardUrlPrefix <= line[i..] then
      var j := i + |CardUrlPrefix|;
      var k := SkipWordChars(line, j);
      if j < k && SkipWhitespace(line, k) == |line| then Link(line[j..k]) else NonLink
    else NonLink
  }

  /** A line the pattern matches with `id` captured: whitespace, the URL of card `id`, whitespace. */
  ghost predicate LinkShape(line: string, lead: string, id: string, trail: string) {
    line == lead + CardUrlPrefix + id + trail
    && AllWhitespace(lead) && |id| > 0 && AllWordChars(id) && AllWhitespace(trail)
  }

  lemma SkipWhitespaceEndsAt(s: string, i: nat, j: nat)
    requires i <= j <= |s|
    requires forall k :: i <= k < j ==> IsWhitespace(s[k])
    requires j < |s| ==> !IsWhitespace(s[j])
    ensures SkipWhitespace(s, i) == j
  {
  }

  lemma SkipWordCharsEndsAt(s: string, i: nat, j: nat)
    requires i <= j <= |s|
    requires forall k :: i <= k < j ==> IsWordChar(s[k])
    requires j < |s| ==> !IsWordChar(s[j])
    ensures SkipWordChars(s, i) == j
  {
  }

  /** A line matches with no captured id exactly when it is empty or all whitespace. */
  lemma MatchLineBlank(line: string)
    ensures MatchLine(line) == Blank <==> AllWhitespace(line)
  {
    if AllWhitespace(line) {
      SkipWhitespaceEndsAt(line, 0, |line|);
    }
  }

  /** A line matches with `id` captured exactly when it is whitespace, the URL of card `id`, whitespace. */
  lemma MatchLineLink(line: string, id: string)
    ensures MatchLine(line) == Link(id) <==> exists lead, trail :: LinkShape(line, lead, id, trail)
  {
    if MatchLine(line) == Link(id) {
      var lead, trail := MatchedLinkHasShape(line, id);
    }
    if exists lead, trail :: LinkShape(line, lead, id, trail) {
      var lead, trail :| LinkShape(line, lead, id, trail);
      LinkShapeMatches(line, lead, id, trail);
    }
  }

  /** The positions MatchLine computes for a link line: URL start, id start, id end. */
  lemma MatchedLinkParts(line: string, id: string) returns (i: nat, j: nat, k: nat)
    requires MatchLine(line) == Link(id)
    ensures i == SkipWhitespace(line, 0) && j == i + |CardUrlPrefix| && k == SkipWordChars(line, j)
    ensures j < k <= |line| && line[i..j] == CardUrlPrefix && id == line[j..k]
    ensures SkipWhitespace(line, k) == |line|
  {
    i := SkipWhitespace(line, 0);
    j := i + |CardUrlPrefix|;
    k := SkipWordChars(line, j);
    assert i < |line|;
    assert CardUrlPrefix <= line[i..];
  }

  lemma MatchedLinkHasShape(line: string, id: string) returns (lead: string, trail: string)
    requires MatchLine(line) == Link(id)
    ensures LinkShape(line, lead, id, trail)
  {
    var i, j, k := MatchedLinkParts(line, id);
    lead, trail := line[..i], line[k..];
    SkippedWhitespace(line, 0);
    SkippedWordChars(line, j);
    SkippedWhitespace(line, k);
    CutInFour(line, i, j, k);
  }

  lemma CutInFour(s: string, i: nat, j: nat, k: nat)
    requires i <= j <= k <= |s|
    ensures s == s[..i] + s[i..j] + s[j..k] + s[k..]
  {
  }

  /** The run SkipWhitespace passes over is all whitespace. */
  lemma SkippedWhitespace(s: string, i: nat)
    requires i <= |s|
    ensures AllWhitespace(s[i..SkipWhitespace(s, i)])
  {
    var t := s[i..SkipWhitespace(s, i)];
    forall m | 0 <= m < |t| ensures IsWhitespace(t[m]) { assert t[m] == s[i + m]; }
  }

  /** The run SkipWordChars passes over is all word characters. */
  lemma SkippedWordChars(s: string, i: nat)
    requires i <= |s|
    ensures AllWordChars(s[i..SkipWordChars(s, i)])
  {
    var t := s[i..SkipWordChars(s, i)];
    forall m | 0 <= m < |t| ensures IsWordChar(t[m]) { assert t[m] == s[i + m]; }
  }

  lemma LinkShapeMatches(line: string, lead: string, id: string, trail: string)
    requires LinkShape(line, lead, id, trail)
    ensures MatchLine(line) == Link(id)
  {
    var i, j := |lead|, |lead| + |CardUrlPrefix|;
    var k := j + |id|;
    assert line[i..] == CardUrlPrefix + id + trail;
    assert line[i] == 'h';
    SkipWhitespaceEndsAt(line, 0, i);
    assert line[j..k] == id;
    assert line[k..] == trail;
    forall m | k <= m < |line| ensures IsWhitespace(line[m]) {
      assert line[m] == trail[m - k];
    }
    if k < |line| { assert line[k] == trail[0]; }
    SkipWordCharsEndsAt(line, j, k);
    SkipWhitespaceEndsAt(line, k, |line|);
  }

  /** A line the pattern rejects is one that is neither blank nor a lone card link. */
  lemma MatchLineNonLink(line: string)
    ensures MatchLine(line) == NonLink <==>
      !AllWhitespace(line) && forall lead, id, trail :: !LinkShape(line, lead, id, trail)
  {
    MatchLineBlank(line);
    if MatchLine(line) == NonLink {
      forall lead, id, trail ensures !LinkShape(line, lead, id, trail) {
        MatchLineLink(line, id);
      }
    } else if MatchLine(line).Link? {
      MatchLineLink(line, MatchLine(line).cardId);
    }
  }

  /** One match result per line, in order. */
  function MatchAll(lines: seq<string>): (ms: seq<LineMatch>)
    ensures |ms| == |lines|
  {
    if lines == [] then [] else [MatchLine(lines[0])] + MatchAll(lines[1..])
  }

  lemma {:induction false} MatchAllAt(lines: seq<string>, k: nat)
    requires k < |lines|
    ensures MatchAll(lines)[k] == MatchLine(lines[k])
  {
    if k > 0 {
      MatchAllAt(lines[1..], k - 1);
    }
  }

  lemma {:induction false} MatchAllAppend(a: seq<string>, b: seq<string>)
    ensures MatchAll(a + b) == MatchAll(a) + MatchAll(b)
  {
    if a == [] {
      assert a + b == b;
    } else {
      assert (a + b)[0] == a[0];
      assert (a + b)[1..] == a[1..] + b;
      MatchAllAppend(a[1..], b);
    }
  }

  /** What one match adds to the result: group 2, when there is one. */
  function IdOf(m: LineMatch): seq<string> {
    if m.Link? then [m.cardId] else []
  }

  /** The ids of every link line, in line order: the scan that skips rejected lines. */
  function LinkIds(ms: seq<LineMatch>): (ids: seq<string>)
    ensures |ids| <= |ms|
  {
    if ms == [] then [] else LinkIds(ms[..|ms| - 1]) + IdOf(ms[|ms| - 1])
  }

  /** The position of the first line the pattern rejects, or the number of lines if there is none. */
  function FirstNonLink(ms: seq<LineMatch>): (n: nat)
    ensures n <= |ms|
  {
    if ms == [] || ms[0] == NonLink then 0 else 1 + FirstNonLink(ms[1..])
  }

  /** Every line before FirstNonLink matches, and the line at it, if any, does not. */
  lemma {:induction false} FirstNonLinkSpec(ms: seq<LineMatch>)
    ensures forall k :: 0 <= k < FirstNonLink(ms) ==> ms[k] != NonLink
    ensures FirstNonLink(ms) < |ms| ==> ms[FirstNonLink(ms)] == NonLink
  {
    if ms != [] && ms[0] != NonLink {
      FirstNonLinkSpec(ms[1..]);
    }
  }

  /**
   * The result of the scan over these match results: with `stopOnNonLink` the ids
   * of the longest prefix of lines that all match, otherwise the ids of all
   * matching lines.
   */
  function Extract(ms: seq<LineMatch>, stopOnNonLink: bool): (ids: seq<string>)
    ensures |ids| <= |ms|
  {
    if stopOnNonLink then LinkIds(ms[..FirstNonLink(ms)]) else LinkIds(ms)
  }

  /** What extractTrelloCardIds returns for a PR description. */
  function CardIds(prBody: string, stopOnNonLink: bool): (ids: seq<string>)
    ensures |ids| <= |Split(prBody)|
  {
    Extract(MatchAll(Split(prBody)), stopOnNonLink)
  }

  lemma LinkIdsExtend(ms: seq<LineMatch>, i: nat)
    requires i < |ms|
    ensures LinkIds(ms[..i + 1]) == LinkIds(ms[..i]) + IdOf(ms[i])
  {
    assert ms[..i + 1][..i] == ms[..i];
  }

  /** A matching line before the first rejected one moves the scan past it. */
  lemma FirstNonLinkBeyond(ms: seq<LineMatch>, i: nat)
    requires i < |ms| && i <= FirstNonLink(ms) && ms[i] != NonLink
    ensures i + 1 <= FirstNonLink(ms)
  {
    FirstNonLinkSpec(ms);
  }

  /** A rejected line reached without passing a rejected one is the first one. */
  lemma FirstNonLinkReached(ms: seq<LineMatch>, i: nat)
    requires i < |ms| && i <= FirstNonLink(ms) && ms[i] == NonLink
    ensures FirstNonLink(ms) == i
  {
    FirstNonLinkSpec(ms);
  }

  /** What one more line does to the scan: its id is added, and the first rejected line is found or still ahead. */
  lemma ScanStep(ms: seq<LineMatch>, i: nat, stopOnNonLink: bool)
    requires i < |ms| && (stopOnNonLink ==> i <= FirstNonLink(ms))
    ensures LinkIds(ms[..i + 1]) == LinkIds(ms[..i]) + IdOf(ms[i])
    ensures stopOnNonLink && ms[i] != NonLink ==> i + 1 <= FirstNonLink(ms)
    ensures stopOnNonLink && ms[i] == NonLink ==> FirstNonLink(ms) == i
  {
    LinkIdsExtend(ms, i);
    if stopOnNonLink {
      if ms[i] != NonLink { FirstNonLinkBeyond(ms, i); } else { FirstNonLinkReached(ms, i); }
    }
  }

  /** The ids of the lines that the pattern was run on, as the loop collects them. */
  method ExtractTrelloCardIds(prBody: string, stopOnNonLink: bool := true)
    returns (cardIds: seq<string>, ghost examined: nat)
    ensures cardIds == CardIds(prBody, stopOnNonLink)
    ensures |cardIds| <= |Split(prBody)|
    ensures var ms := MatchAll(Split(prBody));
      examined == if stopOnNonLink && FirstNonLink(ms) < |ms| then FirstNonLink(ms) + 1 else |ms|
  {
    cardIds := [];
    var lines := Split(prBody);
    ghost var ms := MatchAll(lines);
    examined := |lines|;
    var i := 0;
    while i < |lines|
      invariant i <= |lines|
      invariant cardIds == LinkIds(ms[..i])
      invariant stopOnNonLink ==> i <= FirstNonLink(ms)
      invariant examined == |lines|
    {
      var matches := MatchLine(lines[i]);
      assert ms[i] == matches by { MatchAllAt(lines, i); }
      ScanStep(ms, i, stopOnNonLink);
      if matches != NonLink {
        if matches.Link? {
          cardIds := cardIds + [matches.cardId];
        }
      } else if stopOnNonLink {
        examined := i + 1;
        break;
      }
      i := i + 1;
    }
    assert ms[..|ms|] == ms;
  }

  lemma {:induction false} LinkIdsAppend(a: seq<LineMatch>, b: seq<LineMatch>)
    ensures LinkIds(a + b) == LinkIds(a) + LinkIds(b)
    decreases |b|
  {
    if b == [] {
      assert a + b == a;
    } else {
      var c := b[..|b| - 1];
      assert (a + b)[..|a + b| - 1] == a + c;
      LinkIdsAppend(a, c);
    }
  }

  /** The contract of FirstNonLink pins it down. */
  lemma FirstNonLinkIs(ms: seq<LineMatch>, n: nat)
    requires n <= |ms|
    requires forall k :: 0 <= k < n ==> ms[k] != NonLink
    requires n < |ms| ==> ms[n] == NonLink
    ensures FirstNonLink(ms) == n
  {
    FirstNonLinkSpec(ms);
  }

  lemma FirstNonLinkInPrefix(a: seq<LineMatch>, b: seq<LineMatch>)
    requires FirstNonLink(a) < |a|
    ensures FirstNonLink(a + b) == FirstNonLink(a)
  {
    var f := FirstNonLink(a);
    FirstNonLinkSpec(a);
    forall k | 0 <= k <= f ensures (a + b)[k] == a[k] { }
    FirstNonLinkIs(a + b, f);
  }

  lemma FirstNonLinkPastPrefix(a: seq<LineMatch>, b: seq<LineMatch>)
    requires FirstNonLink(a) == |a|
    ensures FirstNonLink(a + b) == |a| + FirstNonLink(b)
  {
    var g := FirstNonLink(b);
    FirstNonLinkSpec(a);
    FirstNonLinkSpec(b);
    forall k | 0 <= k < |a| ensures (a + b)[k] != NonLink {
      assert (a + b)[k] == a[k];
    }
    forall k | 0 <= k <= g && k < |b| ensures (a + b)[|a| + k] == b[k] { }
    FirstNonLinkIs(a + b, |a| + g);
  }

  /** A blank or whitespace-only line adds no id and does not end the scan, in either mode. */
  lemma BlankLineIgnored(before: seq<LineMatch>, after: seq<LineMatch>, stopOnNonLink: bool)
    ensures Extract(before + [Blank] + after, stopOnNonLink) == Extract(before + after, stopOnNonLink)
  {
    var with, without := before + [Blank] + after, before + after;
    assert with == before + ([Blank] + after);
    if !stopOnNonLink {
      BlankAddsNoIds(before, after);
    } else if FirstNonLink(before) < |before| {
      var f := FirstNonLink(before);
      FirstNonLinkInPrefix(before, [Blank] + after);
      FirstNonLinkInPrefix(before, after);
      assert with[..f] == before[..f] == without[..f];
    } else {
      var g := FirstNonLink(after);
      assert FirstNonLink([Blank] + after) == 1 + g by {
        assert ([Blank] + after)[1..] == after;
      }
      FirstNonLinkPastPrefix(before, [Blank] + after);
      FirstNonLinkPastPrefix(before, after);
      assert with[..|before| + 1 + g] == before + [Blank] + after[..g];
      assert without[..|before| + g] == before + after[..g];
      BlankAddsNoIds(before, after[..g]);
    }
  }

  lemma BlankAddsNoIds(before: seq<LineMatch>, after: seq<LineMatch>)
    ensures LinkIds(before + [Blank] + after) == LinkIds(before + after)
  {
    assert LinkIds([Blank]) == [] by { assert [Blank][..0] == []; }
    LinkIdsAppend(before, [Blank]);
    assert LinkIds(before + [Blank]) == LinkIds(before);
    LinkIdsAppend(before + [Blank], after);
    LinkIdsAppend(before, after);
  }

  /** The same in terms of the text: a whitespace-only line between two others changes nothing. */
  lemma BlankLineIgnoredInText(before: string, blank: string, after: string, stopOnNonLink: bool)
    requires AllWhitespace(blank) && EolFree(blank)
    ensures CardIds(before + BrowserEol + blank + BrowserEol + after, stopOnNonLink)
         == CardIds(before + BrowserEol + after, stopOnNonLink)
  {
    var a, b := Split(before), Split(after);
    LinesAroundLine(before, blank, after);
    SplitAtEol(before, after);
    MatchLineBlank(blank);
    MatchAroundLine(a, blank, b);
    calc {
      CardIds(before + BrowserEol + blank + BrowserEol + after, stopOnNonLink);
      Extract(MatchAll(a + [blank] + b), stopOnNonLink);
      Extract(MatchAll(a) + [Blank] + MatchAll(b), stopOnNonLink);
      { BlankLineIgnored(MatchAll(a), MatchAll(b), stopOnNonLink); }
      Extract(MatchAll(a) + MatchAll(b), stopOnNonLink);
      { MatchAllAppend(a, b); }
      CardIds(before + BrowserEol + after, stopOnNonLink);
    }
  }

  /** A whitespace-only first line changes nothing either. */
  lemma LeadingBlankIgnoredInText(blank: string, after: string, stopOnNonLink: bool)
    requires AllWhitespace(blank) && EolFree(blank)
    ensures CardIds(blank + BrowserEol + after, stopOnNonLink) == CardIds(after, stopOnNonLink)
  {
    var b := Split(after);
    SplitAfterLine(blank, after);
    MatchLineBlank(blank);
    MatchAroundLine([], blank, b);
    assert [] + [blank] + b == [blank] + b;
    calc {
      CardIds(blank + BrowserEol + after, stopOnNonLink);
      Extract(MatchAll([] + [blank] + b), stopOnNonLink);
      Extract([] + [Blank] + MatchAll(b), stopOnNonLink);
      { BlankLineIgnored([], MatchAll(b), stopOnNonLink); }
      Extract([] + MatchAll(b), stopOnNonLink);
      { assert [] + MatchAll(b) == MatchAll(b); }
      CardIds(after, stopOnNonLink);
    }
  }

  /** Nor does a whitespace-only last line. */
  lemma TrailingBlankIgnoredInText(before: string, blank: string, stopOnNonLink: bool)
    requires AllWhitespace(blank) && EolFree(blank)
    ensures CardIds(before + BrowserEol + blank, stopOnNonLink) == CardIds(before, stopOnNonLink)
  {
    var a := Split(before);
    SplitAtEol(before, blank);
    SplitEolFree(blank);
    MatchLineBlank(blank);
    MatchAroundLine(a, blank, []);
    assert a + [blank] + [] == a + [blank];
    calc {
      CardIds(before + BrowserEol + blank, stopOnNonLink);
      Extract(MatchAll(a + [blank] + []), stopOnNonLink);
      Extract(MatchAll(a) + [Blank] + MatchAll([]), stopOnNonLink);
      { BlankLineIgnored(MatchAll(a), [], stopOnNonLink); }
      Extract(MatchAll(a) + [], stopOnNonLink);
      { assert MatchAll(a) + [] == MatchAll(a); }
      CardIds(before, stopOnNonLink);
    }
  }

  /** A separator-free line between two separators is one line of the result. */
  lemma LinesAroundLine(before: string, line: string, after: string)
    requires EolFree(line)
    ensures Split(before + BrowserEol + line + BrowserEol + after) == Split(before) + [line] + Split(after)
  {
    assert before + BrowserEol + line + BrowserEol + after == before + BrowserEol + (line + BrowserEol + after);
    SplitAtEol(before, line + BrowserEol + after);
    SplitAtEol(line, after);
    SplitEolFree(line);
  }

  lemma MatchAroundLine(a: seq<string>, line: string, b: seq<string>)
    ensures MatchAll(a + [line] + b) == MatchAll(a) + [MatchLine(line)] + MatchAll(b)
  {
    assert MatchAll([line]) == [MatchLine(line)];
    MatchAllAppend(a, [line]);
    MatchAllAppend(a + [line], b);
  }

  /** In stop mode nothing after the first rejected line has any effect on the result. */
  lemma StopModeIgnoresRest(ms: seq<LineMatch>, rest: seq<LineMatch>)
    requires FirstNonLink(ms) < |ms|
    ensures Extract(ms[..FirstNonLink(ms) + 1] + rest, true) == Extract(ms, true)
  {
    var f := FirstNonLink(ms);
    FirstNonLinkOfPrefix(ms, f + 1);
    FirstNonLinkInPrefix(ms[..f + 1], rest);
    var cut := ms[..f + 1] + rest;
    assert cut[..f] == ms[..f];
    calc {
      Extract(cut, true);
      LinkIds(cut[..f]);
      LinkIds(ms[..f]);
      Extract(ms, true);
    }
  }

  /** Cutting the lines after the first rejected one keeps it the first rejected one. */
  lemma FirstNonLinkOfPrefix(ms: seq<LineMatch>, n: nat)
    requires FirstNonLink(ms) < n <= |ms|
    ensures FirstNonLink(ms[..n]) == FirstNonLink(ms)
  {
    FirstNonLinkSpec(ms);
    FirstNonLinkIs(ms[..n], FirstNonLink(ms));
  }

  /** The stop-mode result is always a prefix of the skip-mode result. */
  lemma StopModeIsPrefixOfSkipMode(ms: seq<LineMatch>)
    ensures Extract(ms, true) <= Extract(ms, false)
  {
    var f := FirstNonLink(ms);
    assert ms[..f] + ms[f..] == ms;
    LinkIdsAppend(ms[..f], ms[f..]);
  }

  /** The ids collected are exactly the captured ids of the link lines: none is invented. */
  lemma {:induction false} LinkIdsFromLinks(ms: seq<LineMatch>)
    ensures forall k :: 0 <= k < |LinkIds(ms)| ==> Link(LinkIds(ms)[k]) in ms
  {
    if ms != [] {
      var init := ms[..|ms| - 1];
      LinkIdsFromLinks(init);
      forall k | 0 <= k < |LinkIds(ms)| ensures Link(LinkIds(ms)[k]) in ms {
        if k < |LinkIds(init)| {
          assert Link(LinkIds(init)[k]) in init;
        } else {
          assert ms[|ms| - 1] == Link(LinkIds(ms)[k]);
        }
      }
    }
  }

  /** Every id extractTrelloCardIds returns is a non-empty run of word characters. */
  lemma CardIdsAreWords(prBody: string, stopOnNonLink: bool)
    ensures var ids := CardIds(prBody, stopOnNonLink);
      forall k :: 0 <= k < |ids| ==> |ids[k]| > 0 && AllWordChars(ids[k])
  {
    var lines := Split(prBody);
    var ms := MatchAll(lines);
    var scanned := if stopOnNonLink then ms[..FirstNonLink(ms)] else ms;
    LinkIdsFromLinks(scanned);
    var ids := CardIds(prBody, stopOnNonLink);
    forall k | 0 <= k < |ids| ensures |ids[k]| > 0 && AllWordChars(ids[k]) {
      assert Link(ids[k]) in scanned;
      var j :| 0 <= j < |scanned| && scanned[j] == Link(ids[k]);
      assert scanned[j] == ms[j];
      MatchAllAt(lines, j);
      MatchLineLink(lines[j], ids[k]);
      var lead, trail :| LinkShape(lines[j], lead, ids[k], trail);
    }
  }

  /** The skip-mode result is empty exactly when no line is a card link. */
  lemma {:induction false} NoLinkLinesNoIds(ms: seq<LineMatch>)
    ensures LinkIds(ms) == [] <==> forall k :: 0 <= k < |ms| ==> !ms[k].Link?
  {
    if ms != [] {
      var init := ms[..|ms| - 1];
      NoLinkLinesNoIds(init);
      assert forall k :: 0 <= k < |init| ==> init[k] == ms[k];
    }
  }

  /** A description without any card link line yields `[]`, in either mode. */
  lemma NoLinksGiveNothing(prBody: string, stopOnNonLink: bool)
    requires forall k :: 0 <= k < |Split(prBody)| ==> !MatchLine(Split(prBody)[k]).Link?
    ensures CardIds(prBody, stopOnNonLink) == []
  {
    var ms := MatchAll(Split(prBody));
    forall k | 0 <= k < |ms| ensures !ms[k].Link? {
      MatchAllAt(Split(prBody), k);
    }
    NoLinkLinesNoIds(ms);
    var f := FirstNonLink(ms);
    assert ms[..f] + ms[f..] == ms;
    LinkIdsAppend(ms[..f], ms[f..]);
  }

  /** Trailing text after the id (a card URL with a slug) makes the line a non-link line. */
  lemma SluggedUrlIsNotALink(line: string)
    requires line == "https://trello.com/c/abc/1-title"
    ensures MatchLine(line) == NonLink
  {
    SkipWhitespaceEndsAt(line, 0, 0);
    assert CardUrlPrefix <= line[0..];
    SkipWordCharsEndsAt(line, 21, 24);
    SkipWhitespaceEndsAt(line, 24, 24);
  }

  lemma ExampleLines(prBody: string, l1: string, l2: string, l3: string)
    requires l1 == "https://trello.com/c/abc123" && l2 == "https://trello.com/c/def456" && l3 == "some comment"
    requires prBody == l1 + BrowserEol + l2 + BrowserEol + l3
    ensures Split(prBody) == [l1, l2, l3]
  {
    EolFreeWithoutCr(l1);
    EolFreeWithoutCr(l2);
    EolFreeWithoutCr(l3);
    var lines := [l1, l2, l3];
    assert Join(lines) == prBody by {
      assert lines[1..][1..] == [l3];
      assert Join(lines[1..]) == l2 + BrowserEol + l3;
    }
    SplitUnique(prBody, lines);
  }

  /** A line that is exactly the URL of a card matches with that card's id. */
  lemma BareLinkMatches(line: string, id: string)
    requires line == CardUrlPrefix + id && |id| > 0 && AllWordChars(id)
    ensures MatchLine(line) == Link(id)
  {
    assert line == "" + CardUrlPrefix + id + "";
    LinkShapeMatches(line, "", id, "");
  }

  /** A line that starts with neither whitespace nor the URL prefix is rejected. */
  lemma PlainTextRejected(line: string)
    requires |line| > 0 && !IsWhitespace(line[0]) && line[0] != CardUrlPrefix[0]
    ensures MatchLine(line) == NonLink
  {
    SkipWhitespaceEndsAt(line, 0, 0);
    assert !(CardUrlPrefix <= line[0..]) by { assert line[0..][0] == line[0]; }
  }

  lemma ExampleLinkLine(line: string, id: string)
    requires (line, id) == ("https://trello.com/c/abc123", "abc123") || (line, id) == ("https://trello.com/c/def456", "def456")
    ensures MatchLine(line) == Link(id)
  {
    assert line == CardUrlPrefix + id;
    BareLinkMatches(line, id);
  }

  lemma ExampleCommentLine(line: string)
    requires line == "some comment"
    ensures MatchLine(line) == NonLink
  {
    PlainTextRejected(line);
  }

  lemma ExampleMatches(lines: seq<string>)
    requires lines == ["https://trello.com/c/abc123", "https://trello.com/c/def456", "some comment"]
    ensures MatchAll(lines) == [Link("abc123"), Link("def456"), NonLink]
  {
    ExampleLinkLine(lines[0], "abc123");
    ExampleLinkLine(lines[1], "def456");
    ExampleCommentLine(lines[2]);
    MatchAllAt(lines, 0);
    MatchAllAt(lines, 1);
    MatchAllAt(lines, 2);
  }

  lemma ExampleIds(ms: seq<LineMatch>)
    requires ms == [Link("abc123"), Link("def456"), NonLink]
    ensures Extract(ms, true) == ["abc123", "def456"]
    ensures Extract(ms, false) == ["abc123", "def456"]
  {
    FirstNonLinkIs(ms, 2);
    assert LinkIds(ms[..1]) == ["abc123"] by { assert ms[..1][..0] == []; }
    assert LinkIds(ms[..2]) == ["abc123", "def456"] by { assert ms[..2][..1] == ms[..1]; }
    assert ms[..|ms| - 1] == ms[..2];
  }

  /** Two link lines followed by a comment: both ids, in order, in either mode. */
  lemma WorkedExample(prBody: string)
    requires prBody == "https://trello.com/c/abc123" + BrowserEol + "https://trello.com/c/def456" + BrowserEol + "some comment"
    ensures CardIds(prBody, true) == ["abc123", "def456"]
    ensures CardIds(prBody, false) == ["abc123", "def456"]
  {
    var lines := Split(prBody);
    assert lines == ["https://trello.com/c/abc123", "https://trello.com/c/def456", "some comment"] by {
      ExampleLines(prBody, "https://trello.com/c/abc123", "https://trello.com/c/def456", "some comment");
    }
    ExampleMatches(lines);
    ExampleIds(MatchAll(lines));
  }
}
