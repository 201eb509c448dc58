# Trello card mover for approved pull requests — a Dafny model

This model covers the GitHub Action in `approved_PR/index.js`. The action runs when a pull
request review is submitted. It reads the pull request description and collects the Trello
card ids from the lines that are lone card links. Then, card by card, it fetches the card,
looks up the list named `ready to deploy ( until 13)` on the card's board, and fetches the
pull request. If GitHub reports the pull request's `mergeable_state` as `unstable` or
`clean`, it issues a move of the card to that list. Any error thrown by a request ends the
whole run as failed.

The model has six modules:

- `Wrappers` (`wrappers.dfy`): `Option` and `Result`.
- `JsText` (`js_text.dfy`):
  - `String.prototype.split` with the separator `"\r\n"`.
  - The regular-expression classes `\s` (the whole ECMAScript WhiteSpace and LineTerminator
    set) and `\w` (`[A-Za-z0-9_]`).
- `CardLinks` (`card_links.dfy`):
  - The line pattern `^\s*(https://trello.com/c/(\w+))?\s*$`, written out over characters.
  - The specification functions of the scan.
  - The method `ExtractTrelloCardIds`, which keeps the source's `for…of` loop with its `break`.
- `Board` (`board.dfy`): the first-match search of `getIdListByName`.
- `MergeState` (`merge_state.dfy`): the move decision on `mergeable_state`, and the set of
  values GitHub documents for that field, used to state which of them lead to a move.
- `Action` (`action.dfy`): the top-level async function, as methods over abstract remote
  services.
  - Each service is a function from the position of the card being processed and the request's
    argument to a `Result`. A repeated card id can therefore get a different answer.
  - The requests the run issues are returned as a trace of `Call`s.
  - The methods are proved equal to the specification functions `CardStep`, `RunFrom` and
    `Invocation`. The lemmas state the ordering, gating and failure properties about those
    functions.

Three behaviours of the code are worth stating up front:

- **A missing list is not an error.** When the board has no list named
  `ready to deploy ( until 13)`, `getIdListByName` returns `null` (index.js:61). The move is
  still issued with that `null` list id (index.js:123). The model does the same and issues
  `MoveCard(cardId, None)`, as `Action.MoveToMissingList` shows.
- **Only `https://trello.com/c/` links are recognised** (index.js:83).
- **A `null` description fails the run.** A pull request without a body makes `prBody.split`
  throw, and the catch block turns that into a failed run (index.js:86, 135-138). The model
  gives this run the outcome `Failed(NullBody)`, and no request is issued.

## Model

| member | source | states |
|---|---|---|
| JsText.IsWhitespace | approved_PR/index.js:83 | JavaScript's `\s`: the ECMAScript WhiteSpace and LineTerminator characters |
| JsText.Split | approved_PR/index.js:86 | `prBody.split("\r\n")`: the text cut at each separator, left to right; it always gives at least one line |
| JsText.IsWordChar | approved_PR/index.js:83 | a `\w` character is never a `\s` character |
| JsText.SplitJoins | approved_PR/index.js:86 | joining the lines of `split("\r\n")` with `"\r\n"` gives the text back |
| JsText.SplitLinesEolFree | approved_PR/index.js:86 | no line that split returns contains the separator |
| JsText.SplitUnique | approved_PR/index.js:86 | any separator-free lines that join back to the text are exactly what split returns |
| JsText.SplitEolFree | approved_PR/index.js:86 | text without the separator splits into the one line `[s]` (so `""` gives `[""]`) |
| JsText.SplitAfterLine | approved_PR/index.js:86 | a separator-free line, the separator and any text split into that line followed by the text's lines |
| JsText.SplitAtEol | approved_PR/index.js:86 | text joined at a separator splits into the lines of each side, concatenated |
| JsText.EolFreeWithoutCr | approved_PR/index.js:81 | text without a carriage return cannot hold the separator |
| CardLinks.MatchLine | approved_PR/index.js:83-90 | `linkRegex.exec(line)`: rejected, matched without group 2, or matched with group 2 the card id; a captured id is non-empty and no longer than the line |
| CardLinks.SkipWhitespace | approved_PR/index.js:83 | the greedy `\s*` run: every character it passes is whitespace and the one it stops at is not |
| CardLinks.SkipWordChars | approved_PR/index.js:83 | the greedy `\w+` run: every character it passes is a word character and the one it stops at is not |
| CardLinks.SkippedWhitespace | approved_PR/index.js:83 | the text a `\s*` run passes over is all whitespace |
| CardLinks.SkippedWordChars | approved_PR/index.js:83 | the text a `\w` run passes over is all word characters |
| CardLinks.MatchLineBlank | approved_PR/index.js:83-92 | a line matches with group 2 undefined exactly when it is empty or all whitespace |
| CardLinks.MatchLineLink | approved_PR/index.js:83-94 | a line matches with id captured exactly when it is whitespace, `https://trello.com/c/`, the id (non-empty word characters) and whitespace |
| CardLinks.MatchedLinkParts | approved_PR/index.js:83 | for a matched link line, the URL sits after the leading whitespace, the id is the word run after it, and only whitespace follows |
| CardLinks.MatchedLinkHasShape | approved_PR/index.js:83-94 | a matched link line has the shape of whitespace, URL, id, whitespace |
| CardLinks.LinkShapeMatches | approved_PR/index.js:83 | every line of that shape matches with that id captured |
| CardLinks.MatchLineNonLink | approved_PR/index.js:83-96 | `exec` returns null exactly for lines that are neither blank nor a lone card link |
| CardLinks.BareLinkMatches | approved_PR/index.js:83 | a line that is exactly a card URL with a word-character id matches with that id |
| CardLinks.PlainTextRejected | approved_PR/index.js:83 | a line starting with neither whitespace nor `h` is rejected |
| CardLinks.SluggedUrlIsNotALink | approved_PR/index.js:83 | `https://trello.com/c/abc/1-title` is rejected: text after the id's word run is not whitespace |
| CardLinks.MatchAll | approved_PR/index.js:89-90 | one match result per line |
| CardLinks.MatchAllAt | approved_PR/index.js:89-90 | the match result at position k is the pattern applied to line k |
| CardLinks.MatchAllAppend | approved_PR/index.js:89-90 | matching is line by line: the results of two blocks of lines concatenate |
| CardLinks.LinkIds | approved_PR/index.js:91-95 | the collected ids number at most the lines scanned |
| CardLinks.FirstNonLinkSpec | approved_PR/index.js:96-98 | every line before the stopping point matches, and the line at it, if any, is rejected |
| CardLinks.FirstNonLinkIs | approved_PR/index.js:96-98 | those two facts determine the stopping point |
| CardLinks.FirstNonLinkBeyond | approved_PR/index.js:91-98 | a matching line before the stopping point does not stop the scan |
| CardLinks.FirstNonLinkReached | approved_PR/index.js:96-98 | the first rejected line reached is the stopping point |
| CardLinks.FirstNonLinkInPrefix | approved_PR/index.js:96-98 | lines after a rejected line do not move the stopping point |
| CardLinks.FirstNonLinkPastPrefix | approved_PR/index.js:91-98 | lines that all match only shift the stopping point |
| CardLinks.FirstNonLinkOfPrefix | approved_PR/index.js:96-98 | cutting the lines after the first rejected one keeps the stopping point |
| CardLinks.Extract | approved_PR/index.js:89-100 | the result has at most as many ids as there are lines |
| CardLinks.CardIds | approved_PR/index.js:77-102 | what `extractTrelloCardIds` returns: the extraction over the matches of the split lines; at most one id per line |
| CardLinks.ExtractTrelloCardIds | approved_PR/index.js:77-102 | the loop returns the ids of the matching lines up to the first rejected one (`stopOnNonLink`, the default) or of all matching lines; at most one id per line; in stop mode it examines the lines only up to and including the first rejected one |
| CardLinks.LinkIdsExtend | approved_PR/index.js:92-95 | one more line adds exactly its captured id, if any |
| CardLinks.LinkIdsAppend | approved_PR/index.js:89-95 | the ids of two blocks of lines concatenate, in line order |
| CardLinks.BlankLineIgnored | approved_PR/index.js:91-95 | a blank line adds no id and does not end the scan, in either mode |
| CardLinks.BlankAddsNoIds | approved_PR/index.js:91-95 | a blank line adds no id to the skip-mode result |
| CardLinks.BlankLineIgnoredInText | approved_PR/index.js:83-95 | removing a whitespace-only line that has a line on each side from the description does not change the result, in either mode |
| CardLinks.LeadingBlankIgnoredInText | approved_PR/index.js:83-95 | removing a whitespace-only first line from the description does not change the result, in either mode |
| CardLinks.TrailingBlankIgnoredInText | approved_PR/index.js:83-95 | removing a whitespace-only last line from the description does not change the result, in either mode |
| CardLinks.LinesAroundLine | approved_PR/index.js:86 | a separator-free line between two separators is one line of the split |
| CardLinks.MatchAroundLine | approved_PR/index.js:89-90 | the match results around one line are those of each side |
| CardLinks.StopModeIgnoresRest | approved_PR/index.js:96-99 | in stop mode, nothing after the first rejected line affects the result |
| CardLinks.StopModeIsPrefixOfSkipMode | approved_PR/index.js:89-100 | the stop-mode result is a prefix of the skip-mode result |
| CardLinks.LinkIdsFromLinks | approved_PR/index.js:92-94 | every collected id is the captured id of some link line |
| CardLinks.CardIdsAreWords | approved_PR/index.js:83-94 | every returned id is a non-empty run of word characters |
| CardLinks.NoLinkLinesNoIds | approved_PR/index.js:91-101 | the skip-mode result is empty exactly when no line is a card link |
| CardLinks.NoLinksGiveNothing | approved_PR/index.js:101 | a description without a card link line gives `[]`, in either mode |
| CardLinks.ExampleLines | approved_PR/index.js:86 | the example description splits into its three lines |
| CardLinks.ExampleLinkLine | approved_PR/index.js:83 | the example's link lines match with ids `abc123` and `def456` |
| CardLinks.ExampleCommentLine | approved_PR/index.js:83 | the example's comment line is rejected |
| CardLinks.ExampleMatches | approved_PR/index.js:83-90 | the example's match results are link, link, rejected |
| CardLinks.ExampleIds | approved_PR/index.js:89-100 | those results give `["abc123", "def456"]` in both modes |
| CardLinks.WorkedExample | approved_PR/index.js:77-102 | two card links followed by a comment give `["abc123", "def456"]` in both modes |
| Board.FindList | approved_PR/index.js:60 | `find` gives none exactly when no list has the name, and otherwise the first list, in board order, whose name equals it |
| Board.GetIdListByName | approved_PR/index.js:60-61 | the result is null exactly when no list has the name, and otherwise the id of the first list with exactly that name |
| Board.FindListAppend | approved_PR/index.js:60 | lists after a match do not change what `find` returns |
| Board.LaterListsIgnored | approved_PR/index.js:60-61 | lists after the first one with the name do not change the result |
| Board.UnnamedFindSkipped | approved_PR/index.js:60 | `find` passes over lists without the name |
| Board.UnnamedListsSkipped | approved_PR/index.js:60-61 | lists without the name in front do not change the result |
| MergeState.ShouldMove | approved_PR/index.js:122 | the move decision: `mergeable_state` is `unstable` or `clean`, with `null` as none |
| MergeState.ShouldMoveDocumented | approved_PR/index.js:122-128 | of the values GitHub documents for `mergeable_state` (`MergeableState`), exactly `clean` and `unstable` lead to a move |
| MergeState.ShouldMoveOnlyOnKnownState | approved_PR/index.js:122-128 | a null state, or a string that names none of GitHub's documented values, never leads to a move |
| Action.Supported | approved_PR/index.js:106 | the event filter holds exactly for event `pull_request_review` with action `submitted` |
| Action.CardStep | approved_PR/index.js:114-129 | one card's requests: one to four calls, starting with the card fetch; an error ends the step as a request failure |
| Action.RunFrom | approved_PR/index.js:113-130 | the loop from a position on: it ends processed or with a request failure, and it starts by fetching the card at that position |
| Action.Invocation | approved_PR/index.js:104-140 | the whole run: skipped exactly when the filter fails, and no request is issued without a supported event and a description |
| Action.RunAction | approved_PR/index.js:104-140 | the run: skipped for other events or review actions, failed on a null description, nothing to do without card ids, otherwise the per-card loop |
| Action.ProcessCards | approved_PR/index.js:113-138 | the loop over the cards in order, which ends at the first step that throws |
| Action.ProcessCard | approved_PR/index.js:114-129 | one card: getCard, then the lists of its board, then the pull request (owner `oversecured`), then the move if the state allows it; a throwing request ends the step |
| Action.StepMoves | approved_PR/index.js:115-125 | a step issues one move, of the card to the looked-up list id, exactly when all three requests succeed and the state is `unstable` or `clean`, and no move otherwise |
| Action.StepRequestsItsCard | approved_PR/index.js:114 | each step first fetches its own card and fetches no other card |
| Action.StepFailure | approved_PR/index.js:114-138 | a step that throws fails with a request error and issues no move |
| Action.MoveToMissingList | approved_PR/index.js:61-123 | with no list named `ready to deploy ( until 13)` on the board, the move is still issued, with a null list id |
| Action.FirstFailure | approved_PR/index.js:113-120 | the first failing position is in range, and the step at it throws |
| Action.FirstFailureSpec | approved_PR/index.js:113-120 | every step before the first failing position succeeds |
| Action.RunFromSteps | approved_PR/index.js:113-138 | the loop issues the steps of the cards up to and including the first one that throws, then fails with its error; if none throws it issues all of them and ends processed |
| Action.StepsRequestCards | approved_PR/index.js:113-114 | those steps fetch exactly the cards at those positions, in order |
| Action.StepsMoveDecided | approved_PR/index.js:122-125 | those steps issue exactly the moves the decision calls for, in order |
| Action.CardsProcessedInOrder | approved_PR/index.js:110-130 | the cards are fetched in extracted order, duplicates included, up to the first failure; the moves issued are exactly those decided; a processed run has fetched every extracted card |
| Action.OutcomeCases | approved_PR/index.js:106-138 | which outcome a run has: skipped exactly for other events or review actions, `NullBody` failure exactly for a null description, nothing to do exactly without card ids, processed exactly when no step throws, else a request failure |
| Action.NoRequestsWithoutCards | approved_PR/index.js:106-133 | a request is issued exactly when the event is a submitted review whose description names a card |
| Action.CardsRequestedAppend | approved_PR/index.js:113-114 | the cards fetched by two blocks of requests concatenate |
| Action.MovesAppend | approved_PR/index.js:123 | the moves issued by two blocks of requests concatenate |

## Left out

- HTTP plumbing is not modelled: `requestTrello`, the axios and octokit clients, credentials in
  query parameters, and response status logging (index.js:23-56, 64-68). The three reads are
  abstract services that return a value or an error. The move is a `MoveCard` entry in the trace.
- Configuration and the event context: `core.getInput`, `github.context` and the unused
  `baseIssuesArgs` and `shouldAddPrComment` (index.js:14-21, 70-74). The model takes the fields
  it needs as a `Context` value. `baseIssuesArgs` is evaluated when the module loads, and it
  throws for payloads without a pull request; that crash is not modelled.
- Logging (`core.debug`, `core.info`, `core.error`, `console.log`, `util.inspect`) has no
  behavioural content and is not modelled.
- Action.RunAction: the move is not awaited (`.then` at index.js:123), so it is modelled only as
  issued. Its completion and the unhandled rejection when it fails are not modelled, because they
  are asynchronous effects outside the run's control flow.
- The `supportedActions.some(...)` callback is modelled as sequence membership.
- Action.RunAction: a response of the wrong shape is not modelled. Examples are lists that are not
  an array, or a card without `idBoard`. Each service returns exactly the fields the code reads.
- CardLinks.MatchLine: a string is a sequence of Dafny characters (Unicode scalar values). So
  lone UTF-16 surrogates, which JavaScript strings can hold, are not represented.
- The constants (`pull_request_review`, `submitted`, `ready to deploy ( until 13)`,
  `oversecured`) are kept as written, as constants.
