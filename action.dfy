/**
 * The top-level async function of approved_PR/index.js:104-140. It filters on
 * the event, extracts the card ids from the pull request description, and then,
 * card by card and in order, fetches the card, looks up the "ready" list on the
 * card's board, fetches the pull request and, when its mergeable state allows
 * it, issues the move of the card to that list. The first error thrown ends the
 * run as failed.
 *
 * The three remote services are oracle functions indexed by the position of the
 * card being processed and the request's argument, so a repeated card id may get
 * a different answer the second time. What the run issues is recorded as a trace
 * of calls.
 */
module Action {
  import opened Wrappers
  import opened CardLinks
  import opened Board
  import opened MergeState

  /** The only event the action handles, and the review actions it accepts. */
  const SupportedEvent: string := "pull_request_review"
  const SupportedActions: seq<string> := ["submitted"]

  /** The list every approved card is moved to. */
  const ReadyListName: string := "ready to deploy ( until 13)"

  /** The repository owner passed to the pull request fetch. */
  const PullOwner: string := "oversecured"

  /** What the run reads from the event payload. `None` stands for an absent or `null` field. */
  datatype Context = Context(
    eventName: string,
    action: Option<string>,
    body: Option<string>,
    baseRepoName: string,
    pullNumber: int)

  /** A Trello card, as far as the run reads it. */
  datatype Card = Card(idBoard: string)

  /** A pull request, as far as the run reads it; the state is `null` while GitHub computes it. */
  datatype PullRequest = PullRequest(mergeableState: Option<string>)

  /** The arguments of `octokit.pulls.get`. */
  datatype PullArgs = PullArgs(owner: string, repo: string, pullNumber: int)

  /** A request the run issues. */
  datatype Call =
    | GetCard(cardId: string)
    | GetLists(boardId: string)
    | GetPull(args: PullArgs)
    | MoveCard(cardId: string, listId: Option<string>)

  /** Why a run failed: the description was `null` (so `split` throws), or a request threw. */
  datatype Failure = NullBody | RequestFailed(message: string)

  datatype Outcome = Unsupported | NoCardUrls | Processed | Failed(failure: Failure)

  /** The answers of the remote services, for the card at a given position. */
  datatype Gateways = Gateways(
    getCard: (nat, string) -> Result<Card>,
    getLists: (nat, string) -> Result<seq<BoardList>>,
    getPull: (nat, PullArgs) -> Result<PullRequest>)

  /** The requests issued for one card, and the error that ended it, if any. */
  datatype Step = Step(calls: seq<Call>, failure: Option<Failure>)

  /** A whole run: how it ended and every request it issued, in order. */
  datatype Run = Run(outcome: Outcome, trace: seq<Call>)

  /** The event filter of line 106. */
  predicate Supported(ctx: Context)
    ensures Supported(ctx) <==> ctx.eventName == "pull_request_review" && ctx.action == Some("submitted")
  {
    ctx.eventName == SupportedEvent && ctx.action.Some? && ctx.action.value in SupportedActions
  }

  function PullArgsOf(ctx: Context): PullArgs {
    PullArgs(PullOwner, ctx.baseRepoName, ctx.pullNumber)
  }

  /** One iteration of the loop of lines 113-130, for the card at position `k`. */
  function CardStep(ctx: Context, gw: Gateways, k: nat, cardId: string): (step: Step)
    ensures 1 <= |step.calls| <= 4 && step.calls[0] == GetCard(cardId)
    ensures step.failure.Some? ==> step.failure.value.RequestFailed?
  {
    match gw.getCard(k, cardId)
    case Err(m) => Step([GetCard(cardId)], Some(RequestFailed(m)))
    case Ok(card) =>
      match gw.getLists(k, card.idBoard)
      case Err(m) => Step([GetCard(cardId), GetLists(card.idBoard)], Some(RequestFailed(m)))
      case Ok(lists) =>
        var idNewList := GetIdListByName(ReadyListName, lists);
        match gw.getPull(k, PullArgsOf(ctx))
        case Err(m) => Step([GetCard(cardId), GetLists(card.idBoard), GetPull(PullArgsOf(ctx))], Some(RequestFailed(m)))
        case Ok(pull) =>
          if ShouldMove(pull.mergeableState) then
            Step([GetCard(cardId), GetLists(card.idBoard), GetPull(PullArgsOf(ctx)), MoveCard(cardId, idNewList)], None)
          else
            Step([GetCard(cardId), GetLists(card.idBoard), GetPull(PullArgsOf(ctx))], None)
  }

  /** The loop from the card at position `k` on: it stops at the first step that fails. */
  function RunFrom(ctx: Context, gw: Gateways, cardIds: seq<string>, k: nat): (run: Run)
    requires k <= |cardIds|
    ensures run.outcome == Processed || (run.outcome.Failed? && run.outcome.failure.RequestFailed?)
    ensures k < |cardIds| ==> run.trace != [] && run.trace[0] == GetCard(cardIds[k])
    decreases |cardIds| - k
  {
    if k == |cardIds| then Run(Processed, [])
    else
      var step := CardStep(ctx, gw, k, cardIds[k]);
      if step.failure.Some? then Run(Failed(step.failure.value), step.calls)
      else
        var rest := RunFrom(ctx, gw, cardIds, k + 1);
        Run(rest.outcome, step.calls + rest.trace)
  }

  /** The whole invocation, lines 104-140. */
  function Invocation(ctx: Context, gw: Gateways): (run: Run)
    ensures run.outcome == Unsupported <==> !Supported(ctx)
    ensures run.trace != [] ==> Supported(ctx) && ctx.body.Some?
  {
    if !Supported(ctx) then Run(Unsupported, [])
    else if ctx.body.None? then Run(Failed(NullBody), [])
    else
      var cardIds := CardIds(ctx.body.value, true);
      if |cardIds| == 0 then Run(NoCardUrls, []) else RunFrom(ctx, gw, cardIds, 0)
  }

  /** The action's entry point, issuing the requests one after another. */
  method RunAction(ctx: Context, gw: Gateways) returns (outcome: Outcome, trace: seq<Call>)
    ensures Run(outcome, trace) == Invocation(ctx, gw)
  {
    trace := [];
    if !Supported(ctx) {
      return Unsupported, trace;
    }
    if ctx.body.None? {
      return Failed(NullBody), trace;
    }
    var cardIds;
    ghost var examined;
    cardIds, examined := ExtractTrelloCardIds(ctx.body.value);
    if |cardIds| == 0 {
      return NoCardUrls, trace;
    }
    outcome, trace := ProcessCards(ctx, gw, cardIds);
  }

  /** The loop of lines 113-130: the cards in order, until the first request that throws. */
  method ProcessCards(ctx: Context, gw: Gateways, cardIds: seq<string>)
    returns (outcome: Outcome, trace: seq<Call>)
    ensures Run(outcome, trace) == RunFrom(ctx, gw, cardIds, 0)
  {
    trace := [];
    ghost var whole := RunFrom(ctx, gw, cardIds, 0);
    var i := 0;
    while i < |cardIds|
      invariant i <= |cardIds|
      invariant whole == Run(RunFrom(ctx, gw, cardIds, i).outcome, trace + RunFrom(ctx, gw, cardIds, i).trace)
    {
      var calls, failure := ProcessCard(ctx, gw, i, cardIds[i]);
      RunFromUnfold(ctx, gw, cardIds, i);
      if failure.Some? {
        return Failed(failure.value), trace + calls;
      }
      assert trace + calls + RunFrom(ctx, gw, cardIds, i + 1).trace
          == trace + (calls + RunFrom(ctx, gw, cardIds, i + 1).trace);
      trace := trace + calls;
      i := i + 1;
    }
    outcome := Processed;
  }

  lemma RunFromUnfold(ctx: Context, gw: Gateways, cardIds: seq<string>, k: nat)
    requires k < |cardIds|
    ensures var step := CardStep(ctx, gw, k, cardIds[k]);
      RunFrom(ctx, gw, cardIds, k) == if step.failure.Some? then Run(Failed(step.failure.value), step.calls)
        else Run(RunFrom(ctx, gw, cardIds, k + 1).outcome, step.calls + RunFrom(ctx, gw, cardIds, k + 1).trace)
  {
  }

  /** The body of the loop of lines 113-130 for the card at position `k`. */
  method ProcessCard(ctx: Context, gw: Gateways, k: nat, cardId: string)
    returns (calls: seq<Call>, failure: Option<Failure>)
    ensures Step(calls, failure) == CardStep(ctx, gw, k, cardId)
  {
    var card := gw.getCard(k, cardId);
    calls := [GetCard(cardId)];
    if card.Err? {
      return calls, Some(RequestFailed(card.message));
    }
    var lists := gw.getLists(k, card.value.idBoard);
    calls := calls + [GetLists(card.value.idBoard)];
    if lists.Err? {
      return calls, Some(RequestFailed(lists.message));
    }
    var idNewList := GetIdListByName(ReadyListName, lists.value);
    var args := PullArgsOf(ctx);
    var pullRequest := gw.getPull(k, args);
    calls := calls + [GetPull(args)];
    if pullRequest.Err? {
      return calls, Some(RequestFailed(pullRequest.message));
    }
    var state := pullRequest.value.mergeableState;
    if ShouldMove(state) {
      calls := calls + [MoveCard(cardId, idNewList)];
    }
    failure := None;
  }

  /** The ids of the cards fetched, in the order of the requests. */
  function CardsRequested(calls: seq<Call>): seq<string> {
    if calls == [] then []
    else (if calls[0].GetCard? then [calls[0].cardId] else []) + CardsRequested(calls[1..])
  }

  /** The moves issued, in order. */
  function Moves(calls: seq<Call>): seq<Call> {
    if calls == [] then []
    else (if calls[0].MoveCard? then [calls[0]] else []) + Moves(calls[1..])
  }

  lemma {:induction false} CardsRequestedAppend(a: seq<Call>, b: seq<Call>)
    ensures CardsRequested(a + b) == CardsRequested(a) + CardsRequested(b)
  {
    if a == [] {
      assert a + b == b;
    } else {
      assert (a + b)[0] == a[0];
      assert (a + b)[1..] == a[1..] + b;
      CardsRequestedAppend(a[1..], b);
    }
  }

  lemma {:induction false} MovesAppend(a: seq<Call>, b: seq<Call>)
    ensures Moves(a + b) == Moves(a) + Moves(b)
  {
    if a == [] {
      assert a + b == b;
    } else {
      assert (a + b)[0] == a[0];
      assert (a + b)[1..] == a[1..] + b;
      MovesAppend(a[1..], b);
    }
  }

  /** All three requests for the card at position `k` succeed and the pull request's state allows the move. */
  ghost predicate MoveDecided(ctx: Context, gw: Gateways, k: nat, cardId: string) {
    var card := gw.getCard(k, cardId);
    card.Ok? && gw.getLists(k, card.value.idBoard).Ok? && gw.getPull(k, PullArgsOf(ctx)).Ok?
    && ShouldMove(gw.getPull(k, PullArgsOf(ctx)).value.mergeableState)
  }

  /** The list id the lookup finds for the card at position `k`, once its card and lists were fetched. */
  ghost function LookedUpList(ctx: Context, gw: Gateways, k: nat, cardId: string): Option<string>
    requires gw.getCard(k, cardId).Ok?
    requires gw.getLists(k, gw.getCard(k, cardId).value.idBoard).Ok?
  {
    GetIdListByName(ReadyListName, gw.getLists(k, gw.getCard(k, cardId).value.idBoard).value)
  }

  /** The move a card's step issues: one, to the looked-up list (possibly none), exactly when the decision is to move. */
  lemma StepMoves(ctx: Context, gw: Gateways, k: nat, cardId: string)
    ensures Moves(CardStep(ctx, gw, k, cardId).calls) ==
      if MoveDecided(ctx, gw, k, cardId) then [MoveCard(cardId, LookedUpList(ctx, gw, k, cardId))] else []
  {
    var calls := CardStep(ctx, gw, k, cardId).calls;
    if MoveDecided(ctx, gw, k, cardId) {
      var fetches := calls[..3];
      assert calls == fetches + [calls[3]];
      NoMoves(fetches);
      MovesAppend(fetches, [calls[3]]);
      assert Moves([calls[3]]) == [calls[3]] by { assert [calls[3]][1..] == []; }
    } else {
      NoMoves(calls);
    }
  }

  lemma {:induction false} NoMoves(calls: seq<Call>)
    requires forall i :: 0 <= i < |calls| ==> !calls[i].MoveCard?
    ensures Moves(calls) == []
  {
    if calls != [] {
      assert forall i :: 0 <= i < |calls[1..]| ==> calls[1..][i] == calls[i + 1];
      NoMoves(calls[1..]);
    }
  }

  lemma {:induction false} NoCardFetches(calls: seq<Call>)
    requires forall i :: 0 <= i < |calls| ==> !calls[i].GetCard?
    ensures CardsRequested(calls) == []
  {
    if calls != [] {
      assert forall i :: 0 <= i < |calls[1..]| ==> calls[1..][i] == calls[i + 1];
      NoCardFetches(calls[1..]);
    }
  }

  /** Each step fetches its own card first, and no other card. */
  lemma StepRequestsItsCard(ctx: Context, gw: Gateways, k: nat, cardId: string)
    ensures CardStep(ctx, gw, k, cardId).calls[0] == GetCard(cardId)
    ensures CardsRequested(CardStep(ctx, gw, k, cardId).calls) == [cardId]
  {
    var calls := CardStep(ctx, gw, k, cardId).calls;
    NoCardFetches(calls[1..]);
  }

  /** A step that throws issues no move. */
  lemma StepFailure(ctx: Context, gw: Gateways, k: nat, cardId: string)
    ensures var step := CardStep(ctx, gw, k, cardId);
      step.failure.Some? ==>
        step.failure.value.RequestFailed? && Moves(step.calls) == [] && !MoveDecided(ctx, gw, k, cardId)
  {
    StepMoves(ctx, gw, k, cardId);
  }

  /** The position of the first card whose step throws, from position `k` on, or the number of cards. */
  ghost function FirstFailure(ctx: Context, gw: Gateways, cardIds: seq<string>, k: nat): (n: nat)
    requires k <= |cardIds|
    ensures k <= n <= |cardIds|
    ensures n < |cardIds| ==> CardStep(ctx, gw, n, cardIds[n]).failure.Some?
    decreases |cardIds| - k
  {
    if k == |cardIds| || CardStep(ctx, gw, k, cardIds[k]).failure.Some? then k
    else FirstFailure(ctx, gw, cardIds, k + 1)
  }

  /** Every step before FirstFailure succeeds. */
  lemma {:induction false} FirstFailureSpec(ctx: Context, gw: Gateways, cardIds: seq<string>, k: nat)
    requires k <= |cardIds|
    ensures forall j :: k <= j < FirstFailure(ctx, gw, cardIds, k) ==> CardStep(ctx, gw, j, cardIds[j]).failure.None?
    decreases |cardIds| - k
  {
    if k < |cardIds| && CardStep(ctx, gw, k, cardIds[k]).failure.None? {
      FirstFailureSpec(ctx, gw, cardIds, k + 1);
    }
  }

  /** One past the last card whose step starts: the failing card is processed, later ones are not. */
  ghost function RunEnd(ctx: Context, gw: Gateways, cardIds: seq<string>, k: nat): nat
    requires k <= |cardIds|
  {
    var f := FirstFailure(ctx, gw, cardIds, k);
    if f < |cardIds| then f + 1 else |cardIds|
  }

  /** The requests of the steps for the cards at positions `k` up to `n`, one step after another. */
  ghost function StepsCalls(ctx: Context, gw: Gateways, cardIds: seq<string>, k: nat, n: nat): seq<Call>
    requires k <= n <= |cardIds|
    decreases n - k
  {
    if k == n then [] else CardStep(ctx, gw, k, cardIds[k]).calls + StepsCalls(ctx, gw, cardIds, k + 1, n)
  }

  /** The moves the decision calls for, for the cards at positions `k` up to `n`. */
  ghost function DecidedMoves(ctx: Context, gw: Gateways, cardIds: seq<string>, k: nat, n: nat): seq<Call>
    requires k <= n <= |cardIds|
    decreases n - k
  {
    if k == n then []
    else
      (if MoveDecided(ctx, gw, k, cardIds[k]) then [MoveCard(cardIds[k], LookedUpList(ctx, gw, k, cardIds[k]))] else [])
      + DecidedMoves(ctx, gw, cardIds, k + 1, n)
  }

  /**
   * The loop from position `k` issues the steps of the cards up to and including
   * the first one that throws, and then fails with that error; when none throws it
   * issues all of them and the run is processed.
   */
  lemma {:induction false} RunFromSteps(ctx: Context, gw: Gateways, cardIds: seq<string>, k: nat)
    requires k <= |cardIds|
    ensures RunFrom(ctx, gw, cardIds, k).trace == StepsCalls(ctx, gw, cardIds, k, RunEnd(ctx, gw, cardIds, k))
    ensures var f := FirstFailure(ctx, gw, cardIds, k);
      RunFrom(ctx, gw, cardIds, k).outcome ==
        if f < |cardIds| then Failed(CardStep(ctx, gw, f, cardIds[f]).failure.value) else Processed
    decreases |cardIds| - k
  {
    if k < |cardIds| {
      var step := CardStep(ctx, gw, k, cardIds[k]);
      if step.failure.Some? {
        assert StepsCalls(ctx, gw, cardIds, k, k + 1) == step.calls + [];
      } else {
        RunFromSteps(ctx, gw, cardIds, k + 1);
      }
    }
  }

  /** The steps from `k` up to `n` fetch exactly the cards at those positions, in order. */
  lemma {:induction false} StepsRequestCards(ctx: Context, gw: Gateways, cardIds: seq<string>, k: nat, n: nat)
    requires k <= n <= |cardIds|
    ensures CardsRequested(StepsCalls(ctx, gw, cardIds, k, n)) == cardIds[k..n]
    decreases n - k
  {
    if k < n {
      StepsRequestCards(ctx, gw, cardIds, k + 1, n);
      StepRequestsItsCard(ctx, gw, k, cardIds[k]);
      CardsRequestedAppend(CardStep(ctx, gw, k, cardIds[k]).calls, StepsCalls(ctx, gw, cardIds, k + 1, n));
      assert cardIds[k..n] == [cardIds[k]] + cardIds[k + 1..n];
    }
  }

  /** The steps from `k` up to `n` issue exactly the moves the decision calls for, in order. */
  lemma {:induction false} StepsMoveDecided(ctx: Context, gw: Gateways, cardIds: seq<string>, k: nat, n: nat)
    requires k <= n <= |cardIds|
    ensures Moves(StepsCalls(ctx, gw, cardIds, k, n)) == DecidedMoves(ctx, gw, cardIds, k, n)
    decreases n - k
  {
    if k < n {
      StepsMoveDecided(ctx, gw, cardIds, k + 1, n);
      StepMoves(ctx, gw, k, cardIds[k]);
      MovesAppend(CardStep(ctx, gw, k, cardIds[k]).calls, StepsCalls(ctx, gw, cardIds, k + 1, n));
    }
  }

  /**
   * For a supported event with a description, the cards are fetched in the order
   * they were extracted, duplicates included, up to and including the first one
   * whose step throws; the moves issued are those the decision calls for; and the
   * run is processed exactly when no step throws, in which case every extracted
   * card was fetched.
   */
  lemma CardsProcessedInOrder(ctx: Context, gw: Gateways)
    ensures Supported(ctx) && ctx.body.Some? ==>
      var cardIds := CardIds(ctx.body.value, true);
      var run := Invocation(ctx, gw);
      var end := RunEnd(ctx, gw, cardIds, 0);
      CardsRequested(run.trace) == cardIds[..end]
      && Moves(run.trace) == DecidedMoves(ctx, gw, cardIds, 0, end)
      && (run.outcome == Processed ==> CardsRequested(run.trace) == cardIds)
  {
    if Supported(ctx) && ctx.body.Some? {
      var cardIds := CardIds(ctx.body.value, true);
      var end := RunEnd(ctx, gw, cardIds, 0);
      if |cardIds| > 0 {
        RunFromSteps(ctx, gw, cardIds, 0);
        StepsRequestCards(ctx, gw, cardIds, 0, end);
        StepsMoveDecided(ctx, gw, cardIds, 0, end);
        FirstFailureSpec(ctx, gw, cardIds, 0);
        var f := FirstFailure(ctx, gw, cardIds, 0);
        if f < |cardIds| {
          StepFailure(ctx, gw, f, cardIds[f]);
        }
        assert cardIds[..|cardIds|] == cardIds;
      }
    }
  }

  /** There are cards and the step of none of them throws. */
  ghost predicate AllStepsSucceed(ctx: Context, gw: Gateways, cardIds: seq<string>) {
    cardIds != [] && FirstFailure(ctx, gw, cardIds, 0) == |cardIds|
  }

  /**
   * How a run ends: skipped exactly when the event is not a submitted review;
   * failed on the description exactly when it is `null`; done with nothing to do
   * exactly when no card id is found; processed exactly when no step throws, and
   * otherwise failed with the error of a request.
   */
  lemma OutcomeCases(ctx: Context, gw: Gateways)
    ensures var run := Invocation(ctx, gw);
      (run.outcome == Unsupported <==> !Supported(ctx))
      && (run.outcome == Failed(NullBody) <==> Supported(ctx) && ctx.body.None?)
      && (run.outcome == NoCardUrls <==> Supported(ctx) && ctx.body.Some? && CardIds(ctx.body.value, true) == [])
      && (run.outcome == Processed <==>
            Supported(ctx) && ctx.body.Some? && AllStepsSucceed(ctx, gw, CardIds(ctx.body.value, true)))
      && (run.outcome.Failed? && run.outcome.failure != NullBody ==> run.outcome.failure.RequestFailed?)
  {
    if Supported(ctx) && ctx.body.Some? {
      var cardIds := CardIds(ctx.body.value, true);
      if cardIds != [] {
        RunFromSteps(ctx, gw, cardIds, 0);
        var f := FirstFailure(ctx, gw, cardIds, 0);
        if f < |cardIds| {
          StepFailure(ctx, gw, f, cardIds[f]);
        }
      }
    }
  }

  /** No request at all is issued unless the event is a submitted review whose description names a card. */
  lemma NoRequestsWithoutCards(ctx: Context, gw: Gateways)
    ensures Invocation(ctx, gw).trace != [] <==>
      Supported(ctx) && ctx.body.Some? && CardIds(ctx.body.value, true) != []
  {
    if Supported(ctx) && ctx.body.Some? && CardIds(ctx.body.value, true) != [] {
      CardsProcessedInOrder(ctx, gw);
      var cardIds := CardIds(ctx.body.value, true);
      assert CardsRequested(Invocation(ctx, gw).trace) == cardIds[..RunEnd(ctx, gw, cardIds, 0)];
      assert RunEnd(ctx, gw, cardIds, 0) > 0;
    }
  }

  /**
   * The looked-up list id is not checked before the move: when the board has no
   * list with the ready name and the decision is to move, the move is issued with
   * no list id.
   */
  lemma MoveToMissingList(ctx: Context, gw: Gateways, k: nat, cardId: string)
    requires MoveDecided(ctx, gw, k, cardId)
    requires forall l :: l in gw.getLists(k, gw.getCard(k, cardId).value.idBoard).value ==> l.name != ReadyListName
    ensures Moves(CardStep(ctx, gw, k, cardId).calls) == [MoveCard(cardId, None)]
  {
    StepMoves(ctx, gw, k, cardId);
    var lists := gw.getLists(k, gw.getCard(k, cardId).value.idBoard).value;
    assert forall i :: 0 <= i < |lists| ==> lists[i] in lists;
  }
}
