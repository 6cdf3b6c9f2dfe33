/** How rounds advance on the host's client: the host presses the board's
    buttons, the server relays each game action to the whole room, and every
    client's store applies it. The board shows "Start Round" only while the
    game is idle, "STOP!" only during an active round (disabled once the
    player has submitted), and "Next Round" only once the round is stopped.

    The store's `START_ROUND` handler ignores the round number the board
    sends, so after the first round the game still reads round 0 and
    "Next Round" allows `totalRounds` more rounds: one round too many.
    `HandleGameActionCorrected` is the store with that handler recording the
    round; with it the number of rounds started never exceeds the limit. */
module RoundFlow {
  import opened GameTypes
  import GameStore
  import StopGameBoard

  /** `START_ROUND` as evidently intended: as the store's handler, and the
      round number taken from the payload. */
  function ApplyStartRoundCorrected(s: GameStore.Store, d: ActionPayload): (r: GameStore.Store)
    ensures r == s.(stopGameState := r.stopGameState, currentAnswers := map[], hasSubmitted := false)
    ensures r.stopGameState.Some? <==> s.stopGameState.Some?
    ensures s.stopGameState.Some? ==>
      var g := s.stopGameState.value;
      var g' := r.stopGameState.value;
      && g'.currentRound == d.round
      && g'.currentLetter == d.letter
      && g'.roundStartTime == d.roundStartTime
      && g'.phase == RoundActive
      && GameStore.SameConfig(g, g')
  {
    var r := GameStore.ApplyStartRound(s, d);
    if r.stopGameState.None? then r
    else r.(stopGameState := Some(r.stopGameState.value.(currentRound := d.round)))
  }

  /** The store's reducer with the corrected `START_ROUND`; every other action
      is handled exactly as before. */
  function HandleGameActionCorrected(s: GameStore.Store, ev: GameActionReceivedEvent, now: int): (r: GameStore.Store)
    ensures ev.action != START_ROUND ==> r == GameStore.HandleGameAction(s, ev, now)
    ensures ev.action == START_ROUND && s.stopGameState.Some? ==>
      && r.stopGameState.Some?
      && r.stopGameState.value.currentRound == ev.payload.round
      && r.stopGameState.value == GameStore.HandleGameAction(s, ev, now).stopGameState.value.(currentRound := ev.payload.round)
  {
    if ev.action == START_ROUND then ApplyStartRoundCorrected(s, ev.payload)
    else GameStore.HandleGameAction(s, ev, now)
  }

  /** What happens on the host's client: the host's button presses, and
      actions other players send that the server relays (`STOP` or
      `SUBMIT_ANSWERS`). */
  datatype HostEvent =
    | StartRoundClick(rnd: real, now: int)
    | StopClick(now: int)
    | NextRoundClick(rnd: real, now: int)
    | Relayed(ev: GameActionReceivedEvent, now: int)

  /** Every random draw lies in [0, 1), as `Math.random()` guarantees. */
  predicate DrawOk(e: HostEvent) {
    (e.StartRoundClick? || e.NextRoundClick?) ==> 0.0 <= e.rnd < 1.0
  }

  /** The relayed action comes back to the sender's store too. */
  function Echo(s: GameStore.Store, out: StopGameBoard.Outgoing, now: int, corrected: bool): GameStore.Store {
    var ev := GameActionReceivedEvent("", out.action, out.payload, now);
    if corrected then HandleGameActionCorrected(s, ev, now) else GameStore.HandleGameAction(s, ev, now)
  }

  function PhaseIs(s: GameStore.Store, p: GamePhase): bool {
    s.stopGameState.Some? && s.stopGameState.value.phase == p
  }

  /** One event: the next store, and whether a round was started. */
  function Step(s: GameStore.Store, e: HostEvent, corrected: bool): (GameStore.Store, bool)
    requires DrawOk(e)
  {
    match e
    case StartRoundClick(rnd, now) =>
      if !PhaseIs(s, Idle) then (s, false)
      else
        (match StopGameBoard.HandleStartRound(s, rnd, now)
         case None => (s, false)
         case Some(out) => (Echo(s, out, now, corrected), true))
    case StopClick(now) =>
      if !PhaseIs(s, RoundActive) || s.hasSubmitted then (s, false)
      else
        (match StopGameBoard.HandleStop(s)
         case None => (s, false)
         case Some(out) => (Echo(s, out, now, corrected), false))
    case NextRoundClick(rnd, now) =>
      if !PhaseIs(s, Stopped) then (s, false)
      else
        (match StopGameBoard.HandleNextRound(s, rnd)
         case None => (s, false)
         case Some(out) => (Echo(s, out, now, corrected), true))
    case Relayed(ev, now) =>
      if ev.action == STOP || ev.action == SUBMIT_ANSWERS
      then (Echo(s, StopGameBoard.Outgoing(ev.action, ev.payload), now, corrected), false)
      else (s, false)
  }

  /** The store after a run of events, and how many rounds were started. */
  function Run(s: GameStore.Store, es: seq<HostEvent>, corrected: bool): (GameStore.Store, nat)
    requires forall i :: 0 <= i < |es| ==> DrawOk(es[i])
    decreases |es|
  {
    if |es| == 0 then (s, 0)
    else
      var (next, started) := Step(s, es[0], corrected);
      var (last, n) := Run(next, es[1..], corrected);
      (last, n + if started then 1 else 0)
  }

  /** A game as `initStopGame` leaves it: idle, before round 1, with a round
      limit from the settings panel. */
  predicate FreshGame(s: GameStore.Store) {
    && s.stopGameState.Some?
    && s.stopGameState.value.phase == Idle
    && s.stopGameState.value.currentRound == 0
    && s.stopGameState.value.totalRounds >= 1
  }

  /** What the corrected client keeps true: the game's round number counts
      the rounds started, and never exceeds the limit. */
  predicate Counted(s: GameStore.Store, limit: int, started: nat) {
    && s.stopGameState.Some?
    && s.stopGameState.value.totalRounds == limit
    && s.stopGameState.value.currentRound == started
    && started <= limit
    && (s.stopGameState.value.phase == Idle ==> started == 0)
  }

  lemma StepKeepsCounted(s: GameStore.Store, e: HostEvent, limit: int, started: nat)
    requires DrawOk(e) && Counted(s, limit, started) && limit >= 1
    ensures var (next, more) := Step(s, e, true);
      Counted(next, limit, started + if more then 1 else 0)
  {
  }

  /** With the corrected handler, a game started fresh never starts more
      rounds than its limit, whatever the host clicks and whatever the other
      players send. */
  lemma {:induction false} CorrectedRoundsWithinLimit(s: GameStore.Store, es: seq<HostEvent>)
    requires FreshGame(s)
    requires forall i :: 0 <= i < |es| ==> DrawOk(es[i])
    ensures Run(s, es, true).1 <= s.stopGameState.value.totalRounds
  {
    CountedRun(s, es, s.stopGameState.value.totalRounds, 0);
  }

  lemma {:induction false} CountedRun(s: GameStore.Store, es: seq<HostEvent>, limit: int, started: nat)
    requires Counted(s, limit, started) && limit >= 1
    requires forall i :: 0 <= i < |es| ==> DrawOk(es[i])
    ensures started + Run(s, es, true).1 <= limit
    decreases |es|
  {
    if |es| > 0 {
      StepKeepsCounted(s, es[0], limit, started);
      var (next, more) := Step(s, es[0], true);
      CountedRun(next, es[1..], limit, started + if more then 1 else 0);
    }
  }

  /** The clicks that show the defect: start round 1, stop it, next round. */
  const EXTRA_ROUND_CLICKS: seq<HostEvent> :=
    [StartRoundClick(0.0, 1000), StopClick(2000), NextRoundClick(0.0, 3000)]

  /** The store as written: in a one-round game a host with an id starts round 1,
      stops it, and is still offered "Next Round", which starts a second
      round. With the corrected handler the same clicks start one round. */
  lemma AsWrittenPlaysExtraRound(s: GameStore.Store)
    requires FreshGame(s) && GameStore.IsHost(s) && StopGameBoard.HasPlayerId(s)
    requires s.stopGameState.value.totalRounds == 1
    ensures Run(s, EXTRA_ROUND_CLICKS, false).1 == 2
    ensures Run(s, EXTRA_ROUND_CLICKS, true).1 == 1
  {
    AsWrittenTwoRounds(s);
    CorrectedOneRound(s);
  }

  lemma AsWrittenTwoRounds(s: GameStore.Store)
    requires FreshGame(s) && GameStore.IsHost(s) && StopGameBoard.HasPlayerId(s)
    requires s.stopGameState.value.totalRounds == 1
    ensures Run(s, EXTRA_ROUND_CLICKS, false).1 == 2
  {
    var es := EXTRA_ROUND_CLICKS;
    var (s1, b1) := Step(s, es[0], false);
    assert b1 && s1.stopGameState.value.currentRound == 0 && PhaseIs(s1, RoundActive);
    var (s2, b2) := Step(s1, es[1], false);
    assert !b2 && PhaseIs(s2, Stopped) && s2.stopGameState.value.currentRound == 0;
    var (s3, b3) := Step(s2, es[2], false);
    assert b3;
    assert es[1..][1..] == es[2..];
  }

  lemma CorrectedOneRound(s: GameStore.Store)
    requires FreshGame(s) && GameStore.IsHost(s) && StopGameBoard.HasPlayerId(s)
    requires s.stopGameState.value.totalRounds == 1
    ensures Run(s, EXTRA_ROUND_CLICKS, true).1 == 1
  {
    var es := EXTRA_ROUND_CLICKS;
    var (c1, d1) := Step(s, es[0], true);
    assert d1 && c1.stopGameState.value.currentRound == 1;
    var (c2, d2) := Step(c1, es[1], true);
    assert !d2 && PhaseIs(c2, Stopped) && c2.stopGameState.value.currentRound == 1;
    var (c3, d3) := Step(c2, es[2], true);
    assert !d3;
    assert es[1..][1..] == es[2..];
  }

  /** `initStopGame` with a round limit the settings panel allows yields a
      fresh game, so the corrected bound applies to every game the host starts. */
  lemma InitStartsFreshGame(s: GameStore.Store, categories: seq<string>, totalRounds: int)
    requires 1 <= totalRounds <= 10
    ensures FreshGame(GameStore.InitStopGame(s, categories, totalRounds).0)
  {
  }
}
