/** The round controls of the Stop game board (components/game/StopGameBoard.tsx):
    what each button sends, read from the store, and the `m:ss` rendering of
    the elapsed time. */
module StopGameBoard {
  import opened GameTypes
  import GameStore
  import JsMath
  import Text

  /** The pool the board draws round letters from: the alphabet without Q. */
  const BOARD_LETTERS: string := "ABCDEFGHIJKLMNOPRSTUVWXYZ"

  /** The board's pool is the alphabet with Q left out, in the same order. */
  lemma BoardLettersAreAlphabetWithoutQ()
    ensures |BOARD_LETTERS| == 25
    ensures forall i :: 0 <= i < 25 ==> BOARD_LETTERS[i] == ALPHABET[if i < 16 then i else i + 1]
    ensures 'Q' in ALPHABET
    ensures forall c :: c in BOARD_LETTERS <==> c in ALPHABET && c != 'Q'
  {
    AlphabetIsCapitalLetters();
    forall i | 0 <= i < 25
      ensures BOARD_LETTERS[i] as int == 'A' as int + (if i < 16 then i else i + 1)
    {
    }
    assert ALPHABET[16] == 'Q';
    forall c | c in ALPHABET && c != 'Q' ensures c in BOARD_LETTERS {
      var j := c as int - 'A' as int;
      assert ALPHABET[j] == c;
      var i := if j < 16 then j else j - 1;
      assert BOARD_LETTERS[i] == c;
    }
  }

  /** A game action the board asks the server to relay. */
  datatype Outgoing = Outgoing(action: string, payload: ActionPayload)

  /** `sendGameAction`: nothing is sent while the store has no room. */
  function Send(s: GameStore.Store, action: string, payload: ActionPayload): (r: Option<Outgoing>)
    ensures r.Some? <==> s.room.Some?
    ensures r.Some? ==> r.value == Outgoing(action, payload)
  {
    if s.room.None? then None else Some(Outgoing(action, payload))
  }

  /** A letter drawn from the board's pool. */
  function DrawBoardLetter(rnd: real): (r: string)
    requires 0.0 <= rnd < 1.0
    ensures |r| == 1 && r[0] in BOARD_LETTERS
  {
    [BOARD_LETTERS[JsMath.RandomIndex(rnd, |BOARD_LETTERS|)]]
  }

  /** `handleStartRound`: host only, with a game present. The payload asks for
      round `currentRound + 1`, a letter from the pool (never Q) and the start
      time `now`. */
  function HandleStartRound(s: GameStore.Store, rnd: real, now: int): (r: Option<Outgoing>)
    requires 0.0 <= rnd < 1.0
    ensures r.Some? <==> GameStore.IsHost(s) && s.stopGameState.Some?
    ensures r.Some? ==>
      && r.value.action == START_ROUND
      && r.value.payload.round == s.stopGameState.value.currentRound + 1
      && |r.value.payload.letter| == 1
      && r.value.payload.letter[0] in ALPHABET && r.value.payload.letter[0] != 'Q'
      && r.value.payload.roundStartTime == now
  {
    if !GameStore.IsHost(s) || s.stopGameState.None? then None
    else
      BoardLettersAreAlphabetWithoutQ();
      var letter := DrawBoardLetter(rnd);
      assert letter[0] in BOARD_LETTERS;
      Send(s, START_ROUND, EMPTY_PAYLOAD.(
        letter := letter,
        round := s.stopGameState.value.currentRound + 1,
        roundStartTime := now))
  }

  /** The board's `!playerId` test: JavaScript treats a missing id and the
      empty string alike as no id. */
  predicate HasPlayerId(s: GameStore.Store) {
    s.playerId.Some? && s.playerId.value != ""
  }

  /** `handleStop`: any player in a room with a non-empty id; the payload
      names the player as the stopper. */
  function HandleStop(s: GameStore.Store): (r: Option<Outgoing>)
    ensures r.Some? <==> s.room.Some? && s.playerId.Some? && s.playerId.value != ""
    ensures r.Some? ==> r.value.action == STOP && r.value.payload.stoppedBy == s.playerId.value
  {
    if s.room.None? || !HasPlayerId(s) then None
    else Send(s, STOP, EMPTY_PAYLOAD.(stoppedBy := s.playerId.value))
  }

  /** `handleSubmitAnswers`: does nothing without a (non-empty) player id or
      after this player has submitted. Otherwise the local answers are sent
      under the player's id (when there is a room to send to) and the store
      marks them submitted. */
  function HandleSubmitAnswers(s: GameStore.Store): (r: (Option<Outgoing>, GameStore.Store))
    ensures s.playerId.None? || s.playerId == Some("") || s.hasSubmitted ==> r == (None, s)
    ensures s.playerId.Some? && s.playerId.value != "" && !s.hasSubmitted ==>
      && r.1.hasSubmitted
      && r.1.(hasSubmitted := false) == s
      && (r.0.Some? <==> s.room.Some?)
      && (r.0.Some? ==>
        && r.0.value.action == SUBMIT_ANSWERS
        && r.0.value.payload.playerId == s.playerId.value
        && r.0.value.payload.answers == s.currentAnswers)
  {
    if !HasPlayerId(s) || s.hasSubmitted then (None, s)
    else
      var out := Send(s, SUBMIT_ANSWERS, EMPTY_PAYLOAD.(playerId := s.playerId.value, answers := s.currentAnswers));
      (out, GameStore.MarkSubmitted(s))
  }

  /** A player's answers go out at most once until a new round clears the
      flag: submitting again right away sends nothing and changes nothing. */
  lemma SubmitAtMostOnce(s: GameStore.Store)
    ensures var after := HandleSubmitAnswers(s).1;
      HandleSubmitAnswers(after) == (None, after)
  {
  }

  /** `handleNextRound`: host only, with a game present, and only while the
      current round is below the limit. The payload asks for round
      `currentRound + 1`, which is then at most the limit, and a letter from
      the pool. */
  function HandleNextRound(s: GameStore.Store, rnd: real): (r: Option<Outgoing>)
    requires 0.0 <= rnd < 1.0
    ensures r.Some? <==>
      && GameStore.IsHost(s) && s.stopGameState.Some?
      && s.stopGameState.value.currentRound < s.stopGameState.value.totalRounds
    ensures r.Some? ==>
      && r.value.action == NEXT_ROUND
      && r.value.payload.round == s.stopGameState.value.currentRound + 1
      && r.value.payload.round <= s.stopGameState.value.totalRounds
      && |r.value.payload.letter| == 1
      && r.value.payload.letter[0] in ALPHABET && r.value.payload.letter[0] != 'Q'
  {
    if !GameStore.IsHost(s) || s.stopGameState.None? then None
    else if s.stopGameState.value.currentRound >= s.stopGameState.value.totalRounds then None
    else
      BoardLettersAreAlphabetWithoutQ();
      var letter := DrawBoardLetter(rnd);
      assert letter[0] in BOARD_LETTERS;
      Send(s, NEXT_ROUND, EMPTY_PAYLOAD.(round := s.stopGameState.value.currentRound + 1, letter := letter))
  }

  /** The seconds field: `secs.toString().padStart(2, '0')` for `secs` below 60
      is exactly two digits worth `secs`. */
  lemma SecondsField(secs: nat)
    requires secs < 60
    ensures var f := Text.PadStart(Text.Digits(secs), 2, '0');
      |f| == 2 && Text.AllDigits(f) && Text.DecimalValue(f) == secs
  {
    var d := Text.Digits(secs);
    Text.DigitsRoundTrip(secs);
    if secs < 10 {
      assert |d| == 1;
      Text.LeadingZeros(1, d);
    } else {
      assert d == Text.Digits(secs / 10) + [Text.DigitChar(secs % 10)];
      assert |Text.Digits(secs / 10)| == 1;
    }
  }

  /** `r` shows a non-negative count of seconds as `m:ss`: the minutes in
      decimal without leading zeros, a colon, and exactly two digits of
      seconds below 60, where minutes * 60 + seconds gives the count back. */
  predicate ShowsMinutesSeconds(r: string, seconds: nat) {
    && |r| >= 4
    && r[..|r| - 3] == Text.Digits(seconds / 60)
    && r[|r| - 3] == ':'
    && Text.AllDigits(r[|r| - 2..])
    && Text.DecimalValue(r[..|r| - 3]) * 60 + Text.DecimalValue(r[|r| - 2..]) == seconds
    && Text.DecimalValue(r[|r| - 2..]) < 60
  }

  /** `formatTime`: `Math.floor(seconds / 60)`, a colon, and `seconds % 60`
      padded to two digits. */
  function FormatTime(seconds: int): (r: string)
    ensures seconds >= 0 ==> ShowsMinutesSeconds(r, seconds)
  {
    var mins := JsMath.FloorDiv(seconds, 60);
    var secs := JsMath.TruncRem(seconds, 60);
    if seconds >= 0 then
      assert mins == seconds / 60 && secs == seconds % 60;
      FormatNonNegative(seconds);
      Text.Digits(mins) + ":" + Text.PadStart(Text.Digits(secs), 2, '0')
    else
      Text.IntToString(mins) + ":" + Text.PadStart(Text.IntToString(secs), 2, '0')
  }

  lemma FormatNonNegative(seconds: nat)
    ensures ShowsMinutesSeconds(Text.Digits(seconds / 60) + ":" + Text.PadStart(Text.Digits(seconds % 60), 2, '0'), seconds)
  {
    var mins := seconds / 60;
    var secs := seconds % 60;
    var field := Text.PadStart(Text.Digits(secs), 2, '0');
    SecondsField(secs);
    Text.DigitsRoundTrip(mins);
    var r := Text.Digits(mins) + ":" + field;
    var k := |r| - 3;
    assert r[..k] == Text.Digits(mins);
    assert r[k] == ':';
    assert r[k + 1..] == field;
  }

  /** Different non-negative counts render differently. */
  lemma FormatTimeInjective(a: nat, b: nat)
    requires FormatTime(a) == FormatTime(b)
    ensures a == b
  {
    var r := FormatTime(a);
    assert ShowsMinutesSeconds(r, a) && ShowsMinutesSeconds(r, b);
  }

  /** A negative count, which the elapsed-time computation yields when this
      browser's clock is behind the clock that stamped the round start,
      renders with a minus sign in both fields: -5 seconds shows as "-1:-5". */
  lemma FormatTimeOfNegative()
    ensures FormatTime(-5) == "-1:-5"
  {
    assert JsMath.FloorDiv(-5, 60) == -1;
    assert JsMath.TruncRem(-5, 60) == -5;
    assert Text.IntToString(-1) == "-1";
    assert Text.IntToString(-5) == "-5";
  }
}
