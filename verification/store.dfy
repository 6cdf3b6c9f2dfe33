/** The client's game store (lib/store/game.store.ts): an immutable record of
    what this browser knows about its room and the Stop game, the reducer
    steps that produce the next record, and the selectors the views read.
    Clock readings and random draws are parameters: `now` stands for
    `Date.now()` and `rnd`, a number in [0, 1), for `Math.random()`. */
module GameStore {
  import opened GameTypes
  import Seqs
  import JsMath

  datatype UiPhase = Home | Lobby | Playing | Finished

  datatype ChatMessage = ChatMessage(playerId: string, username: string, message: string, timestamp: int)

  datatype Store = Store(
    playerId: Option<string>,
    room: Option<RoomInfo>,
    gamePhase: UiPhase,
    stopGameState: Option<StopGameState>,
    currentAnswers: map<string, string>,
    hasSubmitted: bool,
    chatMessages: seq<ChatMessage>)

  /** The store as created: no identity, no room, on the home screen. */
  const INITIAL := Store(None, None, Home, None, map[], false, [])

  /** The chat keeps at most this many messages. */
  const CHAT_LIMIT: nat := 100

  // ---------------------------------------------------------------------------
  // Room player list

  predicate HasPlayer(players: seq<PlayerInfo>, id: string) {
    exists p :: p in players && p.id == id
  }

  /** No two players share an id. */
  ghost predicate UniqueIds(players: seq<PlayerInfo>) {
    forall i, j :: 0 <= i < j < |players| ==> players[i].id != players[j].id
  }

  /** The test `removePlayer` filters with: keep players with another id. */
  function OtherId(id: string): PlayerInfo -> bool {
    (p: PlayerInfo) => p.id != id
  }

  /** `addPlayer`: appends the player unless there is no room or a player with
      the same id is already listed. */
  function AddPlayer(s: Store, player: PlayerInfo): (r: Store)
    ensures r == s.(room := r.room)
    ensures s.room.None? ==> r == s
    ensures s.room.Some? && HasPlayer(s.room.value.players, player.id) ==> r == s
    ensures s.room.Some? && !HasPlayer(s.room.value.players, player.id) ==>
      var old_ := s.room.value.players;
      && r.room.Some?
      && r.room.value.(players := old_) == s.room.value
      && |r.room.value.players| == |old_| + 1
      && r.room.value.players[..|old_|] == old_
      && r.room.value.players[|old_|] == player
  {
    if s.room.None? then s
    else if HasPlayer(s.room.value.players, player.id) then s
    else s.(room := Some(s.room.value.(players := s.room.value.players + [player])))
  }

  /** `removePlayer`: drops every player with the id and keeps the others in
      their order. */
  function RemovePlayer(s: Store, id: string): (r: Store)
    ensures r == s.(room := r.room)
    ensures s.room.None? ==> r == s
    ensures s.room.Some? ==>
      var old_ := s.room.value.players;
      && r.room.Some?
      && r.room.value.(players := old_) == s.room.value
      && !HasPlayer(r.room.value.players, id)
      && (forall p :: p in r.room.value.players <==> p in old_ && p.id != id)
      && |r.room.value.players| <= |old_|
  {
    if s.room.None? then s
    else s.(room := Some(s.room.value.(players := Seqs.Filter(s.room.value.players, OtherId(id)))))
  }

  /** The fields a `Partial<PlayerInfo>` update may carry. */
  datatype PlayerUpdate = PlayerUpdate(
    id: Option<string>,
    username: Option<string>,
    isReady: Option<bool>,
    isHost: Option<bool>)

  /** `{ ...p, ...updates }`: the fields present in the update win. */
  function Merge(p: PlayerInfo, u: PlayerUpdate): (q: PlayerInfo)
    ensures q.id == if u.id.Some? then u.id.value else p.id
    ensures q.username == if u.username.Some? then u.username.value else p.username
    ensures q.isReady == if u.isReady.Some? then u.isReady.value else p.isReady
    ensures q.isHost == if u.isHost.Some? then u.isHost.value else p.isHost
  {
    PlayerInfo(
      if u.id.Some? then u.id.value else p.id,
      if u.username.Some? then u.username.value else p.username,
      if u.isReady.Some? then u.isReady.value else p.isReady,
      if u.isHost.Some? then u.isHost.value else p.isHost)
  }

  /** The update that names no field. */
  const NO_UPDATE := PlayerUpdate(None, None, None, None)

  /** `{ ...u1, ...u2 }`: one update after another, the later field winning. */
  function Then(u1: PlayerUpdate, u2: PlayerUpdate): PlayerUpdate {
    PlayerUpdate(
      if u2.id.Some? then u2.id else u1.id,
      if u2.username.Some? then u2.username else u1.username,
      if u2.isReady.Some? then u2.isReady else u1.isReady,
      if u2.isHost.Some? then u2.isHost else u1.isHost)
  }

  /** The laws of object spread that `updatePlayer` relies on: an empty update
      changes nothing, repeating an update changes nothing more, two updates in
      a row are their combination, and an update without an id keeps the id. */
  lemma MergeLaws(p: PlayerInfo, u: PlayerUpdate, u1: PlayerUpdate, u2: PlayerUpdate)
    ensures Merge(p, NO_UPDATE) == p
    ensures Merge(Merge(p, u), u) == Merge(p, u)
    ensures Merge(Merge(p, u1), u2) == Merge(p, Then(u1, u2))
    ensures u.id.None? ==> Merge(p, u).id == p.id
  {
  }

  /** The `players.map` of `updatePlayer`: merges the update into every player
      with the id and leaves the others as they are. */
  function UpdateMatching(players: seq<PlayerInfo>, id: string, u: PlayerUpdate): (r: seq<PlayerInfo>)
    ensures |r| == |players|
    ensures forall i :: 0 <= i < |r| && players[i].id != id ==> r[i] == players[i]
    ensures forall i :: 0 <= i < |r| && players[i].id == id ==> r[i] == Merge(players[i], u)
  {
    if |players| == 0 then []
    else
      [if players[0].id == id then Merge(players[0], u) else players[0]]
      + UpdateMatching(players[1..], id, u)
  }

  /** `updatePlayer`: the list keeps its length and order; only players with
      the id change, each to the merge of itself with the update. */
  function UpdatePlayer(s: Store, id: string, u: PlayerUpdate): (r: Store)
    ensures r == s.(room := r.room)
    ensures s.room.None? ==> r == s
    ensures s.room.Some? ==>
      var old_ := s.room.value.players;
      && r.room.Some?
      && r.room.value.(players := old_) == s.room.value
      && |r.room.value.players| == |old_|
      && (forall i :: 0 <= i < |old_| && old_[i].id != id ==> r.room.value.players[i] == old_[i])
      && (forall i :: 0 <= i < |old_| && old_[i].id == id ==> r.room.value.players[i] == Merge(old_[i], u))
  {
    if s.room.None? then s
    else s.(room := Some(s.room.value.(players := UpdateMatching(s.room.value.players, id, u))))
  }

  /** Adding a player keeps ids unique. */
  lemma AddPlayerKeepsUniqueIds(s: Store, player: PlayerInfo)
    requires s.room.Some? && UniqueIds(s.room.value.players)
    ensures AddPlayer(s, player).room.Some?
    ensures UniqueIds(AddPlayer(s, player).room.value.players)
  {
    var ps := s.room.value.players;
    if !HasPlayer(ps, player.id) {
      var qs := AddPlayer(s, player).room.value.players;
      forall i, j | 0 <= i < j < |qs| ensures qs[i].id != qs[j].id {
        if j == |ps| {
          assert qs[i] == ps[i];
          assert ps[i] in ps;
        } else {
          assert qs[i] == ps[i] && qs[j] == ps[j];
        }
      }
    }
  }

  /** Adding the same player twice is adding it once. */
  lemma AddPlayerIdempotent(s: Store, player: PlayerInfo)
    ensures AddPlayer(AddPlayer(s, player), player) == AddPlayer(s, player)
  {
    var t := AddPlayer(s, player);
    if s.room.Some? && !HasPlayer(s.room.value.players, player.id) {
      var qs := t.room.value.players;
      assert qs[|qs| - 1] in qs;
    }
  }

  /** Removing a player that was just added restores the list. */
  lemma RemoveUndoesAdd(s: Store, player: PlayerInfo)
    requires s.room.Some? && !HasPlayer(s.room.value.players, player.id)
    ensures RemovePlayer(AddPlayer(s, player), player.id) == s
  {
    var ps := s.room.value.players;
    var keep := OtherId(player.id);
    var t := AddPlayer(s, player);
    assert t.room.value.players == ps + [player];
    forall i | 0 <= i < |ps| ensures keep(ps[i]) {
      assert ps[i] in ps;
    }
    Seqs.FilterAppend(ps, [player], keep);
    Seqs.FilterKeepsAll(ps, keep);
    assert Seqs.Filter([player], keep) == [];
    assert Seqs.Filter(ps + [player], keep) == ps;
    assert RemovePlayer(t, player.id).room.value == t.room.value.(players := ps);
  }

  /** Removing from a list made of two parts removes from each part: the
      surviving players keep their relative order. */
  lemma RemovePlayerKeepsOrder(s: Store, id: string, front: seq<PlayerInfo>, back: seq<PlayerInfo>)
    requires s.room.Some? && s.room.value.players == front + back
    ensures RemovePlayer(s, id).room.value.players
      == Seqs.Filter(front, OtherId(id)) + Seqs.Filter(back, OtherId(id))
  {
    Seqs.FilterAppend(front, back, OtherId(id));
  }

  /** Removing the same id twice is removing it once. */
  lemma RemovePlayerIdempotent(s: Store, id: string)
    ensures RemovePlayer(RemovePlayer(s, id), id) == RemovePlayer(s, id)
  {
    if s.room.Some? {
      Seqs.FilterIdempotent(s.room.value.players, OtherId(id));
    }
  }

  /** Removing a player keeps ids unique. */
  lemma RemovePlayerKeepsUniqueIds(s: Store, id: string)
    requires s.room.Some? && UniqueIds(s.room.value.players)
    ensures UniqueIds(RemovePlayer(s, id).room.value.players)
  {
    UniqueIdsFilter(s.room.value.players, OtherId(id));
  }

  lemma {:induction false} UniqueIdsFilter(ps: seq<PlayerInfo>, keep: PlayerInfo -> bool)
    requires UniqueIds(ps)
    ensures UniqueIds(Seqs.Filter(ps, keep))
  {
    if |ps| > 0 {
      var tail := ps[1..];
      assert UniqueIds(tail) by {
        forall i, j | 0 <= i < j < |tail| ensures tail[i].id != tail[j].id {
          assert tail[i] == ps[i + 1] && tail[j] == ps[j + 1];
        }
      }
      UniqueIdsFilter(tail, keep);
      var rest := Seqs.Filter(tail, keep);
      if keep(ps[0]) {
        var r := [ps[0]] + rest;
        forall i, j | 0 <= i < j < |r| ensures r[i].id != r[j].id {
          if i == 0 {
            assert r[j] == rest[j - 1];
            assert rest[j - 1] in tail;
            var k :| 0 <= k < |tail| && tail[k] == rest[j - 1];
            assert tail[k] == ps[k + 1];
          } else {
            assert r[i] == rest[i - 1] && r[j] == rest[j - 1];
          }
        }
      }
    }
  }

  /** Updating an id nobody has changes nothing. */
  lemma UpdateAbsentPlayer(s: Store, id: string, u: PlayerUpdate)
    requires s.room.Some? ==> !HasPlayer(s.room.value.players, id)
    ensures UpdatePlayer(s, id, u) == s
  {
    if s.room.Some? {
      var ps := s.room.value.players;
      var qs := UpdatePlayer(s, id, u).room.value.players;
      forall i | 0 <= i < |ps| ensures qs[i] == ps[i] {
        assert ps[i] in ps;
      }
      assert qs == ps;
      assert UpdatePlayer(s, id, u).room.value == s.room.value;
    }
  }

  /** An update that does not rename keeps ids unique. */
  lemma UpdatePlayerKeepsUniqueIds(s: Store, id: string, u: PlayerUpdate)
    requires s.room.Some? && UniqueIds(s.room.value.players) && u.id.None?
    ensures UniqueIds(UpdatePlayer(s, id, u).room.value.players)
  {
    var ps := s.room.value.players;
    var qs := UpdatePlayer(s, id, u).room.value.players;
    forall i | 0 <= i < |ps| ensures qs[i].id == ps[i].id {
    }
  }

  // ---------------------------------------------------------------------------
  // Chat

  /** `[...chat.slice(-99), message]`: the newest 99 old messages followed
      by the new one, that is, the newest 100 messages overall. */
  function AppendBounded(chat: seq<ChatMessage>, m: ChatMessage): (r: seq<ChatMessage>)
    ensures |r| == if |chat| < CHAT_LIMIT then |chat| + 1 else CHAT_LIMIT
    ensures r[|r| - 1] == m
    ensures r == Seqs.Last(chat + [m], CHAT_LIMIT)
  {
    var kept := Seqs.SliceFrom(chat, -(CHAT_LIMIT as int - 1));
    Seqs.SliceFromNegative(chat, CHAT_LIMIT - 1);
    var all := chat + [m];
    assert kept + [m] == all[|all| - |kept| - 1..];
    kept + [m]
  }

  /** `addChatMessage`: only the chat changes; it holds at most 100
      messages, the new one last. */
  function AddChatMessage(s: Store, m: ChatMessage): (r: Store)
    ensures r == s.(chatMessages := r.chatMessages)
    ensures |r.chatMessages| <= CHAT_LIMIT
    ensures |r.chatMessages| == if |s.chatMessages| < CHAT_LIMIT then |s.chatMessages| + 1 else CHAT_LIMIT
    ensures r.chatMessages[|r.chatMessages| - 1] == m
    ensures var all := s.chatMessages + [m];
      r.chatMessages == all[|all| - |r.chatMessages|..]
  {
    s.(chatMessages := AppendBounded(s.chatMessages, m))
  }

  /** Below the limit no message is lost. */
  lemma ChatKeepsEverythingBelowLimit(s: Store, m: ChatMessage)
    requires |s.chatMessages| < CHAT_LIMIT
    ensures AddChatMessage(s, m).chatMessages == s.chatMessages + [m]
  {
  }

  /** Messages added one at a time, in order. */
  function AppendAll(chat: seq<ChatMessage>, ms: seq<ChatMessage>): seq<ChatMessage>
    decreases |ms|
  {
    if |ms| == 0 then chat else AppendAll(AppendBounded(chat, ms[0]), ms[1..])
  }

  /** From a buffer within the limit, adding any run of messages leaves
      exactly the newest 100 of all messages, oldest first. */
  lemma {:induction false} ChatKeepsNewestSuffix(chat: seq<ChatMessage>, ms: seq<ChatMessage>)
    requires |chat| <= CHAT_LIMIT
    ensures AppendAll(chat, ms) == Seqs.Last(chat + ms, CHAT_LIMIT)
    decreases |ms|
  {
    if |ms| > 0 {
      var t := AppendBounded(chat, ms[0]);
      ChatKeepsNewestSuffix(t, ms[1..]);
      Seqs.LastAppend(chat + [ms[0]], ms[1..], CHAT_LIMIT);
      Seqs.AppendHeadThenTail(chat, ms);
    } else {
      assert chat + ms == chat;
    }
  }

  // ---------------------------------------------------------------------------
  // Game actions relayed by the server

  /** The fields that no game action touches: the game's configuration and
      the running scores. */
  ghost predicate SameConfig(g: StopGameState, g': StopGameState) {
    && g'.categories == g.categories
    && g'.totalRounds == g.totalRounds
    && g'.scores == g.scores
  }

  /** `START_ROUND`: the round becomes active with the payload's letter and
      start time; the local answers are cleared. The round number, the
      answers already recorded and who stopped are left as they were. */
  function ApplyStartRound(s: Store, d: ActionPayload): (r: Store)
    ensures r == s.(stopGameState := r.stopGameState, currentAnswers := map[], hasSubmitted := false)
    ensures r.stopGameState.Some? <==> s.stopGameState.Some?
    ensures s.stopGameState.Some? ==>
      var g := s.stopGameState.value;
      var g' := r.stopGameState.value;
      && g'.currentLetter == d.letter
      && g'.roundStartTime == d.roundStartTime
      && g'.phase == RoundActive
      && g'.(currentLetter := g.currentLetter, roundStartTime := g.roundStartTime, phase := g.phase) == g
  {
    var next :=
      if s.stopGameState.None? then None
      else Some(s.stopGameState.value.(
        currentLetter := d.letter,
        roundStartTime := d.roundStartTime,
        phase := RoundActive));
    s.(stopGameState := next, currentAnswers := map[], hasSubmitted := false)
  }

  /** `STOP`: the round is stopped by the payload's player at `now`. A later
      `STOP` replaces an earlier one's `stoppedBy`. Nothing else changes. */
  function ApplyStop(s: Store, d: ActionPayload, now: int): (r: Store)
    ensures r == s.(stopGameState := r.stopGameState)
    ensures r.stopGameState.Some? <==> s.stopGameState.Some?
    ensures s.stopGameState.Some? ==>
      var g := s.stopGameState.value;
      var g' := r.stopGameState.value;
      && g'.phase == Stopped
      && g'.stoppedBy == Some(d.stoppedBy)
      && g'.roundEndTime == Some(now)
      && g'.(phase := g.phase, stoppedBy := g.stoppedBy, roundEndTime := g.roundEndTime) == g
  {
    if s.stopGameState.None? then s
    else s.(stopGameState := Some(s.stopGameState.value.(
      phase := Stopped,
      stoppedBy := Some(d.stoppedBy),
      roundEndTime := Some(now))))
  }

  /** `SUBMIT_ANSWERS`: records the payload's answers under the submitting
      player's id, replacing an earlier entry of that player; every other
      player's entry stays as it was. Nothing else changes. */
  function ApplySubmitAnswers(s: Store, d: ActionPayload, now: int): (r: Store)
    ensures r == s.(stopGameState := r.stopGameState)
    ensures s.stopGameState.None? ==> r == s
    ensures r.stopGameState.Some? <==> s.stopGameState.Some?
    ensures s.stopGameState.Some? ==>
      var g := s.stopGameState.value;
      var g' := r.stopGameState.value;
      && g'.(playerAnswers := g.playerAnswers) == g
      && g'.playerAnswers.Keys == g.playerAnswers.Keys + {d.playerId}
      && g'.playerAnswers[d.playerId] == PlayerAnswers(d.playerId, d.answers, Some(now))
      && (forall k :: k in g.playerAnswers && k != d.playerId ==> g'.playerAnswers[k] == g.playerAnswers[k])
  {
    if s.stopGameState.None? then s
    else
      var g := s.stopGameState.value;
      var entry := PlayerAnswers(d.playerId, d.answers, Some(now));
      s.(stopGameState := Some(g.(playerAnswers := g.playerAnswers[d.playerId := entry])))
  }

  /** The game as a new round begins: the given round number and letter,
      started at `now`, no answers, no stopper and no end time yet. The
      configuration and scores carry over. */
  function FreshRound(g: StopGameState, round: int, letter: string, now: int): (g': StopGameState)
    ensures g'.currentRound == round && g'.currentLetter == letter
    ensures g'.roundStartTime == now && g'.phase == RoundActive
    ensures g'.playerAnswers == map[]
    ensures g'.stoppedBy.None? && g'.roundEndTime.None?
    ensures SameConfig(g, g')
  {
    g.(currentRound := round, currentLetter := letter, roundStartTime := now, phase := RoundActive,
       playerAnswers := map[], stoppedBy := None, roundEndTime := None)
  }

  /** `NEXT_ROUND`: a fresh active round with the payload's number and letter,
      started at `now`: no answers, no stopper, no end time; local answers
      cleared. Categories, round limit and scores are kept. */
  function ApplyNextRound(s: Store, d: ActionPayload, now: int): (r: Store)
    ensures r == s.(stopGameState := r.stopGameState, currentAnswers := map[], hasSubmitted := false)
    ensures r.stopGameState.Some? <==> s.stopGameState.Some?
    ensures s.stopGameState.Some? ==>
      var g := s.stopGameState.value;
      var g' := r.stopGameState.value;
      && g'.currentRound == d.round
      && g'.currentLetter == d.letter
      && g'.roundStartTime == now
      && g'.phase == RoundActive
      && g'.playerAnswers == map[]
      && g'.stoppedBy.None? && g'.roundEndTime.None?
      && SameConfig(g, g')
  {
    var next :=
      if s.stopGameState.None? then None
      else Some(FreshRound(s.stopGameState.value, d.round, d.letter, now));
    s.(stopGameState := next, currentAnswers := map[], hasSubmitted := false)
  }

  /** True iff the store reacts to actions with this name. */
  predicate IsHandledAction(action: string) {
    action == START_ROUND || action == STOP || action == SUBMIT_ANSWERS || action == NEXT_ROUND
  }

  /** `handleGameAction`: dispatches on the action name; any other name
      (including `SET_CATEGORIES` and `VOTE_ANSWER`) leaves the store as it is.
      No action creates a game that is not there, touches the room, the chat or
      the player's identity, or changes the game's configuration or scores. */
  function HandleGameAction(s: Store, ev: GameActionReceivedEvent, now: int): (r: Store)
    ensures !IsHandledAction(ev.action) ==> r == s
    ensures r.stopGameState.Some? <==> s.stopGameState.Some?
    ensures r.playerId == s.playerId && r.room == s.room
    ensures r.gamePhase == s.gamePhase && r.chatMessages == s.chatMessages
    ensures s.stopGameState.Some? ==> SameConfig(s.stopGameState.value, r.stopGameState.value)
    ensures s.stopGameState.Some? && ev.action == START_ROUND ==>
      r.stopGameState.value.currentRound == s.stopGameState.value.currentRound
    ensures s.stopGameState.Some? && IsHandledAction(ev.action) ==>
      r.stopGameState.value.phase ==
        if ev.action == STOP then Stopped
        else if ev.action == SUBMIT_ANSWERS then s.stopGameState.value.phase
        else RoundActive
  {
    if ev.action == START_ROUND then ApplyStartRound(s, ev.payload)
    else if ev.action == STOP then ApplyStop(s, ev.payload, now)
    else if ev.action == SUBMIT_ANSWERS then ApplySubmitAnswers(s, ev.payload, now)
    else if ev.action == NEXT_ROUND then ApplyNextRound(s, ev.payload, now)
    else s
  }

  /** A second submission by the same player replaces the first: the store
      keeps the last answers it was sent. */
  lemma SubmitLastWins(s: Store, d1: ActionPayload, d2: ActionPayload, t1: int, t2: int)
    requires s.stopGameState.Some? && d1.playerId == d2.playerId
    ensures var r := ApplySubmitAnswers(ApplySubmitAnswers(s, d1, t1), d2, t2);
      && r.stopGameState.value.playerAnswers[d2.playerId].answers == d2.answers
      && r == ApplySubmitAnswers(s, d2, t2)
  {
    var g := s.stopGameState.value;
    var e2 := PlayerAnswers(d2.playerId, d2.answers, Some(t2));
    var e1 := PlayerAnswers(d1.playerId, d1.answers, Some(t1));
    assert g.playerAnswers[d1.playerId := e1][d2.playerId := e2] == g.playerAnswers[d2.playerId := e2];
  }

  /** Submissions of different players do not interfere: both are recorded,
      whatever order they arrive in. */
  lemma SubmissionsCommute(s: Store, d1: ActionPayload, d2: ActionPayload, now: int)
    requires s.stopGameState.Some? && d1.playerId != d2.playerId
    ensures var r := ApplySubmitAnswers(ApplySubmitAnswers(s, d1, now), d2, now);
      && r == ApplySubmitAnswers(ApplySubmitAnswers(s, d2, now), d1, now)
      && r.stopGameState.value.playerAnswers[d1.playerId].answers == d1.answers
      && r.stopGameState.value.playerAnswers[d2.playerId].answers == d2.answers
  {
    var pa := s.stopGameState.value.playerAnswers;
    var e1 := PlayerAnswers(d1.playerId, d1.answers, Some(now));
    var e2 := PlayerAnswers(d2.playerId, d2.answers, Some(now));
    assert pa[d1.playerId := e1][d2.playerId := e2] == pa[d2.playerId := e2][d1.playerId := e1];
  }

  /** A later `STOP` overrides an earlier one: the round records the last
      stopper and the last end time. */
  lemma StopLastWins(s: Store, d1: ActionPayload, d2: ActionPayload, t1: int, t2: int)
    requires s.stopGameState.Some?
    ensures ApplyStop(ApplyStop(s, d1, t1), d2, t2) == ApplyStop(s, d2, t2)
    ensures ApplyStop(ApplyStop(s, d1, t1), d2, t2).stopGameState.value.stoppedBy == Some(d2.stoppedBy)
  {
  }

  /** What `NEXT_ROUND` produces depends only on the payload, the time and the
      game's configuration: nothing of the previous round survives it. */
  lemma NextRoundForgetsPreviousRound(s1: Store, s2: Store, d: ActionPayload, now: int)
    requires s1.stopGameState.Some? && s2.stopGameState.Some?
    requires SameConfig(s1.stopGameState.value, s2.stopGameState.value)
    ensures ApplyNextRound(s1, d, now).stopGameState == ApplyNextRound(s2, d, now).stopGameState
  {
  }

  // ---------------------------------------------------------------------------
  // Local game operations

  /** `stopRound`: the local form of `STOP`. */
  function StopRound(s: Store, stoppedBy: string, now: int): (r: Store)
    ensures r == s.(stopGameState := r.stopGameState)
    ensures r.stopGameState.Some? <==> s.stopGameState.Some?
    ensures s.stopGameState.Some? ==>
      && r.stopGameState.value.phase == Stopped
      && r.stopGameState.value.stoppedBy == Some(stoppedBy)
      && r.stopGameState.value.roundEndTime == Some(now)
  {
    if s.stopGameState.None? then s
    else s.(stopGameState := Some(s.stopGameState.value.(
      phase := Stopped,
      stoppedBy := Some(stoppedBy),
      roundEndTime := Some(now))))
  }

  /** Stopping locally and receiving the relayed `STOP` lead to the same store. */
  lemma StopRoundAgreesWithStopAction(s: Store, ev: GameActionReceivedEvent, now: int)
    requires ev.action == STOP
    ensures StopRound(s, ev.payload.stoppedBy, now) == HandleGameAction(s, ev, now)
  {
  }

  /** The scores `initStopGame` sets up: 0 for every listed player. */
  function ZeroScores(players: seq<PlayerInfo>): (m: map<string, int>)
    ensures m.Keys == set p | p in players :: p.id
    ensures forall k :: k in m ==> m[k] == 0
  {
    if |players| == 0 then map[]
    else
      var last := players[|players| - 1];
      var front := players[..|players| - 1];
      assert players == front + [last];
      ZeroScores(front)[last.id := 0]
  }

  /** `initStopGame`: an idle game before its first round with the given
      categories and round limit, no answers, and score 0 for every player in
      the room (none without a room). It becomes the store's game and is
      returned. */
  function InitStopGame(s: Store, categories: seq<string>, totalRounds: int): (r: (Store, StopGameState))
    ensures r.0 == s.(stopGameState := Some(r.1))
    ensures r.1.phase == Idle && r.1.currentRound == 0
    ensures r.1.categories == categories && r.1.totalRounds == totalRounds
    ensures r.1.currentLetter == "" && r.1.roundStartTime == 0
    ensures r.1.playerAnswers == map[]
    ensures r.1.stoppedBy.None? && r.1.roundEndTime.None?
    ensures s.room.None? ==> r.1.scores == map[]
    ensures s.room.Some? ==> r.1.scores.Keys == set p | p in s.room.value.players :: p.id
    ensures forall k :: k in r.1.scores ==> r.1.scores[k] == 0
  {
    var scores := if s.room.Some? then ZeroScores(s.room.value.players) else map[];
    var g := StopGameState("", 0, totalRounds, categories, 0, None, map[], scores, Idle, None);
    (s.(stopGameState := Some(g)), g)
  }

  /** The letters of the alphabet not in `used`, in alphabet order. */
  function Available(used: seq<string>): (r: string)
    ensures forall c :: c in r <==> c in ALPHABET && [c] !in used
  {
    Seqs.Filter(ALPHABET, (c: char) => [c] !in used)
  }

  /** `getRandomLetter`: a one-letter string drawn from the letters not yet
      used, or from the whole alphabet once every letter has been used. */
  function GetRandomLetter(used: seq<string>, rnd: real): (r: string)
    requires 0.0 <= rnd < 1.0
    ensures |r| == 1 && InAlphabet(r[0])
    ensures |Available(used)| > 0 ==> r !in used
  {
    var available := Available(used);
    if |available| == 0 then [ALPHABET[JsMath.RandomIndex(rnd, |ALPHABET|)]]
    else
      var c := available[JsMath.RandomIndex(rnd, |available|)];
      assert c in available;
      [c]
  }

  /** Every letter still available can be drawn: the draw `i / n` picks the
      `i`-th of the `n` available letters. */
  lemma EveryAvailableLetterCanBeDrawn(used: seq<string>, i: nat)
    requires i < |Available(used)|
    ensures var rnd := i as real / |Available(used)| as real;
      0.0 <= rnd < 1.0 && GetRandomLetter(used, rnd) == [Available(used)[i]]
  {
    JsMath.RandomIndexReaches(i, |Available(used)|);
  }

  /** `startNewRound`: with a game present, the next round begins at once:
      round number one higher, a fresh letter, no answers, no stopper, local
      answers cleared. The game is returned; without one nothing changes. */
  function StartNewRound(s: Store, now: int, rnd: real): (r: (Store, Option<StopGameState>))
    requires 0.0 <= rnd < 1.0
    ensures s.stopGameState.None? ==> r == (s, None)
    ensures s.stopGameState.Some? ==> r.1.Some?
    ensures s.stopGameState.Some? ==>
      var g := s.stopGameState.value;
      var g' := r.1.value;
      && g'.currentRound == g.currentRound + 1
      && |g'.currentLetter| == 1 && InAlphabet(g'.currentLetter[0])
      && g'.roundStartTime == now
      && g'.phase == RoundActive
      && g'.playerAnswers == map[]
      && g'.stoppedBy.None? && g'.roundEndTime.None?
      && SameConfig(g, g')
    ensures s.stopGameState.Some? ==>
      r.0 == s.(stopGameState := r.1, currentAnswers := map[], hasSubmitted := false)
  {
    if s.stopGameState.None? then (s, None)
    else
      var g := s.stopGameState.value;
      var letter := GetRandomLetter([], rnd);
      var g' := FreshRound(g, g.currentRound + 1, letter, now);
      (s.(stopGameState := Some(g'), currentAnswers := map[], hasSubmitted := false), Some(g'))
  }

  /** Starting a round locally has the same effect as receiving `NEXT_ROUND`
      for the following round number with the letter drawn. */
  lemma StartNewRoundAgreesWithNextRound(s: Store, now: int, rnd: real)
    requires 0.0 <= rnd < 1.0 && s.stopGameState.Some?
    ensures var g := s.stopGameState.value;
      var d := EMPTY_PAYLOAD.(round := g.currentRound + 1, letter := GetRandomLetter([], rnd));
      StartNewRound(s, now, rnd).0 == HandleGameAction(s, GameActionReceivedEvent("", NEXT_ROUND, d, now), now)
  {
  }

  /** `reset`: back to the initial store, keeping only the player's identity. */
  function Reset(s: Store): (r: Store)
    ensures r.playerId == s.playerId
    ensures r.room.None? && r.stopGameState.None? && r.gamePhase == Home
    ensures r.currentAnswers == map[] && !r.hasSubmitted && r.chatMessages == []
  {
    INITIAL.(playerId := s.playerId)
  }

  /** Two stores that differ in anything but the identity reset to the same
      store; so resetting twice is resetting once. */
  lemma ResetForgetsAllButIdentity(s1: Store, s2: Store)
    requires s1.playerId == s2.playerId
    ensures Reset(s1) == Reset(s2)
    ensures Reset(Reset(s1)) == Reset(s1)
  {
  }

  /** `submitAnswers`: marks the player's answers as sent; marking twice is
      marking once. */
  function MarkSubmitted(s: Store): (r: Store)
    ensures r.hasSubmitted && r.(hasSubmitted := s.hasSubmitted) == s
  {
    s.(hasSubmitted := true)
  }

  // ---------------------------------------------------------------------------
  // Selectors

  /** `selectIsHost`: the room's host id is this player's id. With no room or
      no id the answer is false. */
  function IsHost(s: Store): (r: bool)
    ensures r <==> s.room.Some? && s.playerId == Some(s.room.value.hostId)
  {
    s.room.Some? && s.playerId.Some? && s.room.value.hostId == s.playerId.value
  }

  /** Who is host depends only on the room's host id and this player's id:
      editing the player list, chatting and every relayed game action leave
      it as it was. */
  lemma HostUnaffectedByPlayersChatAndActions(s: Store, p: PlayerInfo, id: string, u: PlayerUpdate,
                                              m: ChatMessage, ev: GameActionReceivedEvent, now: int)
    ensures IsHost(AddPlayer(s, p)) == IsHost(s)
    ensures IsHost(RemovePlayer(s, id)) == IsHost(s)
    ensures IsHost(UpdatePlayer(s, id, u)) == IsHost(s)
    ensures IsHost(AddChatMessage(s, m)) == IsHost(s)
    ensures IsHost(HandleGameAction(s, ev, now)) == IsHost(s)
  {
  }

  /** `selectAllPlayersReady`: a room of at least two players whose players
      not flagged host are all ready. */
  function AllPlayersReady(s: Store): (r: bool)
    ensures r <==>
      && s.room.Some?
      && |s.room.value.players| >= 2
      && forall p :: p in s.room.value.players && !p.isHost ==> p.isReady
  {
    if s.room.None? || |s.room.value.players| < 2 then false
    else
      var guests := Seqs.Filter(s.room.value.players, (p: PlayerInfo) => !p.isHost);
      forall p :: p in guests ==> p.isReady
  }

  /** `selectCanStartGame`: the caller is the host, there are at least two
      players, and every player not flagged host is ready. */
  function CanStartGame(s: Store): (r: bool)
    ensures r <==>
      && s.room.Some? && s.playerId == Some(s.room.value.hostId)
      && |s.room.value.players| >= 2
      && forall p :: p in s.room.value.players && !p.isHost ==> p.isReady
  {
    IsHost(s) && AllPlayersReady(s) && (if s.room.Some? then |s.room.value.players| else 0) >= 2
  }

  /** The player-count test of `selectCanStartGame` adds nothing to
      `selectAllPlayersReady`'s. */
  lemma CanStartGameIsHostAndAllReady(s: Store)
    ensures CanStartGame(s) <==> IsHost(s) && AllPlayersReady(s)
  {
  }

  /** Marking the last unready guest ready lets the host start: a ready update
      on one player never makes `AllPlayersReady` false. */
  lemma ReadyUpdateKeepsAllReady(s: Store, id: string)
    requires AllPlayersReady(s)
    ensures AllPlayersReady(UpdatePlayer(s, id, PlayerUpdate(None, None, Some(true), None)))
  {
    var u := PlayerUpdate(None, None, Some(true), None);
    var ps := s.room.value.players;
    var qs := UpdatePlayer(s, id, u).room.value.players;
    forall p | p in qs && !p.isHost ensures p.isReady {
      var i :| 0 <= i < |qs| && qs[i] == p;
      assert ps[i] in ps;
    }
  }
}
