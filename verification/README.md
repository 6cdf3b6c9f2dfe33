# Stop! (Tutti Frutti) client state model

This project models the state logic of the browser client for a multiplayer
"Stop!" word game. Players gather in a room. The host configures categories
and a number of rounds. In each round everyone writes a word per category
starting with the round's letter. Anyone may shout STOP, and the host moves
on to the next round. The server owns rooms and the authoritative game; the
client keeps a replica in a store and changes it only in response to relayed
events and its own buttons. The model covers that replica and the controls
that drive it:

- `GameStore` (store.dfy) is the store as an immutable record with pure
  transition functions. It covers room player-list edits, the bounded chat
  buffer, the reducer for relayed game actions (`START_ROUND`, `STOP`,
  `SUBMIT_ANSWERS`, `NEXT_ROUND`), game initialisation, local round start
  and stop, letter selection that avoids used letters, reset, and the host,
  ready and can-start selectors.
- `GameSettings` (settings.dfy) is the host's settings panel. It is a
  category list that never holds duplicates, plus a round count kept in 1–10,
  three quick sets, and a start request that needs at least 3 categories.
- `StopGameBoard` (board.dfy) holds what the board's buttons send: host-only
  start and next round with their round-number guards, stop, and
  submit-once. It also holds the `m:ss` rendering of elapsed time.
- `RoundFlow` (roundflow.dfy) runs the host's clicks, and the actions the
  server relays back, through the board and the store. It exhibits the
  extra-round defect described under Findings and proves the corrected
  handler keeps the number of rounds within the limit.
- `GameTypes`, `Seqs`, `Text` and `JsMath` hold the shared shapes and
  constants. They also hold the JavaScript semantics the code relies on:
  `filter`, `slice(-n)`, `trim`, `Number#toString`, `padStart`,
  `Math.floor(Math.random() * n)`, and `%` truncating toward zero.

`Date.now()` is a parameter `now`. `Math.random()` is a parameter `rnd` with
`0 <= rnd < 1`. The `unknown` payload of a game action is the record
`ActionPayload`, which has a field for everything any handler reads.

The store is modelled as written. A later `STOP` overwrites `stoppedBy`
(`GameStore.StopLastWins`). A second `SUBMIT_ANSWERS` from the same player
overwrites the first (`GameStore.SubmitLastWins`). `START_ROUND` leaves
`currentRound` alone. The board's letter pool omits Q while `ALPHABET` has
it. An unrecognised action name is ignored, not rejected. The client does
not keep the first stopper, does not refuse a second submission, and does
not reject unknown actions; whatever of that the game needs is left to the
server.

## Model

| member | source | states |
|---|---|---|
| `GameTypes.AlphabetIsCapitalLetters` | lib/types/game.types.ts:208 | `ALPHABET` is the 26 letters A–Z, each once. |
| `GameTypes.DefaultCategoriesDistinct` | lib/types/game.types.ts:197-206 | The default category list has 8 distinct entries. |
| `GameStore.AddPlayer` | lib/store/game.store.ts:103-114 | With no room, or when a player with the same id is listed, the store is unchanged. Otherwise the list grows by one, keeps every earlier player in place, ends with the new player, and nothing outside the player list changes. |
| `GameStore.AddPlayerKeepsUniqueIds` | lib/store/game.store.ts:103-114 | Adding keeps player ids unique. |
| `GameStore.AddPlayerIdempotent` | lib/store/game.store.ts:106-107 | Adding the same player twice equals adding it once. |
| `GameStore.RemovePlayer` | lib/store/game.store.ts:116-125 | Afterwards no player has the id. A player is kept iff it was listed and has another id. Other room fields are unchanged, and with no room nothing changes. |
| `GameStore.RemoveUndoesAdd` | lib/store/game.store.ts:103-125 | Removing a player that was just added (id previously absent) restores the store exactly. |
| `GameStore.RemovePlayerKeepsOrder` | lib/store/game.store.ts:122 | Removal on a list split in two is removal on each part, concatenated, so survivors keep their relative order. |
| `GameStore.RemovePlayerIdempotent` | lib/store/game.store.ts:116-125 | Removing an id twice equals removing it once. |
| `GameStore.RemovePlayerKeepsUniqueIds` | lib/store/game.store.ts:116-125 | Removal keeps player ids unique. |
| `GameStore.MergeLaws` | lib/store/game.store.ts:134 | The `{ ...p, ...updates }` merge: an update with no fields leaves the player as it was, applying an update twice equals applying it once, two updates in a row equal their combination with the later field winning, and an update without an id keeps the id. |
| `GameStore.UpdateMatching` | lib/store/game.store.ts:133-135 | The list keeps its length. A player with another id is unchanged. A player with the id becomes its merge with the update. |
| `GameStore.UpdatePlayer` | lib/store/game.store.ts:127-138 | Same length and order. Only entries whose id matches change, each to its merge with the update. With no room nothing changes. |
| `GameStore.UpdateAbsentPlayer` | lib/store/game.store.ts:127-138 | Updating an id that no player has changes nothing. |
| `GameStore.UpdatePlayerKeepsUniqueIds` | lib/store/game.store.ts:127-138 | An update that does not rename keeps ids unique. |
| `GameStore.AppendBounded` | lib/store/game.store.ts:151 | The result has `min(n + 1, 100)` messages. It is the newest 99 old messages followed by the new one, that is, the newest 100 messages overall, so the new message is last. |
| `GameStore.AddChatMessage` | lib/store/game.store.ts:149-152 | At most 100 messages, the new one last, only the oldest dropped. Nothing else in the store changes. |
| `GameStore.ChatKeepsEverythingBelowLimit` | lib/store/game.store.ts:149-152 | Below 100 messages no message is dropped. |
| `GameStore.ChatKeepsNewestSuffix` | lib/store/game.store.ts:149-152 | After any run of messages, the chat is exactly the newest `min(total, 100)` messages, in order. |
| `GameStore.ApplyStartRound` | lib/store/game.store.ts:158-173 | Sets letter, start time and `ROUND_ACTIVE`; every other game field, including `currentRound`, categories and `totalRounds`, is unchanged. Local answers and `hasSubmitted` are reset even without a game, and a null game stays null. |
| `GameStore.ApplyStop` | lib/store/game.store.ts:175-188 | Sets phase `STOPPED`, `stoppedBy` and the end time. No other game field and nothing else in the store changes, and a null game stays null. |
| `GameStore.ApplySubmitAnswers` | lib/store/game.store.ts:190-208 | Sets the submitter's entry, overwriting an earlier one. The key set gains only the submitter, other entries and game fields are unchanged, and with no game nothing changes. |
| `GameStore.ApplyNextRound` | lib/store/game.store.ts:210-229 | Round and letter come from the payload, start time is now and phase is `ROUND_ACTIVE`. Answers are emptied, `stoppedBy` and end time cleared, and local answers reset. Categories, `totalRounds` and scores are kept. |
| `GameStore.HandleGameAction` | lib/store/game.store.ts:154-234 | An unrecognised name changes nothing. A null game stays null and a present one stays present. No action touches room, chat, identity, categories, `totalRounds` or scores. `START_ROUND` keeps `currentRound`. The phase afterwards is fixed by the action. |
| `GameStore.SubmitLastWins` | lib/store/game.store.ts:194-199 | Two submissions by one player equal the second alone, so the later answers are kept. |
| `GameStore.SubmissionsCommute` | lib/store/game.store.ts:194-199 | Submissions of different players commute, and both are recorded. |
| `GameStore.StopLastWins` | lib/store/game.store.ts:175-188 | Two `STOP`s equal the second alone, so the later stopper is recorded. |
| `GameStore.NextRoundForgetsPreviousRound` | lib/store/game.store.ts:210-229 | The game after `NEXT_ROUND` depends only on payload, time and configuration. Nothing of the previous round survives. |
| `GameStore.StopRound` | lib/store/game.store.ts:302-313 | Phase `STOPPED`, the stopper and the end time are recorded. Nothing outside the game changes. |
| `GameStore.StopRoundAgreesWithStopAction` | lib/store/game.store.ts:302-313 | Local `stopRound` and a relayed `STOP` with the same stopper and time give the same store. |
| `GameStore.ZeroScores` | lib/store/game.store.ts:262-268 | Keys are exactly the players' ids, and every score is 0. |
| `GameStore.InitStopGame` | lib/store/game.store.ts:250-272 | The game is `IDLE`, round 0, with the given categories and `totalRounds` and empty answers. Every room player scores 0, with empty scores if there is no room. It is installed in the store and returned. |
| `GameStore.Available` | lib/store/game.store.ts:78 | A letter is available iff it is in `ALPHABET` and not among the used letters. |
| `GameStore.GetRandomLetter` | lib/store/game.store.ts:77-81 | Returns a one-letter string from `ALPHABET`, not among the used letters whenever one is left. |
| `GameStore.EveryAvailableLetterCanBeDrawn` | lib/store/game.store.ts:80 | Every available letter is returned for some draw in [0, 1). |
| `GameStore.StartNewRound` | lib/store/game.store.ts:274-300 | With no game, nothing changes and null is returned. Otherwise the round goes up by one, with an `ALPHABET` letter, `ROUND_ACTIVE`, no answers, no stopper and local answers reset. Configuration is kept. |
| `GameStore.StartNewRoundAgreesWithNextRound` | lib/store/game.store.ts:274-300 | A local round start equals receiving `NEXT_ROUND` for round `currentRound + 1` with the same letter and time. |
| `GameStore.Reset` | lib/store/game.store.ts:315-323 | No room, no game, home screen, empty answers and chat, not submitted. The player id is kept. |
| `GameStore.ResetForgetsAllButIdentity` | lib/store/game.store.ts:315-323 | Stores with the same id reset to the same store, so reset is idempotent. |
| `GameStore.IsHost` | lib/store/game.store.ts:330-331 | True iff there is a room and this player's id equals the room's host id; with no room or no id it is false. |
| `GameStore.HostUnaffectedByPlayersChatAndActions` | lib/store/game.store.ts:330-331 | Adding, removing or updating players, adding a chat message and every relayed game action leave the host test as it was. |
| `GameStore.AllPlayersReady` | lib/store/game.store.ts:336-341 | True iff there is a room of at least 2 players and every player not flagged host is ready. |
| `GameStore.CanStartGame` | lib/store/game.store.ts:343-347 | True iff the caller's id is the room's host id, there are at least 2 players, and every non-host player is ready. |
| `GameStore.CanStartGameIsHostAndAllReady` | lib/store/game.store.ts:343-347 | The player-count test in `selectCanStartGame` is implied by `selectAllPlayersReady`. |
| `GameStore.ReadyUpdateKeepsAllReady` | lib/store/game.store.ts:336-341 | Marking a player ready never makes "all ready" false. |
| `GameSettings.SetNewCategory` | components/game/GameSettings.tsx:86 | Typing sets only the input text. |
| `GameSettings.AddCategory` | components/game/GameSettings.tsx:17-22 | If the trimmed input is non-empty and not listed, it is appended after the unchanged list and the input is cleared. Otherwise nothing changes. |
| `GameSettings.RemoveCategory` | components/game/GameSettings.tsx:24-26 | Every occurrence goes. Every other category keeps exactly as many occurrences as before, and nothing else changes. |
| `GameSettings.RemoveCategoryKeepsOrder` | components/game/GameSettings.tsx:24-26 | Removal on a list split in two is removal on each part, concatenated, so the remaining categories keep their relative order. |
| `GameSettings.ApplyQuickSet` | components/game/GameSettings.tsx:122-142 | A quick set replaces the list with one free of duplicates that can start a game; the input and round count are kept, so a valid panel stays valid. |
| `GameSettings.SetTotalRounds` | components/game/GameSettings.tsx:102-107 | The round count is always in 1–10, and it equals the slider value when that is in range. |
| `GameSettings.Start` | components/game/GameSettings.tsx:28-32 | A start request is made iff there are at least 3 categories. It carries the categories and the round count. |
| `GameSettings.InitialIsValid` | components/game/GameSettings.tsx:13-15 | The first panel has the first five default categories, no duplicates, 5 rounds, and can start. |
| `GameSettings.QuickSetsAreValid` | components/game/GameSettings.tsx:122-142 | Each quick set is duplicate-free and has at least 3 categories. |
| `GameSettings.AddCategoryKeepsValid` | components/game/GameSettings.tsx:17-22 | Adding keeps the categories distinct. |
| `GameSettings.RemoveCategoryKeepsValid` | components/game/GameSettings.tsx:24-26 | Removing keeps the categories distinct. |
| `GameSettings.RemoveUndoesAdd` | components/game/GameSettings.tsx:17-26 | Removing the category just added restores the list. |
| `GameSettings.AddCategoryTwice` | components/game/GameSettings.tsx:17-22 | Adding the same text twice adds it once. |
| `GameSettings.EditsKeepValid` | components/game/GameSettings.tsx:13-150 | Under any sequence of edits, categories stay distinct and rounds stay in 1–10. A start request then carries at least 3 distinct categories. |
| `StopGameBoard.BoardLettersAreAlphabetWithoutQ` | components/game/StopGameBoard.tsx:48 | The board's pool has 25 letters. It is `ALPHABET` in order with Q left out. |
| `StopGameBoard.Send` | lib/socket/useSocket.ts:282-291 | An action is sent iff the store has a room. |
| `StopGameBoard.DrawBoardLetter` | components/game/StopGameBoard.tsx:48-49 | The drawn letter is one character from the board's pool. |
| `StopGameBoard.HandleStartRound` | components/game/StopGameBoard.tsx:44-56 | Sends iff the caller is host and a game exists. The payload has round `currentRound + 1`, a letter of `ALPHABET` other than Q, and the start time. |
| `StopGameBoard.HandleStop` | components/game/StopGameBoard.tsx:58-64 | Sends iff there is a room and a non-empty player id (JavaScript's `!playerId` rejects `""` too). The payload names the player as stopper. |
| `StopGameBoard.HandleSubmitAnswers` | components/game/StopGameBoard.tsx:66-74 | Without a player id, with the empty id, or after submitting, nothing happens. Otherwise the local answers are sent under the player id when there is a room, and the store is marked submitted. |
| `StopGameBoard.SubmitAtMostOnce` | components/game/StopGameBoard.tsx:66-74 | Submitting again right after a submission sends nothing and changes nothing. |
| `StopGameBoard.HandleNextRound` | components/game/StopGameBoard.tsx:76-91 | Sends iff the caller is host, a game exists and `currentRound < totalRounds`. The payload round is `currentRound + 1`, at most the limit, with a non-Q letter. |
| `StopGameBoard.SecondsField` | components/game/StopGameBoard.tsx:96 | For seconds below 60 the padded field is exactly two digits worth the seconds. |
| `StopGameBoard.FormatTime` | components/game/StopGameBoard.tsx:93-97 | For `s >= 0` the output is minutes without leading zeros, `:`, then exactly two digits. With `mins` and `secs` read back, `mins*60 + secs == s` and `secs < 60`. |
| `StopGameBoard.FormatNonNegative` | components/game/StopGameBoard.tsx:93-97 | The `m:ss` layout and read-back property for the non-negative branch. |
| `StopGameBoard.FormatTimeInjective` | components/game/StopGameBoard.tsx:93-97 | Different non-negative second counts render differently. |
| `StopGameBoard.FormatTimeOfNegative` | components/game/StopGameBoard.tsx:93-97 | With JavaScript's floor division and truncating `%`, −5 seconds renders as `-1:-5`. |
| `RoundFlow.ApplyStartRoundCorrected` | lib/store/game.store.ts:158-173 | Corrected `START_ROUND`: the current handler's effect, plus `currentRound` taken from the payload. |
| `RoundFlow.HandleGameActionCorrected` | lib/store/game.store.ts:154-234 | Agrees with the store's reducer on every action except `START_ROUND`, where it also records the payload round. |
| `RoundFlow.CountedRun` | components/game/StopGameBoard.tsx:44-91 | With the corrected handler, from a counted state, the rounds started never push the round number past the limit. |
| `RoundFlow.CorrectedRoundsWithinLimit` | components/game/StopGameBoard.tsx:44-91 | With the corrected handler, any clicks, each followed by its relayed action, start at most `totalRounds` rounds of a fresh game. |
| `RoundFlow.AsWrittenPlaysExtraRound` | lib/store/game.store.ts:158-173 | As written, a one-round game starts two rounds after Start Round, STOP, Next Round. With the correction the same clicks start one. |
| `RoundFlow.InitStartsFreshGame` | lib/store/game.store.ts:250-272 | `initStopGame` with a 1–10 round limit yields an idle game at round 0, the starting point of the bound. |

## Findings

| source | as written | input that shows it | evidently intended | confidence | as-written member | corrected member |
|---|---|---|---|---|---|---|
| lib/store/game.store.ts:158-173 | The `START_ROUND` handler ignores the `round` the board sends (StopGameBoard.tsx:51-55), so after round 1 starts the game still reads round 0. "Next Round" (StopGameBoard.tsx:79) then allows `totalRounds` more rounds. | `totalRounds = 1`: the host clicks Start Round, STOP, Next Round, and a second round starts. | `START_ROUND` records the payload round, so at most `totalRounds` rounds start. The board also shows "Start Round 1" but then "Round 0/1". | medium; not executed | `RoundFlow.AsWrittenPlaysExtraRound` | `RoundFlow.CorrectedRoundsWithinLimit` |

The store model (`GameStore.HandleGameAction`) keeps the handler as
written, because the store is modelled as the code stands. The corrected
reducer `RoundFlow.HandleGameActionCorrected` is what the round-flow bound is
proved about.

## Left out

- Socket connection, listener registration and emit/acknowledge
  (lib/socket/*). These are I/O. Relayed events enter the model as
  `GameActionReceivedEvent` values, and sends leave it as `Outgoing` values.
  The model assumes the server relays each action unchanged to every room
  member, including the sender.
- The server is not part of this model. That covers rooms, codes, capacity,
  host re-election, authoritative validation and scoring.
- Scraping pages and API (app/admin/scrap/**, lib/api/scrap.ts): not
  game state.
- React rendering, routing, the chat box and player list views. The board's
  phase-dependent buttons are modelled only as the guards in `RoundFlow.Step`.
- Timers: the elapsed-time interval and `Date.now()`. Time is the `now`
  parameter. `Math.random()` is the `rnd` parameter, in [0, 1).
- JavaScript numbers are doubles. The model uses unbounded integers, and
  reals for the random draw. `Number#toString` switching to exponent
  notation at 1e21 is not modelled.
- `setPlayerId`, `setRoom`, `setGamePhase`, `setAnswer`, `resetAnswers` and
  `selectCurrentPlayer`: one-field setters and a lookup with no logic to
  state. `submitAnswers` (`GameStore.MarkSubmitted`) is such a setter too;
  its effect is stated through `StopGameBoard.HandleSubmitAnswers`.
- `setGameState`: it casts an untyped value to the game state, which is
  library glue. The unused `initialStopGameState` constant is also left out.
- Zustand `set` merging and devtools middleware. Each reducer returns the
  whole next record.
- Payload fields a sender omits are `undefined` in JavaScript. Here they
  hold neutral defaults, and no handler reads a field its action does not
  define.
- `StopGameBoard.SubmitAtMostOnce`: each click is modelled as finishing
  its send and store update before the next click. The source marks the
  answers submitted only after the awaited send (StopGameBoard.tsx:69-73)
  and disables the button only by `hasSubmitted`, so a second click during
  the await sends a second `SUBMIT_ANSWERS`; that interleaving is not
  modelled.
- `RoundFlow.CorrectedRoundsWithinLimit`: each click's send, and the
  relayed action it triggers, are modelled as finishing before the next
  click. The Start Round and Next Round buttons are never disabled and the
  phase changes only when the relayed action comes back, so two quick
  clicks can send two `START_ROUND` or `NEXT_ROUND` actions; the bound is
  proved only for the click-then-echo order.
- `RoundFlow.AsWrittenPlaysExtraRound`: stated for a host with a non-empty
  id, the case in which the board's STOP is sent.
- `StopGameBoard.HandleSubmitAnswers`: models a send that resolves. When the
  send promise rejects, the source skips marking the answers submitted, and
  that path is not modelled.
- The host's automatic `initStopGame` call on mounting the board
  (StopGameBoard.tsx:37-42) is an effect. Its state change is
  `GameStore.InitStopGame`.
- Phases `VOTING`, `RESULTS` and `GAME_OVER` are declared but never set by
  the client. "Next Round" at the limit does nothing on the client.
