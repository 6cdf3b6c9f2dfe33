/** The shapes the client shares with the game server (lib/types/game.types.ts):
    players, rooms, the Stop game state and its phases, the game-action names,
    and the default categories and alphabet. */
module GameTypes {
  import Seqs

  /** A value that may be absent: TypeScript's `T | null` and optional fields. */
  datatype Option<+T> = None | Some(value: T)

  datatype PlayerInfo = PlayerInfo(id: string, username: string, isReady: bool, isHost: bool)

  datatype RoomStatus = Waiting | Playing | Finished

  datatype RoomInfo = RoomInfo(
    id: string,
    code: string,
    name: string,
    hostId: string,
    players: seq<PlayerInfo>,
    maxPlayers: int,
    status: RoomStatus)

  datatype GamePhase = Idle | RoundActive | Stopped | Voting | Results | GameOver

  /** One player's submission for a round: category -> answer. */
  datatype PlayerAnswers = PlayerAnswers(
    playerId: string,
    answers: map<string, string>,
    submittedAt: Option<int>)

  /** The replicated state of one Stop game. The store keeps `playerAnswers`
      and `scores` in `Map`s keyed by player id. */
  datatype StopGameState = StopGameState(
    currentLetter: string,
    currentRound: int,
    totalRounds: int,
    categories: seq<string>,
    roundStartTime: int,
    roundEndTime: Option<int>,
    playerAnswers: map<string, PlayerAnswers>,
    scores: map<string, int>,
    phase: GamePhase,
    stoppedBy: Option<string>)

  /** The names of the game actions (the `StopGameAction` enumeration). */
  const SET_CATEGORIES: string := "SET_CATEGORIES"
  const START_ROUND: string := "START_ROUND"
  const SUBMIT_ANSWERS: string := "SUBMIT_ANSWERS"
  const STOP: string := "STOP"
  const VOTE_ANSWER: string := "VOTE_ANSWER"
  const NEXT_ROUND: string := "NEXT_ROUND"

  /** The payload of a game action. On the wire it is untyped; each handler
      reads the fields it expects. This record carries every field some
      handler reads; a sender fills the ones its action defines. */
  datatype ActionPayload = ActionPayload(
    letter: string,
    round: int,
    roundStartTime: int,
    stoppedBy: string,
    playerId: string,
    answers: map<string, string>)

  /** A payload with every field at its neutral value. */
  const EMPTY_PAYLOAD := ActionPayload("", 0, 0, "", "", map[])

  /** A game action relayed by the server to every member of the room. */
  datatype GameActionReceivedEvent = GameActionReceivedEvent(
    playerId: string,
    action: string,
    payload: ActionPayload,
    timestamp: int)

  const DEFAULT_CATEGORIES: seq<string> := [
    "Name", "Animal", "Country/City", "Food", "Object", "Color", "Movie/Series", "Profession"
  ]

  const ALPHABET: string := "ABCDEFGHIJKLMNOPQRSTUVWXYZ"

  /** True iff `c` is one of the letters rounds are played with. */
  predicate InAlphabet(c: char) {
    c in ALPHABET
  }

  /** The alphabet is the 26 capital letters A-Z, each once. */
  lemma AlphabetIsCapitalLetters()
    ensures |ALPHABET| == 26
    ensures forall i :: 0 <= i < 26 ==> ALPHABET[i] as int == 'A' as int + i
    ensures Seqs.NoDuplicates(ALPHABET)
    ensures forall c :: c in ALPHABET <==> 'A' <= c <= 'Z'
  {
    forall i | 0 <= i < 26 ensures ALPHABET[i] as int == 'A' as int + i {
    }
    forall c | 'A' <= c <= 'Z' ensures c in ALPHABET {
      assert ALPHABET[c as int - 'A' as int] == c;
    }
  }

  /** The default categories are eight distinct labels. */
  lemma DefaultCategoriesDistinct()
    ensures |DEFAULT_CATEGORIES| == 8
    ensures Seqs.NoDuplicates(DEFAULT_CATEGORIES)
  {
  }
}
