/** The values a game is made of. */
module Domain {

  datatype Option<+T> = None | Some(value: T)

  datatype Result<+T> = Ok(value: T) | Err(error: Error)

  datatype Error =
    | GameNotFound
    | GameAlreadyStarted
    | GameNotRunning
    | GameFinished
    | PlayerNotFound
    | PlayerAlreadyJoined
    | PlayerEliminated
    | AlreadyAnswered
    | NoMoreQuestions
    | NoActiveQuestion
    | WrongQuestion
    | QuestionStillOpen
    | InvalidOption
    | Busy

  datatype Status = Waiting | Running | Finished

  /** Why a game ended; `NotOver` stands for the empty reason. */
  datatype Reason = NotOver | LastPlayerStanding | AllEliminated | QuestionsExhausted

  datatype Player = Player(name: string, lives: int, active: bool, actor: string)

  /** A question as the game plays it. `options` are the option ids. */
  datatype Question = Question(id: string, options: seq<string>, correct: string)

  type Players = map<string, Player>

  /** Option ids chosen for one question, by player id. */
  type Answers = map<string, string>

  /** The fields of a game that change while it is played, apart from its players and answers. */
  datatype Progress = Progress(status: Status, idx: int, open: bool, start: int, reason: Reason)

  /** What is fixed when the game is created, plus the store's expiry settings (in seconds). */
  datatype Env = Env(lives: int, timeout: int, questions: seq<Question>, idleTTL: int, finishedTTL: int)
  {
    function Total(): int { |questions| }

    function Correct(idx: int): string
      requires 0 <= idx < Total()
    {
      questions[idx].correct
    }

    /**
     * The hypothesis about a game's settings. Only lives and timeout asked for in a
     * request are checked when it is created; the configured number of lives and the
     * expiry settings are not, and the correct option is when a question is edited.
     */
    predicate Valid() {
      && lives >= 1
      && timeout >= 0
      && idleTTL >= 1
      && finishedTTL >= 1
      && forall q :: q in questions ==> q.correct != ""
    }
  }
}
