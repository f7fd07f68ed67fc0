/** The engine's checks on a loaded game, and the progress it writes back. */
module Checks {
  import opened Domain
  import opened Rules

  datatype Submission = Submission(player: string, question: string, option: string)

  function JoinError(p: Progress, players: Players, id: string): Option<Error> {
    if p.status != Waiting then Some(GameAlreadyStarted)
    else if id in players then Some(PlayerAlreadyJoined)
    else None
  }

  function NewPlayer(env: Env, name: string, actor: string): Player {
    Player(name, env.lives, true, actor)
  }

  function StartError(env: Env, p: Progress): Option<Error> {
    if p.status == Finished then Some(if p.reason == QuestionsExhausted then NoMoreQuestions else GameFinished)
    else if p.open then Some(QuestionStillOpen)
    else if p.idx + 1 >= env.Total() then Some(NoMoreQuestions)
    else None
  }

  function Started(p: Progress, start: int): Progress {
    p.(status := Running, idx := p.idx + 1, open := true, start := start)
  }

  /** `only` restricts the close to one question index; a negative value does not. */
  function CloseError(p: Progress, only: int): Option<Error> {
    if p.status != Running then Some(GameNotRunning)
    else if !p.open || (only >= 0 && p.idx != only) then Some(NoActiveQuestion)
    else None
  }

  /** Progress after a close that left these players. */
  function Scored(env: Env, p: Progress, players: Players): Progress {
    var reason := EndReason(|Active(players)|, env.Total() - p.idx - 1);
    if reason == NotOver then p.(open := false)
    else p.(open := false, status := Finished, reason := reason)
  }

  /** The checks `SubmitAnswer` makes on the game it loaded. */
  function SubmitError(env: Env, p: Progress, players: Players, answers: Answers, sub: Submission): Option<Error> {
    if p.status != Running then Some(GameNotRunning)
    else if sub.player !in players then Some(PlayerNotFound)
    else if !players[sub.player].active then Some(PlayerEliminated)
    else if !p.open || !(0 <= p.idx < env.Total()) then Some(NoActiveQuestion)
    else if env.questions[p.idx].id != sub.question then Some(WrongQuestion)
    else if sub.player in answers then Some(AlreadyAnswered)
    else if sub.option !in env.questions[p.idx].options then Some(InvalidOption)
    else None
  }
}
