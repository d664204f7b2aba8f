/**
 * The typing-test page: a game, and the leaderboard shown once the game is
 * finished. Its reset button starts a new game and re-reads the board.
 */
module TypingTest {
  import opened Common
  import opened TypingGame
  import opened Leaderboard

  datatype Page = Page(game: Game, board: Board)

  /**
   * `handleGameReset`: a fresh game on a chosen quote, the submission flag
   * cleared so the new score can be submitted, and the board as stored.
   */
  function GameReset(p: Page, quotes: seq<string>, choice: nat, raw: Option<string>,
                     parse: string -> Option<seq<Entry>>): (r: Page)
    ensures TypingGame.Valid(r.game) && !r.game.started && !r.game.finished
    ensures r.game.input == "" && (|quotes| > 0 ==> r.game.quote in quotes)
    ensures !r.board.submitted
    ensures r.board.entries == Load(raw, parse)
  {
    Page(InitGame(quotes, choice), Refresh(ResetSubmission(p.board), raw, parse))
  }
}
