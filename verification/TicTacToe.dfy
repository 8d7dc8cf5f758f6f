/** Lab 10, the rules of the game kept by the server: which moves it accepts and when it calls the
    game finished.  These functions only compute; `Server` updates the shared state with them. */
module TicTacToe {

  const NO_MARK := '\0'
  const PLAYER_SYMBOLS := "OX"

  datatype Game = Game(turn: char, board: seq<char>, remaining: int)

  datatype GameResult = Won | Lost | Draw | Playing

  predicate IsBoard(g: Game) { |g.board| == 9 }

  function NewGame(first: char): Game {
    Game(first, seq(9, _ => NO_MARK), 9)
  }

  predicate IsValidMove(g: Game, moveId: int, symbol: char)
    requires IsBoard(g)
  {
    g.turn == symbol && 1 <= moveId <= 9 && g.board[moveId - 1] == NO_MARK
  }

  function Place(g: Game, moveId: int, symbol: char, opponent: char): Game
    requires IsBoard(g) && 1 <= moveId <= 9
  {
    Game(opponent, g.board[moveId - 1 := symbol], g.remaining - 1)
  }

  predicate Complete(board: seq<char>, i: nat, j: nat, k: nat, symbol: char)
    requires |board| == 9 && i < 9 && j < 9 && k < 9
  {
    board[i] == symbol && board[j] == symbol && board[k] == symbol
  }

  /** Looks only at the lines through the last move. */
  function GetGameResult(g: Game, moveId: int): GameResult
    requires IsBoard(g) && 1 <= moveId <= 9
  {
    var r, c := (moveId - 1) / 3, (moveId - 1) % 3;
    var s := g.board[moveId - 1];
    if Complete(g.board, 3 * r, 3 * r + 1, 3 * r + 2, s)
       || Complete(g.board, c, c + 3, c + 6, s)
       || (r == c && Complete(g.board, 0, 4, 8, s))
       || (r == 2 - c && Complete(g.board, 2, 4, 6, s))
    then Won
    else if g.remaining == 0 then Draw
    else Playing
  }

  function GetOppositeGameResult(r: GameResult): GameResult {
    match r
    case Won => Lost
    case Lost => Won
    case _ => r
  }

  /** One player won exactly when the other lost; a draw is a draw for both. */
  lemma ResultsComplement(r: GameResult)
    ensures r.Won? <==> GetOppositeGameResult(r).Lost?
    ensures r.Lost? <==> GetOppositeGameResult(r).Won?
    ensures r.Draw? <==> GetOppositeGameResult(r).Draw?
    ensures r.Playing? <==> GetOppositeGameResult(r).Playing?
    ensures GetOppositeGameResult(GetOppositeGameResult(r)) == r
  {
  }

  // ---------------------------------------------------------------- what a finished game is

  /** Any of the eight lines, three equal marks. */
  predicate HasLine(board: seq<char>, symbol: char)
    requires |board| == 9
  {
    || Complete(board, 0, 1, 2, symbol) || Complete(board, 3, 4, 5, symbol) || Complete(board, 6, 7, 8, symbol)
    || Complete(board, 0, 3, 6, symbol) || Complete(board, 1, 4, 7, symbol) || Complete(board, 2, 5, 8, symbol)
    || Complete(board, 0, 4, 8, symbol) || Complete(board, 2, 4, 6, symbol)
  }

  ghost function Marks(board: seq<char>, symbol: char): nat {
    multiset(board)[symbol]
  }

  /** A game between `first`, who started, and `second`, with the game still going on. */
  ghost predicate InProgress(g: Game, first: char, second: char) {
    && IsBoard(g)
    && first != second && first != NO_MARK && second != NO_MARK
    && (forall k :: 0 <= k < 9 ==> g.board[k] == NO_MARK || g.board[k] == first || g.board[k] == second)
    && (g.turn == first || g.turn == second)
    && g.remaining == Marks(g.board, NO_MARK)
    && Marks(g.board, first) == Marks(g.board, second) + (if g.turn == second then 1 else 0)
    && !HasLine(g.board, first) && !HasLine(g.board, second)
  }

  lemma NewGameInProgress(first: char, second: char)
    requires first != second && first != NO_MARK && second != NO_MARK
    ensures InProgress(NewGame(first), first, second)
  {
    var b := NewGame(first).board;
    assert b == [NO_MARK, NO_MARK, NO_MARK, NO_MARK, NO_MARK, NO_MARK, NO_MARK, NO_MARK, NO_MARK];
    assert first !in b && second !in b;
    assert multiset(b) == multiset{NO_MARK, NO_MARK, NO_MARK, NO_MARK, NO_MARK, NO_MARK, NO_MARK, NO_MARK, NO_MARK};
  }

  lemma OneMoreMark(board: seq<char>, k: nat, symbol: char)
    requires k < |board| && board[k] == NO_MARK && symbol != NO_MARK
    ensures var b := board[k := symbol];
            && Marks(b, NO_MARK) == Marks(board, NO_MARK) - 1
            && Marks(b, symbol) == Marks(board, symbol) + 1
            && forall other :: other != NO_MARK && other != symbol ==> Marks(b, other) == Marks(board, other)
  {
    assert board[k] in multiset(board);
    assert multiset(board[k := symbol]) == multiset(board) - multiset{NO_MARK} + multiset{symbol};
  }

  /** Looking through the last move is enough: the result is WON exactly when some line of the board is
      complete, and then it is a line of the player who moved. */
  lemma LastMoveDecides(g: Game, first: char, second: char, moveId: int)
    requires InProgress(g, first, second) && IsValidMove(g, moveId, g.turn)
    ensures var other := if g.turn == first then second else first;
            var g' := Place(g, moveId, g.turn, other);
            && !HasLine(g'.board, other)
            && (GetGameResult(g', moveId).Won? <==> HasLine(g'.board, first) || HasLine(g'.board, second))
            && (GetGameResult(g', moveId).Draw? <==>
                  NO_MARK !in g'.board && !HasLine(g'.board, first) && !HasLine(g'.board, second))
            && (GetGameResult(g', moveId).Playing? ==> InProgress(g', first, second) && g'.remaining > 0)
  {
    var other := if g.turn == first then second else first;
    var g' := Place(g, moveId, g.turn, other);
    OneMoreMark(g.board, moveId - 1, g.turn);
    LinesThroughMove(g.board, moveId - 1, g.turn);
    NoNewLine(g.board, moveId - 1, g.turn, other);
    assert g'.remaining == Marks(g'.board, NO_MARK);
    assert NO_MARK in g'.board <==> NO_MARK in multiset(g'.board);
  }

  /** A new line of the mover goes through the move. */
  lemma LinesThroughMove(board: seq<char>, k: nat, symbol: char)
    requires |board| == 9 && k < 9 && board[k] == NO_MARK && symbol != NO_MARK && !HasLine(board, symbol)
    ensures var b := board[k := symbol]; var r, c := k / 3, k % 3;
            HasLine(b, symbol) <==>
              || Complete(b, 3 * r, 3 * r + 1, 3 * r + 2, symbol)
              || Complete(b, c, c + 3, c + 6, symbol)
              || (r == c && Complete(b, 0, 4, 8, symbol))
              || (r == 2 - c && Complete(b, 2, 4, 6, symbol))
  {
  }

  lemma NoNewLine(board: seq<char>, k: nat, symbol: char, other: char)
    requires |board| == 9 && k < 9 && other != symbol && !HasLine(board, other)
    ensures !HasLine(board[k := symbol], other)
  {
  }

  // ---------------------------------------------------------------- whole games

  /** A move message of a player. */
  datatype Move = Move(symbol: char, moveId: int)

  /** `accepted` lists the accepted moves. */
  datatype Match = Match(game: Game, result: GameResult, accepted: seq<Move>)

  /** After a result other than PLAYING the server has closed the connections: no message counts. */
  function Handle(m: Match, first: char, second: char, move: Move): Match
    requires IsBoard(m.game)
  {
    if m.result.Playing? && IsValidMove(m.game, move.moveId, move.symbol) then
      var g := Place(m.game, move.moveId, move.symbol, if move.symbol == first then second else first);
      Match(g, GetGameResult(g, move.moveId), m.accepted + [move])
    else m
  }

  function Play(first: char, second: char, moves: seq<Move>): (m: Match)
    ensures IsBoard(m.game)
  {
    if moves == [] then Match(NewGame(first), Playing, [])
    else Handle(Play(first, second, moves[..|moves| - 1]), first, second, moves[|moves| - 1])
  }

  /** Whose turn it is after a number of moves. */
  function Mover(first: char, second: char, moves: nat): char {
    if moves % 2 == 0 then first else second
  }

  /** The counter of remaining moves is the number of empty fields, and the players alternate. */
  ghost predicate HistoryOk(m: Match, first: char, second: char) {
    && IsBoard(m.game)
    && m.game.remaining == Marks(m.game.board, NO_MARK) == 9 - |m.accepted|
    && Alternate(m.accepted, first, second)
    && m.game.turn == Mover(first, second, |m.accepted|)
  }

  predicate Alternate(accepted: seq<Move>, first: char, second: char) {
    forall k :: 0 <= k < |accepted| ==> accepted[k].symbol == Mover(first, second, k)
  }

  lemma TurnPasses(accepted: seq<Move>, first: char, second: char, move: Move)
    requires first != second && Alternate(accepted, first, second)
    requires move.symbol == Mover(first, second, |accepted|)
    ensures Alternate(accepted + [move], first, second)
    ensures Mover(first, second, |accepted + [move]|) == if move.symbol == first then second else first
  {
  }

  /** The two never both have a line, and the result is the one the whole board shows. */
  ghost predicate OutcomeOk(m: Match, first: char, second: char)
    requires IsBoard(m.game)
  {
    && !(HasLine(m.game.board, first) && HasLine(m.game.board, second))
    && (m.result.Playing? ==> InProgress(m.game, first, second) && m.game.remaining > 0)
    && (m.result.Won? <==> HasLine(m.game.board, first) || HasLine(m.game.board, second))
    && (m.result.Won? ==> |m.accepted| > 0 && HasLine(m.game.board, m.accepted[|m.accepted| - 1].symbol))
    && (m.result.Draw? ==> NO_MARK !in m.game.board)
    && !m.result.Lost?
  }

  lemma HandleKeepsHistory(m: Match, first: char, second: char, move: Move)
    requires first != second && first != NO_MARK && second != NO_MARK
    requires HistoryOk(m, first, second)
    ensures HistoryOk(Handle(m, first, second, move), first, second)
  {
    if m.result.Playing? && IsValidMove(m.game, move.moveId, move.symbol) {
      OneMoreMark(m.game.board, move.moveId - 1, move.symbol);
      TurnPasses(m.accepted, first, second, move);
    }
  }

  lemma HandleKeepsOutcome(m: Match, first: char, second: char, move: Move)
    requires HistoryOk(m, first, second) && OutcomeOk(m, first, second)
    ensures OutcomeOk(Handle(m, first, second, move), first, second)
  {
    if m.result.Playing? && IsValidMove(m.game, move.moveId, move.symbol) {
      LastMoveDecides(m.game, first, second, move.moveId);
    }
  }

  /** For every sequence of move messages, accepted and rejected: the counter of remaining moves is the
      number of empty fields, the players strictly alternate, the two never both have a line, and the
      result is the one the whole board shows. */
  lemma {:induction false} EveryMatch(first: char, second: char, moves: seq<Move>)
    requires first != second && first != NO_MARK && second != NO_MARK
    ensures HistoryOk(Play(first, second, moves), first, second)
    ensures OutcomeOk(Play(first, second, moves), first, second)
  {
    if moves == [] {
      NewGameInProgress(first, second);
    } else {
      EveryMatch(first, second, moves[..|moves| - 1]);
      HandleKeepsHistory(Play(first, second, moves[..|moves| - 1]), first, second, moves[|moves| - 1]);
      HandleKeepsOutcome(Play(first, second, moves[..|moves| - 1]), first, second, moves[|moves| - 1]);
    }
  }

  // ---------------------------------------------------------------- which messages are accepted

  /** The board holds the accepted moves and nothing else. */
  ghost predicate BoardOk(m: Match) {
    && IsBoard(m.game)
    && (forall k :: 0 <= k < |m.accepted| ==>
                      1 <= m.accepted[k].moveId <= 9 && m.game.board[m.accepted[k].moveId - 1] == m.accepted[k].symbol)
    && (forall f :: 1 <= f <= 9 && !Taken(m, f) ==> m.game.board[f - 1] == NO_MARK)
  }

  predicate Taken(m: Match, f: int) {
    exists k :: 0 <= k < |m.accepted| && m.accepted[k].moveId == f
  }

  predicate Distinct(m: Match) {
    forall k, l :: 0 <= k < l < |m.accepted| ==> m.accepted[k].moveId != m.accepted[l].moveId
  }

  /** Whether a message comes from the player whose turn it is and names a field of the board that no
      earlier accepted move took. */
  predicate Legal(m: Match, first: char, second: char, move: Move) {
    move.symbol == Mover(first, second, |m.accepted|) && 1 <= move.moveId <= 9 && !Taken(m, move.moveId)
  }

  lemma HandleKeepsBoard(m: Match, first: char, second: char, move: Move)
    requires first != NO_MARK && second != NO_MARK
    requires HistoryOk(m, first, second) && BoardOk(m) && Distinct(m)
    ensures BoardOk(Handle(m, first, second, move)) && Distinct(Handle(m, first, second, move))
    ensures m.result.Playing? ==>
              (Handle(m, first, second, move).accepted
                 == if Legal(m, first, second, move) then m.accepted + [move] else m.accepted)
  {
    FieldTaken(m, first, second, move.moveId);
    var m' := Handle(m, first, second, move);
    if m' != m {
      assert m'.accepted == m.accepted + [move];
      forall f | 1 <= f <= 9 && !Taken(m', f)
        ensures m'.game.board[f - 1] == NO_MARK
      {
        assert m'.accepted[|m.accepted|].moveId != f;
        TakenStays(m, move, m', f);
      }
    }
  }

  lemma TakenStays(m: Match, move: Move, m': Match, f: int)
    requires m'.accepted == m.accepted + [move]
    ensures Taken(m, f) ==> Taken(m', f)
  {
    if Taken(m, f) {
      var k :| 0 <= k < |m.accepted| && m.accepted[k].moveId == f;
      assert m'.accepted[k].moveId == f;
    }
  }

  lemma FieldTaken(m: Match, first: char, second: char, f: int)
    requires first != NO_MARK && second != NO_MARK && HistoryOk(m, first, second) && BoardOk(m)
    ensures 1 <= f <= 9 ==> (m.game.board[f - 1] == NO_MARK <==> !Taken(m, f))
  {
  }

  lemma PlayOneMore(first: char, second: char, moves: seq<Move>, move: Move)
    ensures Play(first, second, moves + [move]) == Handle(Play(first, second, moves), first, second, move)
  {
    assert (moves + [move])[..|moves|] == moves;
  }

  lemma {:induction false} BoardHolds(first: char, second: char, moves: seq<Move>)
    requires first != second && first != NO_MARK && second != NO_MARK
    ensures BoardOk(Play(first, second, moves)) && Distinct(Play(first, second, moves))
  {
    if moves != [] {
      var front, last := moves[..|moves| - 1], moves[|moves| - 1];
      var m := Play(first, second, front);
      BoardHolds(first, second, front);
      EveryMatch(first, second, front);
      HandleKeepsBoard(m, first, second, last);
      assert Play(first, second, moves) == Handle(m, first, second, last);
    }
  }

  /** For every sequence of messages, while the game is going on: the next message is accepted exactly when
      it is legal by the moves accepted before, and an accepted move marks its field and no other. */
  lemma AcceptedExactly(first: char, second: char, moves: seq<Move>, move: Move)
    requires first != second && first != NO_MARK && second != NO_MARK
    ensures var m := Play(first, second, moves); var m' := Play(first, second, moves + [move]);
            && BoardOk(m) && Distinct(m)
            && m'.accepted == (if m.result.Playing? && Legal(m, first, second, move) then m.accepted + [move]
                               else m.accepted)
            && (forall f :: 0 <= f < 9 ==>
                  m'.game.board[f] == if m'.accepted != m.accepted && f == move.moveId - 1 then move.symbol
                                      else m.game.board[f])
  {
    var m := Play(first, second, moves);
    BoardHolds(first, second, moves);
    EveryMatch(first, second, moves);
    HandleKeepsBoard(m, first, second, move);
    PlayOneMore(first, second, moves, move);
  }

  /** The eight lines are the triples of fields with the second in the middle between the others. */
  lemma LinesAreStraight(board: seq<char>, symbol: char)
    requires |board| == 9
    ensures HasLine(board, symbol) <==> exists i, j, k :: Straight(i, j, k) && Complete(board, i, j, k, symbol)
  {
    if HasLine(board, symbol) {
      var i, j, k := SomeLine(board, symbol);
    }
    if i, j, k :| Straight(i, j, k) && Complete(board, i, j, k, symbol) {
      StraightIsLine(i, j, k);
      LineOf(board, symbol, i, j, k);
    }
  }

  lemma LineOf(board: seq<char>, symbol: char, i: nat, j: nat, k: nat)
    requires |board| == 9 && (i, j, k) in LINES && i < 9 && j < 9 && k < 9 && Complete(board, i, j, k, symbol)
    ensures HasLine(board, symbol)
  {
  }

  lemma SomeLine(board: seq<char>, symbol: char) returns (i: nat, j: nat, k: nat)
    requires |board| == 9 && HasLine(board, symbol)
    ensures Straight(i, j, k) && Complete(board, i, j, k, symbol)
  {
    if Complete(board, 0, 1, 2, symbol) {
      i, j, k := 0, 1, 2;
    } else if Complete(board, 3, 4, 5, symbol) {
      i, j, k := 3, 4, 5;
    } else if Complete(board, 6, 7, 8, symbol) {
      i, j, k := 6, 7, 8;
    } else if Complete(board, 0, 3, 6, symbol) {
      i, j, k := 0, 3, 6;
    } else if Complete(board, 1, 4, 7, symbol) {
      i, j, k := 1, 4, 7;
    } else if Complete(board, 2, 5, 8, symbol) {
      i, j, k := 2, 5, 8;
    } else if Complete(board, 0, 4, 8, symbol) {
      i, j, k := 0, 4, 8;
    } else {
      i, j, k := 2, 4, 6;
    }
  }

  const LINES: set<(int, int, int)> :=
    {(0, 1, 2), (3, 4, 5), (6, 7, 8), (0, 3, 6), (1, 4, 7), (2, 5, 8), (0, 4, 8), (2, 4, 6)}

  function Row(field: nat): nat {
    if field < 3 then 0 else if field < 6 then 1 else 2
  }

  function Column(field: nat): int {
    field - 3 * Row(field)
  }

  predicate Straight(i: nat, j: nat, k: nat) {
    i < j < k < 9 && Row(i) + Row(k) == 2 * Row(j) && Column(i) + Column(k) == 2 * Column(j)
  }

  lemma StraightIsLine(i: nat, j: nat, k: nat)
    requires Straight(i, j, k)
    ensures (i, j, k) in LINES
  {
    assert k == 2 * j - i;
    if j < 4 {
      assert j in [1, 2, 3] && i in [0, 1, 2];
    } else {
      assert j in [4, 5, 6, 7] && i in [0, 1, 2, 3, 4, 5, 6];
    }
  }
}
