/**
 A game of two players on one board: whose turn it is, whether the game is
 still on (`play`), and the moves that place the current player's piece.
 Player 0 (the max player) plays O, player 1 (the min player) plays X.
 */
module Game {
  import opened Wrappers
  import opened Board

  // ---------------------------------------------------------------------------
  // Turn toggle
  // ---------------------------------------------------------------------------

  /** The player after `switch_player`: 0 becomes 1, anything else becomes 0. */
  function Switched(player: int): (next: int)
    ensures next == 0 || next == 1
    ensures player == 0 || player == 1 ==> next == 1 - player
    ensures player != 0 && player != 1 ==> next == 0
  {
    if player == 0 then 1 else 0
  }

  /** Switching twice gives the turn back to the same player, for either player. */
  lemma SwitchedTwice(player: int)
    requires player == 0 || player == 1
    ensures Switched(Switched(player)) == player
  {
  }

  // ---------------------------------------------------------------------------
  // The game-over flag
  // ---------------------------------------------------------------------------

  /**
   `play` after one call of `running(playing)` on a board with cells `g`:
   it goes false when the caller ends the game or no cell is empty, and
   otherwise keeps its value.
   */
  function NextPlay(play: bool, playing: bool, g: Grid): (next: bool)
    requires IsGrid(g)
    ensures next <==> play && playing && HasEmptyCell(g)
  {
    LegalMoveDefaultIffFull(g);
    if !playing || LegalMove(g) < 0 then false else play
  }

  /** One call of `running`: its argument and the board it looks at. */
  datatype RunningCall = RunningCall(playing: bool, cells: Grid)

  ghost predicate WellFormedCalls(calls: seq<RunningCall>)
  {
    forall i :: 0 <= i < |calls| ==> IsGrid(calls[i].cells)
  }

  /** `play` after a sequence of calls of `running`, starting from `play`. */
  ghost function PlayAfter(play: bool, calls: seq<RunningCall>): bool
    requires WellFormedCalls(calls)
    decreases |calls|
  {
    if calls == [] then play
    else PlayAfter(NextPlay(play, calls[0].playing, calls[0].cells), calls[1..])
  }

  /**
   The flag only ever goes from true to false: it is true after a sequence of
   calls only if it was true before, and any call with `playing` false ends
   the game for good.
   */
  lemma {:induction false} GameOverIsAbsorbing(play: bool, calls: seq<RunningCall>)
    requires WellFormedCalls(calls)
    ensures PlayAfter(play, calls) ==> play
    ensures (exists i :: 0 <= i < |calls| && !calls[i].playing) ==> !PlayAfter(play, calls)
    decreases |calls|
  {
    if calls != [] {
      var next := NextPlay(play, calls[0].playing, calls[0].cells);
      GameOverIsAbsorbing(next, calls[1..]);
      if exists i :: 0 <= i < |calls| && !calls[i].playing {
        var i :| 0 <= i < |calls| && !calls[i].playing;
        if i > 0 {
          assert !calls[1..][i - 1].playing;
        }
      }
    }
  }

  /** Running a sequence of calls is running its first part, then the rest. */
  lemma {:induction false} PlayAfterAppend(play: bool, first: seq<RunningCall>, rest: seq<RunningCall>)
    requires WellFormedCalls(first) && WellFormedCalls(rest)
    ensures WellFormedCalls(first + rest)
    ensures PlayAfter(play, first + rest) == PlayAfter(PlayAfter(play, first), rest)
    decreases |first|
  {
    if first != [] {
      var next := NextPlay(play, first[0].playing, first[0].cells);
      assert (first + rest)[0] == first[0];
      assert (first + rest)[1..] == first[1..] + rest;
      PlayAfterAppend(next, first[1..], rest);
      assert PlayAfter(play, first + rest) == PlayAfter(next, first[1..] + rest);
    } else {
      assert first + rest == rest;
    }
  }

  /** Once `running` has returned false, every later call returns false too. */
  lemma LaterCallsStayOver(play: bool, calls: seq<RunningCall>, k: nat, j: nat)
    requires WellFormedCalls(calls)
    requires k <= j <= |calls|
    requires !PlayAfter(play, calls[..k])
    ensures !PlayAfter(play, calls[..j])
  {
    assert calls[..j] == calls[..k] + calls[k..j];
    PlayAfterAppend(play, calls[..k], calls[k..j]);
    GameOverIsAbsorbing(PlayAfter(play, calls[..k]), calls[k..j]);
  }

  // ---------------------------------------------------------------------------
  // The game object
  // ---------------------------------------------------------------------------

  class Game {
    /** False once the game is over; never set back to true. */
    var play: bool
    const board: Board
    const maxPlayer: int
    const minPlayer: int
    /** Index into `players` of the player to move. */
    var currentPlayer: int
    const players: seq<int>
    /** Never assigned after construction. */
    var winner: Option<int>

    ghost predicate Valid()
      reads this, board
    {
      board.Valid() &&
      maxPlayer == 0 && minPlayer == 1 && players == [maxPlayer, minPlayer] &&
      (currentPlayer == 0 || currentPlayer == 1)
    }

    /** The piece of the player to move. */
    function CurrentPiece(): (piece: int)
      requires Valid()
      reads this, board
      ensures piece == currentPlayer
    {
      players[currentPlayer]
    }

    /** `Game()`: the game is on, player 0 moves first, and the board is empty. */
    constructor ()
      ensures Valid() && fresh(board) && fresh(board.state)
      ensures play && currentPlayer == 0 && winner == None
      ensures board.Cells() == FreshGrid()
    {
      play := true;
      board := new Board();
      maxPlayer := 0;
      minPlayer := 1;
      currentPlayer := 0;
      players := [0, 1];
      winner := None;
    }

    /**
     `running(playing)`: ends the game when the caller says so or the board is
     full, and returns whether the game is still on.
     */
    method Running(playing: bool := true) returns (r: bool)
      requires Valid()
      modifies this`play
      ensures Valid()
      ensures play == NextPlay(old(play), playing, board.Cells())
      ensures r == play
      ensures !old(play) ==> !r
    {
      if !playing || LegalMove(board.Cells()) < 0 {
        play := false;
      }
      r := play;
    }

    /**
     `move`: places the current player's piece through `add_piece` and returns
     its result; a result of 0 ends the game. Position -2 on a board with an
     empty cell raises, leaving board and flag as they were.
     */
    method Move(position: int) returns (r: Result<int>)
      requires Valid()
      modifies this`play, board.state
      ensures Valid()
      ensures r == Place(old(board.Cells()), CurrentPiece(), position).status
      ensures board.Cells() == Place(old(board.Cells()), CurrentPiece(), position).grid
      ensures play == (old(play) && r != Ok(0))
    {
      r := board.AddPiece(players[currentPlayer], position);
      if r == Ok(0) {
        var over := Running(false);
      }
    }

    /**
     `random_move`: when the game is on and a cell is empty, places the current
     player's piece on some empty cell and returns 1; otherwise ends the game
     (if it was on), leaves the board alone and returns 0.
     */
    method RandomMove() returns (r: int)
      requires Valid()
      modifies this`play, board.state
      ensures Valid()
      ensures play == (old(play) && HasEmptyCell(old(board.Cells())))
      ensures !play ==> r == 0 && board.Cells() == old(board.Cells())
      ensures play ==> r == 1
      ensures play ==>
                exists p :: 0 <= p < 9 && IsEmptyAt(old(board.Cells()), MapPosition(p).value) &&
                  board.Cells() == SetCell(old(board.Cells()), MapPosition(p).value, CurrentPiece())
    {
      var on := Running();
      if on {
        var position := board.RandomLegalMove();
        var moved := Move(position);
        r := moved.value;
      } else {
        r := 0;
      }
    }

    /** `switch_player`: hands the turn to the other player. */
    method SwitchPlayer()
      requires Valid()
      modifies this`currentPlayer
      ensures Valid()
      ensures currentPlayer == Switched(old(currentPlayer))
      ensures currentPlayer != old(currentPlayer)
    {
      if currentPlayer == 0 {
        currentPlayer := 1;
      } else {
        currentPlayer := 0;
      }
    }
  }
}
