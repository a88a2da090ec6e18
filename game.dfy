/** The Kuba game object: the board, the board before the last push, the
    marble counters, whose move was last and the winner, updated in place by
    the moves. */
module Game {
  import opened Board
  import opened Rules

  /** The cells of column c in rows lo up to hi - 1, collected one by one. */
  method CheckSpace(g: Grid, c: int, lo: int, hi: int) returns (space: seq<Cell>)
    requires WellFormed(g) && 0 <= c < Size && 0 <= lo <= hi <= Size
    ensures |space| == hi - lo
    ensures forall k :: 0 <= k < hi - lo ==> space[k] == g[lo + k][c]
  {
    space := [];
    var idx := lo;
    while idx < hi
      invariant lo <= idx <= hi && |space| == idx - lo
      invariant forall k :: 0 <= k < idx - lo ==> space[k] == g[lo + k][c]
    {
      space := space + [g[idx][c]];
      idx := idx + 1;
    }
  }

  /** The cells the move scans, on the board before the push, to decide
      whether a marble fell off. */
  method RemovalSpace(g: Grid, r: int, c: int, d: Direction) returns (space: seq<Cell>)
    requires WellFormed(g) && OnBoard(r, c)
    ensures space == RemovalScan(g, r, c, d)
  {
    match d {
      case Left => space := g[r][..c];
      case Right => space := g[r][c + 1..];
      case Forward => space := CheckSpace(g, c, 0, r);
      case Backward => space := CheckSpace(g, c, r, Size);
    }
  }

  /** The edge and direction checks of a move, made after its trial push. */
  method DirectionChecks(g: Grid, own: Cell, r: int, c: int, d: Direction) returns (ok: bool)
    requires WellFormed(g) && OnBoard(r, c)
    ensures ok == DirectionAllows(g, r, c, d, own)
  {
    match d {
      case Left =>
        SourceChecksMatchRule(g, r, c, Left, own);
        if c == 0 {
          return false;
        }
        if c != Size - 1 && g[r][c + 1] != Empty {
          return false;
        }
        if Empty !in g[r][..c] && g[r][0] == own {
          return false;
        }
      case Right =>
        SourceChecksMatchRule(g, r, c, Right, own);
        if c == Size - 1 {
          return false;
        }
        if c != 0 && g[r][c - 1] != Empty {
          return false;
        }
        if Empty !in g[r][c + 1..] && g[r][Size - 1] == own {
          return false;
        }
      case Forward =>
        SourceChecksMatchRule(g, r, c, Forward, own);
        if r == 0 {
          return false;
        }
        if r != Size - 1 && g[r + 1][c] != Empty {
          return false;
        }
        var space := CheckSpace(g, c, 0, r);
        assert space == Ahead(g, r, c, d);
        if Empty !in space && g[0][c] == own {
          return false;
        }
      case Backward =>
        SourceChecksMatchRule(g, r, c, Backward, own);
        if r == Size - 1 {
          return false;
        }
        if r != 0 && g[r - 1][c] != Empty {
          return false;
        }
        var space := CheckSpace(g, c, r + 1, Size);
        assert space == Ahead(g, r, c, d);
        if Empty !in space && g[Size - 1][c] == own {
          return false;
        }
    }
    return true;
  }

  /** The repetition rule can be sidestepped. A move that passes the first
      checks but fails the edge or direction checks is rejected after its
      trial push, which saved the current board as the previous board. No
      push of a marble reproduces the board it starts from, so no move from
      that position can then be rejected as a repetition. */
  method RejectedMoveClearsRepetition(game: KubaGame, p: Player, r: int, c: int, d: Direction) returns (ok: bool)
    requires game.Valid() && OnBoard(r, c)
    requires TrialRuns(game.board, game.winner, game.previousTurn, game.ColorOf(p), p, r, c)
    modifies game
    ensures game.Valid()
    ensures !ok ==> game.previousBoard == Some(game.board)
    ensures !ok ==> forall i, j, e :: OnBoard(i, j) && game.board[i][j] != Empty ==>
      game.previousBoard != Some(Push(game.board, i, j, e))
  {
    ok := game.MakeMove(p, r, c, d);
    if !ok {
      forall i, j, e | OnBoard(i, j) && game.board[i][j] != Empty
        ensures game.previousBoard != Some(Push(game.board, i, j, e))
      {
        PushChangesBoard(game.board, i, j, e);
      }
    }
  }

  class KubaGame {
    const colorA: Cell
    const colorB: Cell
    var previousTurn: Option<Player>
    var winner: Option<Player>
    var whiteCount: int
    var blackCount: int
    var redCount: int
    var previousBoard: Option<Grid>
    var captureA: int
    var captureB: int
    var board: Grid

    /** The five counters, in the order white, black, red, captured by A,
        captured by B. */
    function Counters(): Tally
      reads this
    {
      Tally(whiteCount, blackCount, redCount, captureA, captureB)
    }

    function ColorOf(p: Player): Cell {
      if p == PlayerA then colorA else colorB
    }

    /** The players hold white and black, the boards are 7 by 7, and the
        counters agree with the board. */
    ghost predicate Valid()
      reads this
    {
      && ValidColors(colorA, colorB)
      && WellFormed(board)
      && (previousBoard.Some? ==> WellFormed(previousBoard.value))
      && InSync(board, Counters())
    }

    constructor (colorA: Cell, colorB: Cell)
      requires ValidColors(colorA, colorB)
      ensures Valid()
      ensures this.colorA == colorA && this.colorB == colorB
      ensures board == InitialGrid() && previousBoard == None
      ensures previousTurn == None && winner == None
      ensures Counters() == Tally(8, 8, 13, 0, 0)
    {
      this.colorA := colorA;
      this.colorB := colorB;
      previousTurn := None;
      winner := None;
      whiteCount := 8;
      blackCount := 8;
      redCount := 13;
      previousBoard := None;
      captureA := 0;
      captureB := 0;
      board := InitialGrid();
      new;
      assert board == InitialGrid() && previousBoard == None && previousTurn == None && winner == None;
      InitialValid();
    }

    /** The starting state is consistent. */
    lemma InitialValid()
      requires ValidColors(colorA, colorB) && board == InitialGrid() && previousBoard == None
      requires Counters() == Tally(8, 8, 13, 0, 0)
      ensures Valid()
    {
      InitialInSync(board);
    }

    /** Makes the move if it is legal; answers whether it was made. A rejected
        move keeps the board, the counters and the turn, but a move rejected
        after its trial push keeps that trial's saved board and winner. */
    method MakeMove(p: Player, r: int, c: int, d: Direction) returns (ok: bool)
      requires Valid() && OnBoard(r, c)
      modifies this
      ensures Valid()
      ensures ok == Legal(old(board), old(previousBoard), old(winner), old(previousTurn), ColorOf(p), p, r, c, d)
      ensures ok ==> && board == Push(old(board), r, c, d)
                     && previousBoard == Some(old(board))
                     && previousTurn == Some(p)
                     && Counters() == TallyAfterPush(old(board), r, c, d, old(Counters()), p)
                     && winner == WinnerAfterPush(old(board), r, c, d, old(Counters()), old(winner), p, colorA, colorB)
      ensures !ok ==> board == old(board) && Counters() == old(Counters()) && previousTurn == old(previousTurn)
      ensures !ok && TrialRuns(old(board), old(winner), old(previousTurn), ColorOf(p), p, r, c) ==>
        && previousBoard == Some(old(board))
        && winner == WinnerAfterPush(old(board), r, c, d, old(Counters()), old(winner), p, colorA, colorB)
      ensures !TrialRuns(old(board), old(winner), old(previousTurn), ColorOf(p), p, r, c) ==>
        previousBoard == old(previousBoard) && winner == old(winner)
      ensures old(winner) != None ==> !ok && unchanged(this)
      ensures old(previousTurn) == Some(p) ==> !ok && unchanged(this)
    {
      ok := ValidateMove(p, r, c, d);
      if !ok {
        return false;
      }
      WinnerAfterPushIdempotent(old(board), r, c, d, old(Counters()), old(winner), p, colorA, colorB);
      MoveMarble(p, r, c, d);
      previousTurn := Some(p);
      return true;
    }

    /** Decides whether the move is legal. After the first checks it tries the
        push on the board to detect a repeated position, then puts the board
        and the counters back, but not the saved previous board nor a winner
        the trial push may have set; the edge and direction checks come after
        the trial. */
    method ValidateMove(p: Player, r: int, c: int, d: Direction) returns (ok: bool)
      requires Valid() && OnBoard(r, c)
      modifies this`board, this`previousBoard, this`winner
      modifies this`whiteCount, this`blackCount, this`redCount, this`captureA, this`captureB
      ensures Valid()
      ensures ok == Legal(old(board), old(previousBoard), old(winner), old(previousTurn), ColorOf(p), p, r, c, d)
      ensures board == old(board) && Counters() == old(Counters())
      ensures TrialRuns(old(board), old(winner), old(previousTurn), ColorOf(p), p, r, c) ==>
        && previousBoard == Some(old(board))
        && winner == WinnerAfterPush(old(board), r, c, d, old(Counters()), old(winner), p, colorA, colorB)
      ensures !TrialRuns(old(board), old(winner), old(previousTurn), ColorOf(p), p, r, c) ==>
        previousBoard == old(previousBoard) && winner == old(winner)
    {
      if winner != None || previousTurn == Some(p) {
        return false;
      }
      if p == PlayerA && board[r][c] != colorA {
        return false;
      }
      if p == PlayerB && board[r][c] != colorB {
        return false;
      }
      var repeated := TrialPush(p, r, c, d);
      if repeated {
        return false;
      }
      ok := DirectionChecks(board, ColorOf(p), r, c, d);
    }

    /** The repetition check: makes the move on the board, compares the result
        with the board from before the previous move, then puts the board and
        the counters back. The saved previous board and the winner keep what
        the trial push made of them. */
    method TrialPush(p: Player, r: int, c: int, d: Direction) returns (repeated: bool)
      requires Valid() && OnBoard(r, c) && board[r][c] == ColorOf(p)
      modifies this`board, this`previousBoard, this`winner
      modifies this`whiteCount, this`blackCount, this`redCount, this`captureA, this`captureB
      ensures Valid()
      ensures repeated == (old(previousBoard) == Some(Push(old(board), r, c, d)))
      ensures board == old(board) && Counters() == old(Counters())
      ensures previousBoard == Some(old(board))
      ensures winner == WinnerAfterPush(old(board), r, c, d, old(Counters()), old(winner), p, colorA, colorB)
    {
      var previous := previousBoard;
      var current := board;
      var counts := Counters();
      MoveMarble(p, r, c, d);
      repeated := previous == Some(board);
      Restore(current, counts);
    }

    /** Puts back the board and the five counters saved before a trial push. */
    method Restore(b: Grid, t: Tally)
      modifies this`board, this`whiteCount, this`blackCount, this`redCount, this`captureA, this`captureB
      ensures board == b && Counters() == t
    {
      board := b;
      whiteCount := t.white;
      blackCount := t.black;
      redCount := t.red;
      captureA := t.captureA;
      captureB := t.captureB;
    }

    /** Pushes the marble at (r, c) along d: saves the board as the previous
        board, shifts the line, and when the line ahead was full, counts the
        marble that fell off and checks for a winner. */
    method MoveMarble(p: Player, r: int, c: int, d: Direction)
      requires Valid() && OnBoard(r, c) && board[r][c] == ColorOf(p)
      modifies this`board, this`previousBoard, this`winner
      modifies this`whiteCount, this`blackCount, this`redCount, this`captureA, this`captureB
      ensures Valid()
      ensures board == Push(old(board), r, c, d)
      ensures previousBoard == Some(old(board))
      ensures Counters() == TallyAfterPush(old(board), r, c, d, old(Counters()), p)
      ensures winner == WinnerAfterPush(old(board), r, c, d, old(Counters()), old(winner), p, colorA, colorB)
    {
      previousBoard := Some(board);
      Shift(r, c, d);
      var prev := previousBoard.value;
      var space := RemovalSpace(prev, r, c, d);
      RemovalScanMatchesLine(prev, r, c, d);
      if Empty !in space {
        UpdateMarbleCount(d, p, r, c);
        UpdateWinner();
      }
      PushKeepsTallyInSync(prev, r, c, d, old(Counters()), p);
    }

    /** The push loop of direction d. */
    method Shift(r: int, c: int, d: Direction)
      requires WellFormed(board) && OnBoard(r, c) && previousBoard == Some(board)
      modifies this`board
      ensures board == Push(old(board), r, c, d)
    {
      match d {
        case Left => ShiftLeft(r, c);
        case Right => ShiftRight(r, c);
        case Forward => ShiftForward(r, c);
        case Backward => ShiftBackward(r, c);
      }
    }

    /** The Left loop: from the origin towards column 0, each cell receives the
        previous board's marble to its right, until an empty cell has been
        filled; then the origin is emptied. */
    method ShiftLeft(r: int, c: int)
      requires WellFormed(board) && OnBoard(r, c) && previousBoard == Some(board)
      modifies this`board
      ensures board == Push(old(board), r, c, Left)
    {
      ghost var g := board;
      var prev := previousBoard.value;
      var idx := c;
      ghost var m := 0;
      while idx > 0
        invariant 0 <= idx <= c && m == c - idx
        invariant Pushing(board, g, r, c, Left, m)
      {
        PushStep(board, g, r, c, Left, m, r, idx - 1, r, idx);
        if board[r][idx - 1] == Empty {
          board := board[r := board[r][idx - 1 := prev[r][idx]]];
          m := m + 1;
          break;
        }
        board := board[r := board[r][idx - 1 := prev[r][idx]]];
        idx := idx - 1;
        m := m + 1;
      }
      if !Pushed(board, g, r, c, Left, m) {
        PushingAtEdge(board, g, r, c, Left, m);
      }
      ShiftedIsPush(board, g, r, c, Left, m);
      board := board[r := board[r][c := Empty]];
    }

    /** The Right loop: from the origin towards column 6, each cell receives
        the previous board's marble to its left, until an empty cell has been
        filled; then the origin is emptied. */
    method ShiftRight(r: int, c: int)
      requires WellFormed(board) && OnBoard(r, c) && previousBoard == Some(board)
      modifies this`board
      ensures board == Push(old(board), r, c, Right)
    {
      ghost var g := board;
      var prev := previousBoard.value;
      var idx := c;
      ghost var m := 0;
      while idx < Size - 1
        invariant c <= idx <= Size - 1 && m == idx - c
        invariant Pushing(board, g, r, c, Right, m)
      {
        PushStep(board, g, r, c, Right, m, r, idx + 1, r, idx);
        if board[r][idx + 1] == Empty {
          board := board[r := board[r][idx + 1 := prev[r][idx]]];
          m := m + 1;
          break;
        }
        board := board[r := board[r][idx + 1 := prev[r][idx]]];
        idx := idx + 1;
        m := m + 1;
      }
      if !Pushed(board, g, r, c, Right, m) {
        PushingAtEdge(board, g, r, c, Right, m);
      }
      ShiftedIsPush(board, g, r, c, Right, m);
      board := board[r := board[r][c := Empty]];
    }

    /** The Forward loop: from the origin towards row 0, each cell receives the
        previous board's marble below it, until an empty cell has been filled;
        then the origin is emptied. */
    method ShiftForward(r: int, c: int)
      requires WellFormed(board) && OnBoard(r, c) && previousBoard == Some(board)
      modifies this`board
      ensures board == Push(old(board), r, c, Forward)
    {
      ghost var g := board;
      var prev := previousBoard.value;
      var idx := r;
      ghost var m := 0;
      while idx > 0
        invariant 0 <= idx <= r && m == r - idx
        invariant Pushing(board, g, r, c, Forward, m)
      {
        PushStep(board, g, r, c, Forward, m, idx - 1, c, idx, c);
        if board[idx - 1][c] == Empty {
          board := board[idx - 1 := board[idx - 1][c := prev[idx][c]]];
          m := m + 1;
          break;
        }
        board := board[idx - 1 := board[idx - 1][c := prev[idx][c]]];
        idx := idx - 1;
        m := m + 1;
      }
      if !Pushed(board, g, r, c, Forward, m) {
        PushingAtEdge(board, g, r, c, Forward, m);
      }
      ShiftedIsPush(board, g, r, c, Forward, m);
      board := board[r := board[r][c := Empty]];
    }

    /** The Backward loop: from the origin towards row 6, each cell receives
        the previous board's marble above it, until an empty cell has been
        filled. Unlike the other three loops, this one empties the origin at
        the start of every step, and once more after the loop. */
    method ShiftBackward(r: int, c: int)
      requires WellFormed(board) && OnBoard(r, c) && previousBoard == Some(board)
      modifies this`board
      ensures board == Push(old(board), r, c, Backward)
    {
      ghost var g := board;
      var prev := previousBoard.value;
      var idx := r;
      ghost var m := 0;
      while idx < Size - 1
        invariant r <= idx <= Size - 1 && m == idx - r
        invariant Pushing(board, g, r, c, Backward, m)
      {
        EmptyOriginKeepsPushing(board, g, r, c, Backward, m);
        board := board[r := board[r][c := Empty]];
        PushStep(board, g, r, c, Backward, m, idx + 1, c, idx, c);
        if board[idx + 1][c] == Empty {
          board := board[idx + 1 := board[idx + 1][c := prev[idx][c]]];
          m := m + 1;
          break;
        }
        board := board[idx + 1 := board[idx + 1][c := prev[idx][c]]];
        idx := idx + 1;
        m := m + 1;
      }
      if !Pushed(board, g, r, c, Backward, m) {
        PushingAtEdge(board, g, r, c, Backward, m);
      }
      ShiftedIsPush(board, g, r, c, Backward, m);
      board := board[r := board[r][c := Empty]];
    }

    /** Counts the marble pushed off the far edge in direction d, read from
        the previous board: a red one is captured by p, a white or black one
        is lost. */
    method UpdateMarbleCount(d: Direction, p: Player, r: int, c: int)
      requires previousBoard.Some? && WellFormed(previousBoard.value) && OnBoard(r, c)
      modifies this`whiteCount, this`blackCount, this`redCount, this`captureA, this`captureB
      ensures Counters() == RemoveMarble(old(Counters()), FarEdge(previousBoard.value, r, c, d), p)
    {
      var prev := previousBoard.value;
      var edge := match d
        case Left => prev[r][0]
        case Right => prev[r][Size - 1]
        case Forward => prev[0][c]
        case Backward => prev[Size - 1][c];
      if edge == Red {
        UpdateRedMarbleCount(p);
      }
      if edge == White {
        whiteCount := whiteCount - 1;
      }
      if edge == Black {
        blackCount := blackCount - 1;
      }
    }

    /** One more red marble captured by p, one fewer on the board. */
    method UpdateRedMarbleCount(p: Player)
      modifies this`redCount, this`captureA, this`captureB
      ensures Counters() == RemoveMarble(old(Counters()), Red, p)
    {
      if p == PlayerA {
        captureA := captureA + 1;
      }
      if p == PlayerB {
        captureB := captureB + 1;
      }
      redCount := redCount - 1;
    }

    /** The winner check on the current counters. */
    method UpdateWinner()
      requires ValidColors(colorA, colorB)
      modifies this`winner
      ensures winner == NextWinner(old(winner), Counters(), colorA, colorB)
    {
      if captureA > 6 {
        winner := Some(PlayerA);
      } else if captureB > 6 {
        winner := Some(PlayerB);
      }
      if blackCount == 0 && colorA == Black {
        winner := Some(PlayerB);
      } else if whiteCount == 0 && colorA == White {
        winner := Some(PlayerB);
      } else if blackCount == 0 && colorB == Black {
        winner := Some(PlayerA);
      } else if whiteCount == 0 && colorB == White {
        winner := Some(PlayerA);
      }
    }

    /** The player to move: nobody before the first move, and afterwards the
        player who did not make the last move. */
    function GetCurrentTurn(): (turn: Option<Player>)
      reads this
      ensures turn == None <==> previousTurn == None
      ensures forall q :: turn == Some(q) <==> previousTurn == Some(Other(q))
    {
      match previousTurn
      case None => None
      case Some(PlayerA) => Some(PlayerB)
      case Some(PlayerB) => Some(PlayerA)
    }

    /** The winner, if any; once there is one, no move is legal. */
    function GetWinner(): (w: Option<Player>)
      requires Valid()
      reads this
      ensures w == winner
      ensures w != None ==> forall q, i, j, d :: OnBoard(i, j) ==>
        !Legal(board, previousBoard, winner, previousTurn, ColorOf(q), q, i, j, d)
    {
      winner
    }

    /** Red marbles captured by p: what is left of the 13 red marbles once
        those on the board and those captured by the opponent are taken
        away. */
    function GetCaptured(p: Player): (n: int)
      requires Valid()
      reads this
      ensures n >= 0
      ensures n == 13 - Count(board, Red) - Captured(Counters(), Other(p))
    {
      if p == PlayerA then captureA else captureB
    }

    /** The content of cell (r, c); a marble found there is one of those the
        counters report as still on the board. */
    function GetMarble(r: int, c: int): (x: Cell)
      requires Valid() && OnBoard(r, c)
      reads this
      ensures x == board[r][c]
      ensures x != Empty ==> Remaining(Counters(), x) >= 1
    {
      CountPositive(board, r, c);
      board[r][c]
    }

    /** The white, black and red marbles on the board, in that order. */
    function GetMarbleCount(): (counts: (int, int, int))
      requires Valid()
      reads this
      ensures counts == (Count(board, White), Count(board, Black), Count(board, Red))
    {
      (whiteCount, blackCount, redCount)
    }
  }
}
