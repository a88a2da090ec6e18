/** The rules of Kuba as values: the five counters and how a push-off changes
    them, the winner check, move legality, and the scans of a line exactly as
    the rules engine writes them. */
module Rules {
  import opened Board

  datatype Option<T> = None | Some(value: T)

  /** The two players. Each is given one of the colours white and black when
      the game is created. */
  datatype Player = PlayerA | PlayerB

  function Other(p: Player): (q: Player)
    ensures q != p
  {
    if p == PlayerA then PlayerB else PlayerA
  }

  /** The two players hold the two distinct colours white and black. */
  predicate ValidColors(colorA: Cell, colorB: Cell) {
    (colorA == White && colorB == Black) || (colorA == Black && colorB == White)
  }

  /** The player whose marbles have colour x. */
  function Owner(x: Cell, colorA: Cell, colorB: Cell): (p: Player)
    requires ValidColors(colorA, colorB) && (x == White || x == Black)
    ensures (if p == PlayerA then colorA else colorB) == x
  {
    if x == colorA then PlayerA else PlayerB
  }

  /** The counters of a game: white, black and red marbles left on the board,
      and red marbles captured by each player. */
  datatype Tally = Tally(white: int, black: int, red: int, captureA: int, captureB: int)

  function Captured(t: Tally, p: Player): int {
    if p == PlayerA then t.captureA else t.captureB
  }

  function Remaining(t: Tally, x: Cell): int {
    match x
    case White => t.white
    case Black => t.black
    case Red => t.red
    case Empty => 0
  }

  /** The counters agree with the board, and every red marble is either on
      the board or captured by one of the players. */
  predicate InSync(g: Grid, t: Tally) {
    && t.white == Count(g, White)
    && t.black == Count(g, Black)
    && t.red == Count(g, Red)
    && t.captureA >= 0 && t.captureB >= 0
    && t.red + t.captureA + t.captureB == 13
  }

  /** The starting counters agree with the starting layout. */
  lemma InitialInSync(g: Grid)
    requires g == InitialGrid()
    ensures InSync(g, Tally(8, 8, 13, 0, 0))
  {
    InitialCounts();
  }

  /** The counters after marble e has been pushed off the board by player p:
      a red marble is captured by p, a white or black one is simply lost. */
  function RemoveMarble(t: Tally, e: Cell, p: Player): (t': Tally)
    ensures forall x :: x != Empty ==> Remaining(t', x) == Remaining(t, x) - (if x == e then 1 else 0)
    ensures Captured(t', p) == Captured(t, p) + (if e == Red then 1 else 0)
    ensures Captured(t', Other(p)) == Captured(t, Other(p))
  {
    match e
    case Red =>
      if p == PlayerA then t.(captureA := t.captureA + 1, red := t.red - 1)
      else t.(captureB := t.captureB + 1, red := t.red - 1)
    case White => t.(white := t.white - 1)
    case Black => t.(black := t.black - 1)
    case Empty => t
  }

  /** The winner after a push-off. The capture check runs first: a player with
      more than 6 captured red marbles wins. The elimination check runs after
      it and may overrule it: when a colour has no marble left, the player who
      does not own that colour wins (should both colours be gone, the check of
      player A's colour comes first and player B wins). Otherwise the winner
      slot keeps its value. */
  function NextWinner(w: Option<Player>, t: Tally, colorA: Cell, colorB: Cell): (w': Option<Player>)
    requires ValidColors(colorA, colorB)
    ensures t.black == 0 && t.white != 0 ==> w' == Some(Other(Owner(Black, colorA, colorB)))
    ensures t.white == 0 && t.black != 0 ==> w' == Some(Other(Owner(White, colorA, colorB)))
    ensures t.white == 0 && t.black == 0 ==> w' == Some(PlayerB)
    ensures t.white != 0 && t.black != 0 && t.captureA > 6 ==> w' == Some(PlayerA)
    ensures t.white != 0 && t.black != 0 && t.captureA <= 6 && t.captureB > 6 ==> w' == Some(PlayerB)
    ensures t.white != 0 && t.black != 0 && t.captureA <= 6 && t.captureB <= 6 ==> w' == w
  {
    var byCapture :=
      if t.captureA > 6 then Some(PlayerA)
      else if t.captureB > 6 then Some(PlayerB)
      else w;
    if t.black == 0 && colorA == Black then Some(PlayerB)
    else if t.white == 0 && colorA == White then Some(PlayerB)
    else if t.black == 0 && colorB == Black then Some(PlayerA)
    else if t.white == 0 && colorB == White then Some(PlayerA)
    else byCapture
  }

  /** Checking the winner twice on the same counters changes nothing. */
  lemma NextWinnerIdempotent(w: Option<Player>, t: Tally, colorA: Cell, colorB: Cell)
    requires ValidColors(colorA, colorB)
    ensures NextWinner(NextWinner(w, t, colorA, colorB), t, colorA, colorB) == NextWinner(w, t, colorA, colorB)
  {
  }

  /** The counters after player p pushes the marble at (r, c) along d. */
  function TallyAfterPush(g: Grid, r: int, c: int, d: Direction, t: Tally, p: Player): (t': Tally)
    requires WellFormed(g) && OnBoard(r, c)
    ensures t'.red + t'.captureA + t'.captureB == t.red + t.captureA + t.captureB
    ensures Captured(t', Other(p)) == Captured(t, Other(p)) && Captured(t', p) >= Captured(t, p)
    ensures forall x :: x != Empty ==> Remaining(t', x) <= Remaining(t, x)
  {
    if Removes(g, r, c, d) then RemoveMarble(t, FarEdge(g, r, c, d), p) else t
  }

  /** The winner slot after player p pushes the marble at (r, c) along d: the
      winner is checked only when a marble left the board. */
  function WinnerAfterPush(g: Grid, r: int, c: int, d: Direction, t: Tally, w: Option<Player>, p: Player,
                           colorA: Cell, colorB: Cell): (w': Option<Player>)
    requires WellFormed(g) && OnBoard(r, c) && ValidColors(colorA, colorB)
    ensures w' != w ==> Removes(g, r, c, d) && w' != None
  {
    if Removes(g, r, c, d) then NextWinner(w, TallyAfterPush(g, r, c, d, t, p), colorA, colorB) else w
  }

  /** Repeating the same push from the same counters gives the same winner. */
  lemma WinnerAfterPushIdempotent(g: Grid, r: int, c: int, d: Direction, t: Tally, w: Option<Player>, p: Player,
                                  colorA: Cell, colorB: Cell)
    requires WellFormed(g) && OnBoard(r, c) && ValidColors(colorA, colorB)
    ensures
      var w1 := WinnerAfterPush(g, r, c, d, t, w, p, colorA, colorB);
      WinnerAfterPush(g, r, c, d, t, w1, p, colorA, colorB) == w1
  {
    if Removes(g, r, c, d) {
      NextWinnerIdempotent(w, TallyAfterPush(g, r, c, d, t, p), colorA, colorB);
    }
  }

  /** The counters stay equal to the board's contents across a push, and the
      red marbles on the board plus the captured ones stay 13. */
  lemma PushKeepsTallyInSync(g: Grid, r: int, c: int, d: Direction, t: Tally, p: Player)
    requires WellFormed(g) && OnBoard(r, c) && InSync(g, t)
    ensures InSync(Push(g, r, c, d), TallyAfterPush(g, r, c, d, t, p))
  {
    PushCount(g, r, c, d, White);
    PushCount(g, r, c, d, Black);
    PushCount(g, r, c, d, Red);
    if Removes(g, r, c, d) {
      var t' := RemoveMarble(t, FarEdge(g, r, c, d), p);
      assert Remaining(t', White) == Remaining(t, White) - (if FarEdge(g, r, c, d) == White then 1 else 0);
      assert Remaining(t', Black) == Remaining(t, Black) - (if FarEdge(g, r, c, d) == Black then 1 else 0);
      assert Remaining(t', Red) == Remaining(t, Red) - (if FarEdge(g, r, c, d) == Red then 1 else 0);
      assert Captured(t', p) + Captured(t', Other(p)) == t'.captureA + t'.captureB;
    }
  }

  /** A marble leaves the board only when the line ahead of the origin is
      full, and then it is the far-edge marble, of whichever colour. */
  lemma MarbleLeavesOnlyWhenLineFull(g: Grid, r: int, c: int, d: Direction, x: Cell)
    requires WellFormed(g) && OnBoard(r, c) && x != Empty
    ensures Count(Push(g, r, c, d), x) <= Count(g, x)
    ensures Count(Push(g, r, c, d), x) < Count(g, x) <==> Removes(g, r, c, d) && FarEdge(g, r, c, d) == x
  {
    PushCount(g, r, c, d, x);
  }

  /** The first checks of a move: no winner yet, the mover did not make the
      previous move, and the origin holds the mover's colour `own`. Only a
      move that passes them is tried out on the board. */
  predicate TrialRuns(g: Grid, w: Option<Player>, last: Option<Player>, own: Cell, p: Player, r: int, c: int)
    requires WellFormed(g) && OnBoard(r, c)
  {
    w == None && last != Some(p) && g[r][c] == own
  }

  /** The cell next to the origin on the side opposite to d. */
  function Behind(g: Grid, r: int, c: int, d: Direction): Cell
    requires WellFormed(g) && OnBoard(r, c) && RayLength(r, c, Opposite(d)) > 1
  {
    Line(g, r, c, Opposite(d))[1]
  }

  /** The per-direction checks: the origin is not on the edge it is pushed
      towards; the cell behind it is empty unless the origin is on the opposite
      edge; and a full line must not push off a marble of the mover's colour. */
  predicate DirectionAllows(g: Grid, r: int, c: int, d: Direction, own: Cell)
    requires WellFormed(g) && OnBoard(r, c)
  {
    && RayLength(r, c, d) > 1
    && (RayLength(r, c, Opposite(d)) == 1 || Behind(g, r, c, d) == Empty)
    && !(Removes(g, r, c, d) && FarEdge(g, r, c, d) == own)
  }

  /** The per-direction checks as the rules engine writes them, one
      direction at a time: the edge test, the test of the cell behind, and the
      self push-off test on the scanned cells and the far-edge cell. */
  predicate SourceAllows(g: Grid, r: int, c: int, d: Direction, own: Cell)
    requires WellFormed(g) && OnBoard(r, c)
  {
    match d
    case Left =>
      c != 0 && (c == Size - 1 || g[r][c + 1] == Empty) && !(Empty !in Ahead(g, r, c, d) && g[r][0] == own)
    case Right =>
      c != Size - 1 && (c == 0 || g[r][c - 1] == Empty) && !(Empty !in Ahead(g, r, c, d) && g[r][Size - 1] == own)
    case Forward =>
      r != 0 && (r == Size - 1 || g[r + 1][c] == Empty) && !(Empty !in Ahead(g, r, c, d) && g[0][c] == own)
    case Backward =>
      r != Size - 1 && (r == 0 || g[r - 1][c] == Empty) && !(Empty !in Ahead(g, r, c, d) && g[Size - 1][c] == own)
  }

  /** The four hand-written direction checks are one rule: the origin is not
      on the edge it is pushed towards, the cell behind it is empty or off the
      board, and a full line does not push off a marble of the mover's colour. */
  lemma SourceChecksMatchRule(g: Grid, r: int, c: int, d: Direction, own: Cell)
    requires WellFormed(g) && OnBoard(r, c)
    ensures SourceAllows(g, r, c, d, own) <==> DirectionAllows(g, r, c, d, own)
  {
    AheadMatchesLine(g, r, c, d);
    EdgeCells(g, r, c, d);
  }

  /** The cells the direction checks look at, written out per direction: the
      origin is on the edge d pushes towards, or on the opposite edge; the
      cell behind the origin; the far-edge cell. */
  lemma EdgeCells(g: Grid, r: int, c: int, d: Direction)
    requires WellFormed(g) && OnBoard(r, c)
    ensures RayLength(r, c, d) == 1 <==> match d
      case Left => c == 0
      case Right => c == Size - 1
      case Forward => r == 0
      case Backward => r == Size - 1
    ensures RayLength(r, c, Opposite(d)) == 1 <==> match d
      case Left => c == Size - 1
      case Right => c == 0
      case Forward => r == Size - 1
      case Backward => r == 0
    ensures RayLength(r, c, Opposite(d)) > 1 ==> Behind(g, r, c, d) == match d
      case Left => g[r][c + 1]
      case Right => g[r][c - 1]
      case Forward => g[r + 1][c]
      case Backward => g[r - 1][c]
    ensures FarEdge(g, r, c, d) == match d
      case Left => g[r][0]
      case Right => g[r][Size - 1]
      case Forward => g[0][c]
      case Backward => g[Size - 1][c]
  {
    var n := RayLength(r, c, d);
    assert FarEdge(g, r, c, d) == g[RayRow(r, d, n - 1)][RayCol(c, d, n - 1)];
  }

  /** A legal move: it passes the first checks, its push does not recreate the
      board from before the previous move (`prev`, None before any move), and
      it passes the per-direction checks. */
  predicate Legal(g: Grid, prev: Option<Grid>, w: Option<Player>, last: Option<Player>, own: Cell,
                  p: Player, r: int, c: int, d: Direction)
    requires WellFormed(g) && OnBoard(r, c)
  {
    && TrialRuns(g, w, last, own, p, r, c)
    && prev != Some(Push(g, r, c, d))
    && DirectionAllows(g, r, c, d, own)
  }

  /** No self push-off: among moves that pass every other check and push a
      marble off, exactly those that push off a marble not of the mover's
      colour are legal. */
  lemma NoSelfPushOff(g: Grid, prev: Option<Grid>, w: Option<Player>, last: Option<Player>, own: Cell,
                      p: Player, r: int, c: int, d: Direction)
    requires WellFormed(g) && OnBoard(r, c)
    requires TrialRuns(g, w, last, own, p, r, c) && prev != Some(Push(g, r, c, d))
    requires RayLength(r, c, d) > 1 && (RayLength(r, c, Opposite(d)) == 1 || Behind(g, r, c, d) == Empty)
    requires Removes(g, r, c, d)
    ensures Legal(g, prev, w, last, own, p, r, c, d) <==> FarEdge(g, r, c, d) != own
  {
  }

  /** A legal move that pushes a marble off pushes off an opponent's marble or
      a red one. */
  lemma PushedOffMarbleIsForeign(g: Grid, prev: Option<Grid>, w: Option<Player>, last: Option<Player>,
                                 own: Cell, p: Player, r: int, c: int, d: Direction)
    requires WellFormed(g) && OnBoard(r, c) && (own == White || own == Black)
    requires Legal(g, prev, w, last, own, p, r, c, d) && Removes(g, r, c, d)
    ensures FarEdge(g, r, c, d) == Red || FarEdge(g, r, c, d) == (if own == White then Black else White)
  {
    var line := Line(g, r, c, d);
    assert line[1..][|line| - 2] == line[|line| - 1];
  }

  /** A legal move leaves its origin and the cell behind it as the rules
      demand: the origin holds the mover's colour and is not on the edge it
      is pushed towards, and the cell behind it is empty unless the origin is
      on the opposite edge. */
  lemma LegalMoveOrigin(g: Grid, prev: Option<Grid>, w: Option<Player>, last: Option<Player>, own: Cell,
                        p: Player, r: int, c: int, d: Direction)
    requires WellFormed(g) && OnBoard(r, c) && Legal(g, prev, w, last, own, p, r, c, d)
    ensures g[r][c] == own
    ensures match d
      case Left => c != 0 && (c == Size - 1 || g[r][c + 1] == Empty)
      case Right => c != Size - 1 && (c == 0 || g[r][c - 1] == Empty)
      case Forward => r != 0 && (r == Size - 1 || g[r + 1][c] == Empty)
      case Backward => r != Size - 1 && (r == 0 || g[r - 1][c] == Empty)
  {
    SourceChecksMatchRule(g, r, c, d, own);
  }

  /** Turn alternation and the end of the game: no move is legal once there is
      a winner, nor for the player who made the previous move. */
  lemma NoMoveAfterWinOrTwice(g: Grid, prev: Option<Grid>, w: Option<Player>, last: Option<Player>, own: Cell,
                              p: Player, r: int, c: int, d: Direction)
    requires WellFormed(g) && OnBoard(r, c)
    requires w != None || last == Some(p)
    ensures !Legal(g, prev, w, last, own, p, r, c, d)
  {
  }

  /** The cells after the origin scanned by the legality check, as the rules
      engine slices them: part of the row (to the left or right of the origin)
      or part of the column (above or below it). */
  function Ahead(g: Grid, r: int, c: int, d: Direction): (ahead: seq<Cell>)
    requires WellFormed(g) && OnBoard(r, c)
    ensures |ahead| == RayLength(r, c, d) - 1
  {
    match d
    case Left => g[r][..c]
    case Right => g[r][c + 1..]
    case Forward => seq(r, i requires 0 <= i < r => g[i][c])
    case Backward => seq(Size - 1 - r, k requires 0 <= k < Size - 1 - r => g[r + 1 + k][c])
  }

  /** The cells scanned by the move to decide whether a marble falls off.
      They are those of Ahead, except that the Backward scan starts at the
      origin itself. */
  function RemovalScan(g: Grid, r: int, c: int, d: Direction): (scan: seq<Cell>)
    requires WellFormed(g) && OnBoard(r, c)
    ensures |scan| == RayLength(r, c, d) - (if d == Backward then 0 else 1)
  {
    match d
    case Backward => seq(Size - r, k requires 0 <= k < Size - r => g[r + k][c])
    case _ => Ahead(g, r, c, d)
  }

  /** The legality check's scan finds an empty cell exactly when the line
      ahead of the origin has one. */
  lemma AheadMatchesLine(g: Grid, r: int, c: int, d: Direction)
    requires WellFormed(g) && OnBoard(r, c)
    ensures Empty !in Ahead(g, r, c, d) <==> Removes(g, r, c, d)
  {
    var line, ahead := Line(g, r, c, d), Ahead(g, r, c, d);
    match d {
      case Left =>
        assert forall j :: 0 <= j < |ahead| ==> ahead[j] == line[|ahead| - j];
        MirroredScan(ahead, line);
      case Right =>
        assert ahead == line[1..];
      case Forward =>
        assert forall j :: 0 <= j < |ahead| ==> ahead[j] == line[|ahead| - j];
        MirroredScan(ahead, line);
      case Backward =>
        assert ahead == line[1..];
    }
  }

  /** A scan that reads the cells after the origin from the far edge back
      finds an empty cell exactly when the line has one after the origin. */
  lemma MirroredScan(scan: seq<Cell>, line: seq<Cell>)
    requires |scan| + 1 == |line|
    requires forall j :: 0 <= j < |scan| ==> scan[j] == line[|scan| - j]
    ensures Empty in scan <==> Empty in line[1..]
  {
    if Empty in scan {
      var j :| 0 <= j < |scan| && scan[j] == Empty;
      assert line[1..][|scan| - j - 1] == Empty;
    }
    if Empty in line[1..] {
      var k :| 0 <= k < |scan| && line[1..][k] == Empty;
      assert scan[|scan| - 1 - k] == Empty;
    }
  }

  /** The move's scan agrees with the legality check's for every direction
      when the origin holds a marble; the Backward scan, which also looks at
      the origin, differs only when the origin is empty. */
  lemma RemovalScanMatchesLine(g: Grid, r: int, c: int, d: Direction)
    requires WellFormed(g) && OnBoard(r, c)
    ensures d != Backward || g[r][c] != Empty ==> (Empty !in RemovalScan(g, r, c, d) <==> Removes(g, r, c, d))
    ensures d == Backward && g[r][c] == Empty ==> Empty in RemovalScan(g, r, c, d)
  {
    AheadMatchesLine(g, r, c, d);
    if d == Backward {
      BackwardScanStartsAtOrigin(g, r, c);
      var ahead := Ahead(g, r, c, d);
      assert Empty in [g[r][c]] + ahead <==> g[r][c] == Empty || Empty in ahead;
    }
  }

  /** The Backward removal scan is the origin followed by the legality
      check's scan. */
  lemma BackwardScanStartsAtOrigin(g: Grid, r: int, c: int)
    requires WellFormed(g) && OnBoard(r, c)
    ensures RemovalScan(g, r, c, Backward) == [g[r][c]] + Ahead(g, r, c, Backward)
  {
  }

  /** A move that is rejected after its trial can still end the game: a
      player whose colour has a single marble left, on column 0, who tries
      to push it Left (the origin is on the edge it is pushed towards) has the
      move rejected, yet the trial push removed that marble, so the winner
      check handed the game to the opponent. */
  lemma EdgeTrialCanEndGame(g: Grid, prev: Option<Grid>, t: Tally, r: int)
    requires WellFormed(g) && 0 <= r < Size && g[r][0] == White
    requires t.white == 1 && t.black > 0
    ensures TrialRuns(g, None, Some(PlayerB), White, PlayerA, r, 0)
    ensures !Legal(g, prev, None, Some(PlayerB), White, PlayerA, r, 0, Left)
    ensures WinnerAfterPush(g, r, 0, Left, t, None, PlayerA, White, Black) == Some(PlayerB)
  {
    assert Line(g, r, 0, Left) == [White];
  }
}
