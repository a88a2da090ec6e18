/** The Kuba board: a 7x7 grid of cells, the ray of cells that runs from an
    origin to the edge in a push direction, the pure specification of a push,
    and the marble counts of a board. */
module Board {

  /** What a cell holds: a white, black or red marble, or nothing. */
  datatype Cell = White | Black | Red | Empty

  /** Push directions. Left and Right run along a row (towards column 0 and
      column 6), Forward and Backward along a column (towards row 0 and row 6). */
  datatype Direction = Left | Right | Forward | Backward

  /** Rows and columns are numbered 0 to Size - 1. */
  const Size := 7

  /** A board, row by row; row 0 is the top row. */
  type Grid = seq<seq<Cell>>

  predicate WellFormed(g: Grid) {
    |g| == Size && forall i :: 0 <= i < Size ==> |g[i]| == Size
  }

  predicate OnBoard(r: int, c: int) {
    0 <= r < Size && 0 <= c < Size
  }

  function Opposite(d: Direction): (o: Direction)
    ensures o != d
  {
    match d
    case Left => Right
    case Right => Left
    case Forward => Backward
    case Backward => Forward
  }

  /** Number of cells from (r, c) to the edge that d pushes towards, (r, c) included. */
  function RayLength(r: int, c: int, d: Direction): (n: int)
    requires OnBoard(r, c)
    ensures 1 <= n <= Size
  {
    match d
    case Left => c + 1
    case Right => Size - c
    case Forward => r + 1
    case Backward => Size - r
  }

  /** Row of the k-th cell of the ray from row r in direction d (k = 0 is the origin). */
  function RayRow(r: int, d: Direction, k: int): int {
    match d
    case Forward => r - k
    case Backward => r + k
    case _ => r
  }

  /** Column of the k-th cell of the ray from column c in direction d. */
  function RayCol(c: int, d: Direction, k: int): int {
    match d
    case Left => c - k
    case Right => c + k
    case _ => c
  }

  /** Position of (i, j) on the ray from (r, c) in direction d, or -1 when the
      cell is not on that ray. */
  function RayIndex(r: int, c: int, d: Direction, i: int, j: int): (k: int)
    requires OnBoard(r, c) && OnBoard(i, j)
    ensures -1 <= k < RayLength(r, c, d)
    ensures k >= 0 ==> RayRow(r, d, k) == i && RayCol(c, d, k) == j
    ensures k < 0 ==> forall k' :: 0 <= k' < RayLength(r, c, d) ==> RayRow(r, d, k') != i || RayCol(c, d, k') != j
  {
    match d
    case Left => if i == r && j <= c then c - j else -1
    case Right => if i == r && c <= j then j - c else -1
    case Forward => if j == c && i <= r then r - i else -1
    case Backward => if j == c && r <= i then i - r else -1
  }

  /** The ray's k-th cell is on the board, and the ray visits it exactly once. */
  lemma RayCell(r: int, c: int, d: Direction, k: int)
    requires OnBoard(r, c) && 0 <= k < RayLength(r, c, d)
    ensures OnBoard(RayRow(r, d, k), RayCol(c, d, k))
    ensures RayIndex(r, c, d, RayRow(r, d, k), RayCol(c, d, k)) == k
  {
  }

  /** The cells from the origin (index 0) to the edge in direction d. */
  function Line(g: Grid, r: int, c: int, d: Direction): (line: seq<Cell>)
    requires WellFormed(g) && OnBoard(r, c)
    ensures |line| == RayLength(r, c, d) && line[0] == g[r][c]
  {
    seq(RayLength(r, c, d), k requires 0 <= k < RayLength(r, c, d) =>
      RayCell(r, c, d, k);
      g[RayRow(r, d, k)][RayCol(c, d, k)])
  }

  /** First index at or after k whose cell is empty, or |line| when there is none. */
  function FirstEmptyFrom(line: seq<Cell>, k: int): (s: int)
    requires 0 <= k <= |line|
    ensures k <= s <= |line|
    ensures s < |line| ==> line[s] == Empty
    ensures forall j :: k <= j < s ==> line[j] != Empty
    decreases |line| - k
  {
    if k == |line| then k
    else if line[k] == Empty then k
    else FirstEmptyFrom(line, k + 1)
  }

  /** Where a push stops: the first empty cell after the origin, or |line|
      when the line is full and its last marble falls off the board. */
  function StopIndex(line: seq<Cell>): (s: int)
    requires |line| >= 1
    ensures 1 <= s <= |line|
    ensures s < |line| ==> line[s] == Empty
    ensures forall j :: 1 <= j < s ==> line[j] != Empty
    ensures s == |line| <==> Empty !in line[1..]
  {
    var s := FirstEmptyFrom(line, 1);
    assert s < |line| ==> line[1..][s - 1] == Empty;
    s
  }

  /** A push off the board happens exactly when no cell ahead of the origin is empty. */
  predicate PushesOff(line: seq<Cell>)
    requires |line| >= 1
  {
    Empty !in line[1..]
  }

  /** The line after a push: the origin becomes empty, every marble from the
      origin up to the first empty cell moves one step towards the edge (the
      last one falls off when there is no empty cell), the rest stays. */
  function ShiftLine(line: seq<Cell>): (shifted: seq<Cell>)
    requires |line| >= 1
    ensures |shifted| == |line|
  {
    var s := StopIndex(line);
    seq(|line|, k requires 0 <= k < |line| =>
      if k == 0 then Empty else if k <= s then line[k - 1] else line[k])
  }

  /** A push moves marbles around and never creates or destroys one, except
      for the marble at the edge, which a full line pushes off the board. */
  lemma {:induction false} ShiftLineMarbles(line: seq<Cell>)
    requires |line| >= 1
    ensures !PushesOff(line) ==> multiset(ShiftLine(line)) == multiset(line)
    ensures PushesOff(line) ==>
      multiset(ShiftLine(line)) + multiset{line[|line| - 1]} == multiset(line) + multiset{Empty}
  {
    var n, s, sh := |line|, StopIndex(line), ShiftLine(line);
    if s < n {
      var front, back := line[..s], line[s + 1..];
      assert sh == [Empty] + front + back;
      assert line == front + [Empty] + back;
      assert multiset(sh) == multiset{Empty} + multiset(front) + multiset(back);
      assert multiset(line) == multiset(front) + multiset{Empty} + multiset(back);
    } else {
      var front := line[..n - 1];
      assert sh == [Empty] + front;
      assert line == front + [line[n - 1]];
      assert multiset(sh) == multiset{Empty} + multiset(front);
      assert multiset(line) == multiset(front) + multiset{line[n - 1]};
    }
  }

  /** g with the first m cells of the ray from (r, c) replaced by vals[0..m]. */
  function Overwrite(g: Grid, r: int, c: int, d: Direction, vals: seq<Cell>, m: int): (o: Grid)
    requires WellFormed(g) && OnBoard(r, c)
    requires |vals| == RayLength(r, c, d) && 0 <= m <= |vals|
    ensures WellFormed(o)
  {
    seq(Size, i requires 0 <= i < Size =>
      seq(Size, j requires 0 <= j < Size =>
        var k := RayIndex(r, c, d, i, j);
        if 0 <= k < m then vals[k] else g[i][j]))
  }

  /** The board after pushing the marble at (r, c) in direction d: the ray
      from (r, c) to the edge is shifted as ShiftLine says; every cell off
      that ray keeps its marble. */
  function Push(g: Grid, r: int, c: int, d: Direction): (p: Grid)
    requires WellFormed(g) && OnBoard(r, c)
    ensures WellFormed(p)
  {
    var line := Line(g, r, c, d);
    Overwrite(g, r, c, d, ShiftLine(line), |line|)
  }

  /** A push ejects a marble exactly when the line ahead of the origin is full. */
  predicate Removes(g: Grid, r: int, c: int, d: Direction)
    requires WellFormed(g) && OnBoard(r, c)
  {
    PushesOff(Line(g, r, c, d))
  }

  /** The cell on the edge that d pushes towards, in the origin's row or column. */
  function FarEdge(g: Grid, r: int, c: int, d: Direction): Cell
    requires WellFormed(g) && OnBoard(r, c)
  {
    Line(g, r, c, d)[RayLength(r, c, d) - 1]
  }

  /** The k-th cell of the ray after a push is the k-th cell of the shifted line. */
  lemma PushOnRay(g: Grid, r: int, c: int, d: Direction, k: int)
    requires WellFormed(g) && OnBoard(r, c) && 0 <= k < RayLength(r, c, d)
    ensures OnBoard(RayRow(r, d, k), RayCol(c, d, k))
    ensures Push(g, r, c, d)[RayRow(r, d, k)][RayCol(c, d, k)] == ShiftLine(Line(g, r, c, d))[k]
    ensures ShiftLine(Line(g, r, c, d))[k] ==
      if k == 0 then Empty else if k <= StopIndex(Line(g, r, c, d)) then Line(g, r, c, d)[k - 1] else Line(g, r, c, d)[k]
  {
    RayCell(r, c, d, k);
  }

  /** A push leaves every cell off the ray as it was. */
  lemma PushOffRay(g: Grid, r: int, c: int, d: Direction, i: int, j: int)
    requires WellFormed(g) && OnBoard(r, c) && OnBoard(i, j) && RayIndex(r, c, d, i, j) < 0
    ensures Push(g, r, c, d)[i][j] == g[i][j]
  {
  }

  /** The shape of a push: the origin is emptied; every marble from the origin
      up to the first empty cell moves one step along d; that first empty cell
      is now filled; cells beyond it and cells off the ray keep their marble. */
  lemma PushShape(g: Grid, r: int, c: int, d: Direction)
    requires WellFormed(g) && OnBoard(r, c) && g[r][c] != Empty
    ensures Push(g, r, c, d)[r][c] == Empty
    ensures forall k :: 1 <= k < RayLength(r, c, d) && k <= StopIndex(Line(g, r, c, d)) ==>
      Push(g, r, c, d)[RayRow(r, d, k)][RayCol(c, d, k)] == Line(g, r, c, d)[k - 1]
    ensures StopIndex(Line(g, r, c, d)) < RayLength(r, c, d) ==>
      var s := StopIndex(Line(g, r, c, d));
      Push(g, r, c, d)[RayRow(r, d, s)][RayCol(c, d, s)] != Empty
    ensures forall k :: StopIndex(Line(g, r, c, d)) < k < RayLength(r, c, d) ==>
      Push(g, r, c, d)[RayRow(r, d, k)][RayCol(c, d, k)] == Line(g, r, c, d)[k]
    ensures forall i, j :: OnBoard(i, j) && RayIndex(r, c, d, i, j) < 0 ==> Push(g, r, c, d)[i][j] == g[i][j]
  {
    var line, p := Line(g, r, c, d), Push(g, r, c, d);
    var s := StopIndex(line);
    PushOnRay(g, r, c, d, 0);
    forall k | 1 <= k < |line| && k <= s
      ensures p[RayRow(r, d, k)][RayCol(c, d, k)] == line[k - 1]
    {
      PushOnRay(g, r, c, d, k);
    }
    forall k | s < k < |line|
      ensures p[RayRow(r, d, k)][RayCol(c, d, k)] == line[k]
    {
      PushOnRay(g, r, c, d, k);
    }
    if s < |line| {
      assert line[s - 1] != Empty;
      assert p[RayRow(r, d, s)][RayCol(c, d, s)] == line[s - 1];
    }
    forall i, j | OnBoard(i, j) && RayIndex(r, c, d, i, j) < 0
      ensures p[i][j] == g[i][j]
    {
      PushOffRay(g, r, c, d, i, j);
    }
  }

  /** A push changes the board whenever the origin holds a marble. */
  lemma PushChangesBoard(g: Grid, r: int, c: int, d: Direction)
    requires WellFormed(g) && OnBoard(r, c) && g[r][c] != Empty
    ensures Push(g, r, c, d) != g
  {
    PushShape(g, r, c, d);
  }

  /** Two well-formed boards with the same cells are equal. */
  lemma GridsEqual(a: Grid, b: Grid)
    requires WellFormed(a) && WellFormed(b)
    requires forall i, j :: OnBoard(i, j) ==> a[i][j] == b[i][j]
    ensures a == b
  {
    forall i | 0 <= i < Size
      ensures a[i] == b[i]
    {
      assert forall j :: 0 <= j < Size ==> a[i][j] == b[i][j];
    }
  }

  /** Number of cells of g that hold x. */
  function Count(g: Grid, x: Cell): nat {
    if |g| == 0 then 0 else multiset(g[0])[x] + Count(g[1..], x)
  }

  /** Replacing one row changes the count by the difference of the rows' counts. */
  lemma {:induction false} CountSetRow(g: Grid, i: int, row: seq<Cell>, x: Cell)
    requires 0 <= i < |g|
    ensures Count(g[i := row], x) == Count(g, x) - multiset(g[i])[x] + multiset(row)[x]
    decreases |g|
  {
    if i > 0 {
      assert g[i := row][1..] == g[1..][i - 1 := row];
      CountSetRow(g[1..], i - 1, row, x);
    } else {
      assert g[i := row][1..] == g[1..];
    }
  }

  /** Writing one cell changes the count by at most one, as the old and new contents say. */
  lemma CountSetCell(g: Grid, i: int, j: int, v: Cell, x: Cell)
    requires 0 <= i < |g| && 0 <= j < |g[i]|
    ensures Count(g[i := g[i][j := v]], x)
      == Count(g, x) - (if g[i][j] == x then 1 else 0) + (if v == x then 1 else 0)
  {
    var row := g[i];
    CountSetRow(g, i, row[j := v], x);
    assert row == row[..j] + [row[j]] + row[j + 1..];
    assert row[j := v] == row[..j] + [v] + row[j + 1..];
    assert multiset(row)[x] == multiset(row[..j])[x] + multiset([row[j]])[x] + multiset(row[j + 1..])[x];
    assert multiset(row[j := v])[x] == multiset(row[..j])[x] + multiset([v])[x] + multiset(row[j + 1..])[x];
  }

  /** Overwriting one more cell of the ray is a single-cell write. */
  lemma OverwriteStep(g: Grid, r: int, c: int, d: Direction, vals: seq<Cell>, m: int)
    requires WellFormed(g) && OnBoard(r, c)
    requires |vals| == RayLength(r, c, d) && 0 < m <= |vals|
    ensures OnBoard(RayRow(r, d, m - 1), RayCol(c, d, m - 1))
    ensures
      var prior, i, j := Overwrite(g, r, c, d, vals, m - 1), RayRow(r, d, m - 1), RayCol(c, d, m - 1);
      && prior[i][j] == g[i][j]
      && Overwrite(g, r, c, d, vals, m) == prior[i := prior[i][j := vals[m - 1]]]
  {
    RayCell(r, c, d, m - 1);
    var prior, i, j := Overwrite(g, r, c, d, vals, m - 1), RayRow(r, d, m - 1), RayCol(c, d, m - 1);
    var o, w := Overwrite(g, r, c, d, vals, m), prior[i := prior[i][j := vals[m - 1]]];
    forall i', j' | OnBoard(i', j')
      ensures o[i'][j'] == w[i'][j']
    {
      if i' == i && j' == j {
      } else {
        assert RayIndex(r, c, d, i', j') != m - 1;
      }
    }
    GridsEqual(o, w);
  }

  /** Overwriting the first m cells of a ray trades their old contents for the new ones. */
  lemma {:induction false} OverwriteCount(g: Grid, r: int, c: int, d: Direction, vals: seq<Cell>, m: int, x: Cell)
    requires WellFormed(g) && OnBoard(r, c)
    requires |vals| == RayLength(r, c, d) && 0 <= m <= |vals|
    ensures Count(Overwrite(g, r, c, d, vals, m), x)
      == Count(g, x) - multiset(Line(g, r, c, d)[..m])[x] + multiset(vals[..m])[x]
  {
    if m == 0 {
      OverwriteNothing(g, r, c, d, vals);
    } else {
      var line := Line(g, r, c, d);
      var prior := Overwrite(g, r, c, d, vals, m - 1);
      OverwriteCount(g, r, c, d, vals, m - 1, x);
      OverwriteStep(g, r, c, d, vals, m);
      var i, j := RayRow(r, d, m - 1), RayCol(c, d, m - 1);
      assert prior[i][j] == line[m - 1];
      CountSetCell(prior, i, j, vals[m - 1], x);
      SliceMultiset(line, m, x);
      SliceMultiset(vals, m, x);
    }
  }

  /** Counting in a prefix one element longer. */
  lemma SliceMultiset(s: seq<Cell>, m: int, x: Cell)
    requires 0 < m <= |s|
    ensures multiset(s[..m])[x] == multiset(s[..m - 1])[x] + (if s[m - 1] == x then 1 else 0)
  {
    assert s[..m] == s[..m - 1] + [s[m - 1]];
  }

  /** Overwriting no cell leaves the board as it was. */
  lemma OverwriteNothing(g: Grid, r: int, c: int, d: Direction, vals: seq<Cell>)
    requires WellFormed(g) && OnBoard(r, c) && |vals| == RayLength(r, c, d)
    ensures Overwrite(g, r, c, d, vals, 0) == g
  {
    var o := Overwrite(g, r, c, d, vals, 0);
    forall i, j | OnBoard(i, j)
      ensures o[i][j] == g[i][j]
    {
    }
    GridsEqual(o, g);
  }

  /** Marble conservation: a push keeps the number of marbles of every colour,
      except that a push off the board removes the far-edge marble. */
  lemma PushCount(g: Grid, r: int, c: int, d: Direction, x: Cell)
    requires WellFormed(g) && OnBoard(r, c)
    ensures Count(Push(g, r, c, d), x) + (if Removes(g, r, c, d) && FarEdge(g, r, c, d) == x then 1 else 0)
      == Count(g, x) + (if Removes(g, r, c, d) && x == Empty then 1 else 0)
  {
    var line := Line(g, r, c, d);
    var sh := ShiftLine(line);
    OverwriteCount(g, r, c, d, sh, |line|, x);
    assert line[..|line|] == line;
    assert sh[..|line|] == sh;
    assert Count(Push(g, r, c, d), x) == Count(g, x) - multiset(line)[x] + multiset(sh)[x];
    ShiftLineMarbles(line);
    if PushesOff(line) {
      var last := line[|line| - 1];
      assert (multiset(sh) + multiset{last})[x] == (multiset(line) + multiset{Empty})[x];
      assert multiset(sh)[x] + multiset{last}[x] == multiset(line)[x] + multiset{Empty}[x];
    }
  }

  /** The starting layout: 2x2 corner blocks of white and black, placed
      diagonally opposite, around a diamond of 13 red marbles. */
  function InitialGrid(): (g: Grid)
    ensures WellFormed(g)
  {
    [[White, White, Empty, Empty, Empty, Black, Black],
     [White, White, Empty, Red,   Empty, Black, Black],
     [Empty, Empty, Red,   Red,   Red,   Empty, Empty],
     [Empty, Red,   Red,   Red,   Red,   Red,   Empty],
     [Empty, Empty, Red,   Red,   Red,   Empty, Empty],
     [Black, Black, Empty, Red,   Empty, White, White],
     [Black, Black, Empty, Empty, Empty, White, White]]
  }

  /** The count of a seven-row board is the sum of its rows' counts. */
  lemma CountRows(g: Grid, x: Cell)
    requires |g| == Size
    ensures Count(g, x) == multiset(g[0])[x] + multiset(g[1])[x] + multiset(g[2])[x]
      + multiset(g[3])[x] + multiset(g[4])[x] + multiset(g[5])[x] + multiset(g[6])[x]
  {
    assert g[0..] == g;
    assert g[7..] == [];
    CountFrom(g, 0, x);
    CountFrom(g, 1, x);
    CountFrom(g, 2, x);
    CountFrom(g, 3, x);
    CountFrom(g, 4, x);
    CountFrom(g, 5, x);
    CountFrom(g, 6, x);
  }

  lemma CountFrom(g: Grid, i: int, x: Cell)
    requires 0 <= i < |g|
    ensures Count(g[i..], x) == multiset(g[i])[x] + Count(g[i + 1..], x)
  {
    assert g[i..][1..] == g[i + 1..];
  }

  /** The starting layout holds 8 white, 8 black and 13 red marbles. */
  lemma InitialCounts()
    ensures Count(InitialGrid(), White) == 8
    ensures Count(InitialGrid(), Black) == 8
    ensures Count(InitialGrid(), Red) == 13
  {
    InitialWhite();
    InitialBlack();
    InitialRed();
  }

  lemma InitialWhite()
    ensures Count(InitialGrid(), White) == 8
  {
    CountRows(InitialGrid(), White);
  }

  lemma InitialBlack()
    ensures Count(InitialGrid(), Black) == 8
  {
    CountRows(InitialGrid(), Black);
  }

  lemma InitialRed()
    ensures Count(InitialGrid(), Red) == 13
  {
    CountRows(InitialGrid(), Red);
  }

  /** A cell holding x makes the count of x positive. */
  lemma {:induction false} CountPositive(g: Grid, i: int, j: int)
    requires 0 <= i < |g| && 0 <= j < |g[i]|
    ensures Count(g, g[i][j]) >= 1
  {
    if i == 0 {
      assert g[0][j] in multiset(g[0]);
    } else {
      CountPositive(g[1..], i - 1, j);
      assert g[1..][i - 1][j] == g[i][j];
    }
  }

  /** The cell (i, j) of a board on which the first m cells after the origin
      along d have received the marble one step behind them, and nothing else
      has changed yet. */
  function ShiftedCell(g: Grid, r: int, c: int, d: Direction, m: int, i: int, j: int): Cell
    requires WellFormed(g) && OnBoard(r, c) && OnBoard(i, j)
  {
    var k := RayIndex(r, c, d, i, j);
    if 1 <= k <= m then Line(g, r, c, d)[k - 1] else g[i][j]
  }

  /** b is g part-way through a push: m cells after the origin are written,
      and the origin, which the push empties, may or may not be emptied yet. */
  ghost predicate ShiftedUpTo(b: Grid, g: Grid, r: int, c: int, d: Direction, m: int)
    requires WellFormed(g) && OnBoard(r, c)
  {
    && WellFormed(b)
    && 0 <= m < RayLength(r, c, d)
    && forall i, j :: OnBoard(i, j) && (i, j) != (r, c) ==> b[i][j] == ShiftedCell(g, r, c, d, m, i, j)
  }

  /** Emptying the origin early keeps a board part-way through a push. */
  lemma EmptyOriginKeepsShifted(b: Grid, g: Grid, r: int, c: int, d: Direction, m: int)
    requires WellFormed(g) && OnBoard(r, c) && ShiftedUpTo(b, g, r, c, d, m)
    ensures ShiftedUpTo(b[r := b[r][c := Empty]], g, r, c, d, m)
  {
    var b' := b[r := b[r][c := Empty]];
    forall i, j | OnBoard(i, j) && (i, j) != (r, c)
      ensures b'[i][j] == b[i][j]
    {
    }
  }

  /** One step of a push loop that has written m cells after the origin and
      now writes cell (i, j), at position m + 1, with the marble of cell
      (i0, j0), at position m: cell (i, j) still holds its original marble,
      and the write extends the shifted part by one. */
  lemma ShiftStep(b: Grid, g: Grid, r: int, c: int, d: Direction, m: int, i: int, j: int, i0: int, j0: int)
    requires WellFormed(g) && OnBoard(r, c) && ShiftedUpTo(b, g, r, c, d, m) && m + 1 < RayLength(r, c, d)
    requires i0 == RayRow(r, d, m) && j0 == RayCol(c, d, m)
    requires i == RayRow(r, d, m + 1) && j == RayCol(c, d, m + 1)
    ensures OnBoard(i0, j0) && OnBoard(i, j)
    ensures g[i0][j0] == Line(g, r, c, d)[m]
    ensures b[i][j] == Line(g, r, c, d)[m + 1]
    ensures ShiftedUpTo(b[i := b[i][j := g[i0][j0]]], g, r, c, d, m + 1)
  {
    RayCell(r, c, d, m);
    RayCell(r, c, d, m + 1);
    var b' := b[i := b[i][j := g[i0][j0]]];
    forall i', j' | OnBoard(i', j') && (i', j') != (r, c)
      ensures b'[i'][j'] == ShiftedCell(g, r, c, d, m + 1, i', j')
    {
      ShiftStepCell(b, g, r, c, d, m, i, j, g[i0][j0], i', j');
    }
  }

  /** ShiftStep for one cell (i', j') other than the origin. */
  lemma ShiftStepCell(b: Grid, g: Grid, r: int, c: int, d: Direction, m: int, i: int, j: int, v: Cell, i': int, j': int)
    requires WellFormed(g) && OnBoard(r, c) && WellFormed(b) && 0 <= m && m + 1 < RayLength(r, c, d)
    requires OnBoard(i, j) && RayIndex(r, c, d, i, j) == m + 1 && v == Line(g, r, c, d)[m]
    requires OnBoard(i', j') && b[i'][j'] == ShiftedCell(g, r, c, d, m, i', j')
    ensures b[i := b[i][j := v]][i'][j'] == ShiftedCell(g, r, c, d, m + 1, i', j')
  {
    if (i', j') != (i, j) {
      assert RayIndex(r, c, d, i', j') != m + 1;
    }
  }

  /** The first empty position of a line, seen one step at a time: when every
      position up to m is not it, position m + 1 is it exactly when it is empty. */
  lemma StopStep(line: seq<Cell>, m: int)
    requires 0 <= m && m + 1 < |line| && m < StopIndex(line)
    ensures line[m + 1] == Empty ==> StopIndex(line) == m + 1
    ensures line[m + 1] != Empty ==> m + 1 < StopIndex(line)
  {
  }

  /** b is g part-way through a push that has not reached its stop yet. */
  ghost predicate Pushing(b: Grid, g: Grid, r: int, c: int, d: Direction, m: int)
    requires WellFormed(g) && OnBoard(r, c)
  {
    ShiftedUpTo(b, g, r, c, d, m) && m < StopIndex(Line(g, r, c, d))
  }

  /** b is g with every marble the push moves already moved, except that the
      origin may still need emptying: the loop has filled the first empty
      cell, or it has reached the edge of a full line. */
  ghost predicate Pushed(b: Grid, g: Grid, r: int, c: int, d: Direction, m: int)
    requires WellFormed(g) && OnBoard(r, c)
  {
    && ShiftedUpTo(b, g, r, c, d, m)
    && (m == StopIndex(Line(g, r, c, d)) || (m == RayLength(r, c, d) - 1 && m < StopIndex(Line(g, r, c, d))))
  }

  /** One iteration of a push loop: writing cell (i, j), at position m + 1,
      with the marble of cell (i0, j0), at position m, either finishes the
      push, when (i, j) was empty, or leaves it in progress. */
  lemma PushStep(b: Grid, g: Grid, r: int, c: int, d: Direction, m: int, i: int, j: int, i0: int, j0: int)
    requires WellFormed(g) && OnBoard(r, c) && Pushing(b, g, r, c, d, m) && m + 1 < RayLength(r, c, d)
    requires i0 == RayRow(r, d, m) && j0 == RayCol(c, d, m)
    requires i == RayRow(r, d, m + 1) && j == RayCol(c, d, m + 1)
    ensures WellFormed(b) && OnBoard(i0, j0) && OnBoard(i, j)
    ensures b[i][j] == Empty ==> Pushed(b[i := b[i][j := g[i0][j0]]], g, r, c, d, m + 1)
    ensures b[i][j] != Empty ==> Pushing(b[i := b[i][j := g[i0][j0]]], g, r, c, d, m + 1)
  {
    ShiftStep(b, g, r, c, d, m, i, j, i0, j0);
    StopStep(Line(g, r, c, d), m);
  }

  /** A loop still pushing when it reaches the edge has moved every marble. */
  lemma PushingAtEdge(b: Grid, g: Grid, r: int, c: int, d: Direction, m: int)
    requires WellFormed(g) && OnBoard(r, c) && Pushing(b, g, r, c, d, m) && m == RayLength(r, c, d) - 1
    ensures Pushed(b, g, r, c, d, m)
  {
  }

  /** Emptying the origin early keeps a push in progress. */
  lemma EmptyOriginKeepsPushing(b: Grid, g: Grid, r: int, c: int, d: Direction, m: int)
    requires WellFormed(g) && OnBoard(r, c) && Pushing(b, g, r, c, d, m)
    ensures Pushing(b[r := b[r][c := Empty]], g, r, c, d, m)
  {
    EmptyOriginKeepsShifted(b, g, r, c, d, m);
  }

  /** A loop that has written the first min(s, n - 1) cells after the origin,
      where s is the first empty position and n the length of the line, and
      then empties the origin, has performed the push. */
  lemma ShiftedIsPush(b: Grid, g: Grid, r: int, c: int, d: Direction, m: int)
    requires WellFormed(g) && OnBoard(r, c) && Pushed(b, g, r, c, d, m)
    ensures b[r := b[r][c := Empty]] == Push(g, r, c, d)
  {
    var b', p := b[r := b[r][c := Empty]], Push(g, r, c, d);
    forall i, j | OnBoard(i, j)
      ensures b'[i][j] == p[i][j]
    {
      ShiftedCellIsPushed(b, g, r, c, d, m, i, j);
    }
    GridsEqual(b', p);
  }

  lemma ShiftedCellIsPushed(b: Grid, g: Grid, r: int, c: int, d: Direction, m: int, i: int, j: int)
    requires WellFormed(g) && OnBoard(r, c) && Pushed(b, g, r, c, d, m) && OnBoard(i, j)
    ensures b[r := b[r][c := Empty]][i][j] == Push(g, r, c, d)[i][j]
  {
    if (i, j) == (r, c) {
      PushOnRay(g, r, c, d, 0);
    } else {
      assert b[r := b[r][c := Empty]][i][j] == b[i][j] == ShiftedCell(g, r, c, d, m, i, j);
      var k := RayIndex(r, c, d, i, j);
      if k < 0 {
        PushOffRay(g, r, c, d, i, j);
      } else {
        ShiftedRayCellIsPushed(g, r, c, d, m, k);
      }
    }
  }

  /** The k-th cell after the origin, once the loop is done, holds what the
      push puts there. */
  lemma ShiftedRayCellIsPushed(g: Grid, r: int, c: int, d: Direction, m: int, k: int)
    requires WellFormed(g) && OnBoard(r, c) && 1 <= k < RayLength(r, c, d)
    requires m == StopIndex(Line(g, r, c, d)) || (m == RayLength(r, c, d) - 1 && m < StopIndex(Line(g, r, c, d)))
    ensures OnBoard(RayRow(r, d, k), RayCol(c, d, k))
    ensures Push(g, r, c, d)[RayRow(r, d, k)][RayCol(c, d, k)] ==
      ShiftedCell(g, r, c, d, m, RayRow(r, d, k), RayCol(c, d, k))
  {
    var line := Line(g, r, c, d);
    PushOnRay(g, r, c, d, k);
    assert RayIndex(r, c, d, RayRow(r, d, k), RayCol(c, d, k)) == k;
    assert ShiftLine(line)[k] == if k <= StopIndex(line) then line[k - 1] else line[k];
  }
}
