/** The rules of src/main.rs: move availability, the horizontal run check
    (the only piece of win detection that exists), the winner query, and the
    tie test. */
module Rules {
  import opened Results
  import opened Board

  // ---------------------------------------------------------------------
  // Availability

  /** `position_available`: the cell is empty. The Rust code indexes the
      board directly, so the position must be on it. */
  function PositionAvailable(p: Position, b: Grid): (r: bool)
    requires InBounds(b, p)
    ensures r <==> b[p.row][p.col] == Empty
  {
    b[p.row][p.col] == Empty
  }

  /** On a fresh board every position is available. */
  lemma AvailableOnNewBoard(n: nat, p: Position)
    requires p.row < n && p.col < n
    ensures PositionAvailable(p, MakeBoard(n))
  {
  }

  /** Placing a stone takes exactly that position: it is no longer available,
      and every other position is as available as before. */
  lemma PlaceTakesPosition(b: Grid, p: Position, id: nat, q: Position)
    requires InBounds(b, p) && InBounds(b, q)
    ensures InBounds(Place(b, p, Player(id)), q)
    ensures q == p ==> !PositionAvailable(q, Place(b, p, Player(id)))
    ensures q != p ==> PositionAvailable(q, Place(b, p, Player(id))) == PositionAvailable(q, b)
  {
  }

  // ---------------------------------------------------------------------
  // Horizontal runs

  /** The outcome of code that may index past the end of a vector: a value,
      or the panic Rust raises on an out-of-bounds index. */
  datatype Exec<T> = Returns(value: T) | Panics

  /** The loop `for j in j..stop` of `check_horizontal`: every inspected
      cell must hold `Player(id)`; the first other cell ends the scan with
      `None`, and an index past the row panics. */
  function ScanRow(row: seq<Intersection>, j: nat, stop: nat, id: nat): (r: Exec<Option<nat>>)
    requires j <= stop && j <= |row|
    ensures r == Returns(Some(id)) <==>
              stop <= |row| && forall k :: j <= k < stop ==> row[k] == Player(id)
    ensures r == Panics <==>
              |row| < stop && forall k :: j <= k < |row| ==> row[k] == Player(id)
    ensures r.Returns? ==> r.value == None || r.value == Some(id)
    decreases stop - j
  {
    if j == stop then Returns(Some(id))
    else if j == |row| then Panics
    else if row[j] == Player(id) then ScanRow(row, j + 1, stop, id)
    else Returns(None)
  }

  /** `check_horizontal`, as written. The guard `board.len() - col >=
      WINNING_LEN` admits `col + WINNING_LEN == board.len()`, yet the loop
      reads the `WINNING_LEN` cells after the origin, up to index
      `col + WINNING_LEN`: six cells are needed for a run, and the scan
      panics when five equal stones end at the right edge. The origin is
      on the board, as in every call the origin loop of the winner query
      would make. */
  function CheckHorizontal(b: Grid, p: Position): (r: Exec<Option<nat>>)
    requires IsSquare(b) && p.row < |b| && p.col < |b|
    ensures b[p.row][p.col] == Empty ==> r == Returns(None)
    ensures p.col + WinningLen > |b| ==> r == Returns(None)
    ensures r.Returns? && r.value.Some? ==> b[p.row][p.col] == Player(r.value.value)
    ensures forall id: nat :: r == Returns(Some(id)) <==>
              && b[p.row][p.col] == Player(id)
              && p.col + WinningLen < |b|
              && forall k :: p.col < k <= p.col + WinningLen ==> b[p.row][k] == Player(id)
    ensures r == Panics <==>
              && b[p.row][p.col] != Empty
              && p.col + WinningLen == |b|
              && forall k :: p.col < k < |b| ==> b[p.row][k] == b[p.row][p.col]
  {
    var row := b[p.row];
    if row[p.col] == Empty then Returns(None)
    else if |b| - p.col >= WinningLen then
      ScanRow(row, p.col + 1, p.col + WinningLen + 1, row[p.col].id)
    else Returns(None)
  }

  /** The run check as intended: the origin and the `WINNING_LEN - 1` cells
      after it hold one player's stones; a run that would leave the board is
      no run, and nothing is read past the edge. */
  function CheckHorizontalFixed(b: Grid, p: Position): (r: Option<nat>)
    requires IsSquare(b) && p.row < |b| && p.col < |b|
    ensures forall id: nat :: r == Some(id) <==>
              && p.col + WinningLen <= |b|
              && forall k :: p.col <= k < p.col + WinningLen ==> b[p.row][k] == Player(id)
    ensures r == None <==>
              || p.col + WinningLen > |b|
              || b[p.row][p.col] == Empty
              || exists k :: p.col < k < p.col + WinningLen && b[p.row][k] != b[p.row][p.col]
  {
    var row := b[p.row];
    if row[p.col] == Empty then None
    else if |b| - p.col >= WinningLen then
      ScanRow(row, p.col + 1, p.col + WinningLen, row[p.col].id).value
    else None
  }

  /** Whatever the as-written check reports is a run for the intended one:
      it only ever asks for more. */
  lemma CheckHorizontalSound(b: Grid, p: Position, id: nat)
    requires IsSquare(b) && p.row < |b| && p.col < |b|
    requires CheckHorizontal(b, p) == Returns(Some(id))
    ensures CheckHorizontalFixed(b, p) == Some(id)
  {
    assert forall k :: p.col <= k < p.col + WinningLen ==> b[p.row][k] == Player(id);
  }

  /** The 5-wide board whose first row is all player 0's stones. */
  function FullFirstRow(): (b: Grid)
    ensures |b| == 5 && IsSquare(b)
  {
    MakeBoard(5)[0 := seq(5, _ => Player(0))]
  }

  /** As written, the check panics on five stones that end at the right edge
      of the board, where the intended check reports their owner. */
  lemma CheckHorizontalPanicsAtEdge()
    ensures CheckHorizontal(FullFirstRow(), Position(0, 0)) == Panics
    ensures CheckHorizontalFixed(FullFirstRow(), Position(0, 0)) == Some(0)
  {
    var b := FullFirstRow();
    assert forall k :: 0 <= k < 5 ==> b[0][k] == Player(0);
  }

  /** The 15-wide board of `main` with player 0's stones on the first five
      cells of the first row and nothing else. */
  function FiveInFirstRow(): (b: Grid)
    ensures |b| == 15 && IsSquare(b)
  {
    MakeBoard(15)[0 := seq(15, k => if k < 5 then Player(0) else Empty)]
  }

  /** As written, the check does not see five in a row away from the edge,
      since the sixth cell is empty; the intended check reports it. */
  lemma CheckHorizontalMissesFive()
    ensures CheckHorizontal(FiveInFirstRow(), Position(0, 0)) == Returns(None)
    ensures CheckHorizontalFixed(FiveInFirstRow(), Position(0, 0)) == Some(0)
  {
    var b := FiveInFirstRow();
    assert b[0][5] == Empty;
    assert forall k :: 0 <= k < 5 ==> b[0][k] == Player(0);
  }

  // ---------------------------------------------------------------------
  // Winner and tie

  /** `game_get_winner`: the origin loop's body holds only the names of the
      four scans, as comments, so no board has a winner. */
  function GameGetWinner(b: Grid): (r: Option<nat>)
    ensures r == None
  {
    None
  }

  /** `row.iter().all(|i| i != &Empty)`. */
  function RowFull(row: seq<Intersection>): (r: bool)
    ensures r <==> forall j :: 0 <= j < |row| ==> row[j] != Empty
  {
    |row| == 0 || (row[0] != Empty && RowFull(row[1..]))
  }

  /** `game_is_tie`: every row is full, that is, no cell is empty. */
  function GameIsTie(b: Grid): (r: bool)
    ensures r <==> forall i, j :: 0 <= i < |b| && 0 <= j < |b[i]| ==> b[i][j] != Empty
  {
    |b| == 0 || (RowFull(b[0]) && GameIsTie(b[1..]))
  }

  /** The number of empty cells of a row. */
  function CountEmptyRow(row: seq<Intersection>): nat {
    if |row| == 0 then 0 else (if row[0] == Empty then 1 else 0) + CountEmptyRow(row[1..])
  }

  /** The number of empty cells of a board. */
  function CountEmpty(b: Grid): nat {
    if |b| == 0 then 0 else CountEmptyRow(b[0]) + CountEmpty(b[1..])
  }

  lemma {:induction false} RowFullIffNoEmpty(row: seq<Intersection>)
    ensures RowFull(row) <==> CountEmptyRow(row) == 0
    decreases |row|
  {
    if |row| > 0 {
      RowFullIffNoEmpty(row[1..]);
    }
  }

  /** A board is a tie exactly when it has no empty cell left. */
  lemma {:induction false} TieIffNoEmpty(b: Grid)
    ensures GameIsTie(b) <==> CountEmpty(b) == 0
    decreases |b|
  {
    if |b| > 0 {
      RowFullIffNoEmpty(b[0]);
      TieIffNoEmpty(b[1..]);
    }
  }

  lemma {:induction false} CountEmptyRowUpdate(row: seq<Intersection>, j: nat, v: Intersection)
    requires j < |row|
    ensures CountEmptyRow(row[j := v]) + (if row[j] == Empty then 1 else 0)
            == CountEmptyRow(row) + (if v == Empty then 1 else 0)
    decreases |row|
  {
    if j > 0 {
      assert row[j := v][1..] == row[1..][j - 1 := v];
      CountEmptyRowUpdate(row[1..], j - 1, v);
    } else {
      assert row[j := v][1..] == row[1..];
    }
  }

  lemma {:induction false} CountEmptyUpdate(b: Grid, i: nat, r: seq<Intersection>)
    requires i < |b|
    ensures CountEmpty(b[i := r]) + CountEmptyRow(b[i]) == CountEmpty(b) + CountEmptyRow(r)
    decreases |b|
  {
    if i > 0 {
      assert b[i := r][1..] == b[1..][i - 1 := r];
      CountEmptyUpdate(b[1..], i - 1, r);
    } else {
      assert b[i := r][1..] == b[1..];
    }
  }

  /** Placing a stone on an empty cell leaves one empty cell fewer. */
  lemma CountEmptyPlace(b: Grid, p: Position, id: nat)
    requires InBounds(b, p) && b[p.row][p.col] == Empty
    ensures CountEmpty(b) > 0
    ensures CountEmpty(Place(b, p, Player(id))) == CountEmpty(b) - 1
  {
    CountEmptyRowUpdate(b[p.row], p.col, Player(id));
    CountEmptyUpdate(b, p.row, b[p.row][p.col := Player(id)]);
  }

  lemma {:induction false} CountEmptyRowAllEmpty(row: seq<Intersection>)
    requires forall j :: 0 <= j < |row| ==> row[j] == Empty
    ensures CountEmptyRow(row) == |row|
    decreases |row|
  {
    if |row| > 0 {
      CountEmptyRowAllEmpty(row[1..]);
    }
  }

  lemma {:induction false} CountEmptyAllEmpty(b: Grid, n: nat)
    requires forall i :: 0 <= i < |b| ==> |b[i]| == n
    requires forall i, j :: 0 <= i < |b| && 0 <= j < n ==> b[i][j] == Empty
    ensures CountEmpty(b) == |b| * n
    decreases |b|
  {
    if |b| > 0 {
      CountEmptyRowAllEmpty(b[0]);
      CountEmptyAllEmpty(b[1..], n);
    }
  }

  /** A fresh `n`-wide board has `n * n` empty cells. */
  lemma CountEmptyNewBoard(n: nat)
    ensures CountEmpty(MakeBoard(n)) == n * n
  {
    CountEmptyAllEmpty(MakeBoard(n), n);
  }

  /** The board of the tie unit test after `k` stones of player 0 have been
      written in row-major order. */
  function FilledRowMajor(n: nat, k: nat): (b: Grid)
    ensures |b| == n && IsSquare(b)
  {
    seq(n, i => seq(n, j => if i * n + j < k then Player(0) else Empty))
  }

  /** Filling a board cell by cell, it is not a tie until the last cell is
      filled, and then it is. */
  lemma TieOnlyWhenFilled(n: nat, k: nat)
    requires k <= n * n
    ensures GameIsTie(FilledRowMajor(n, k)) <==> k == n * n
  {
    if k < n * n {
      FilledHasEmpty(n, k);
    } else {
      FilledIsFull(n, k);
    }
  }

  lemma FilledHasEmpty(n: nat, k: nat)
    requires k < n * n
    ensures !GameIsTie(FilledRowMajor(n, k))
  {
    DivideIndex(k, n);
    var i, j := k / n, k % n;
    FilledCell(n, k, i, j);
  }

  lemma FilledIsFull(n: nat, k: nat)
    requires k == n * n
    ensures GameIsTie(FilledRowMajor(n, k))
  {
    var b := FilledRowMajor(n, k);
    forall i, j | 0 <= i < n && 0 <= j < n
      ensures b[i][j] != Empty
    {
      IndexBelowSquare(i, j, n);
      FilledCell(n, k, i, j);
    }
  }

  lemma FilledCell(n: nat, k: nat, i: nat, j: nat)
    requires i < n && j < n
    ensures FilledRowMajor(n, k)[i][j] == if i * n + j < k then Player(0) else Empty
  {
  }

  /** The tie test's loop writes player 0's stone on the cell of row-major
      index `k` next: filling `k + 1` cells is filling `k` cells and then
      writing cell `(k / n, k % n)`. */
  lemma FilledRowMajorStep(n: nat, k: nat)
    requires k < n * n
    ensures k / n < n && k % n < n
    ensures FilledRowMajor(n, k + 1) == Place(FilledRowMajor(n, k), Position(k / n, k % n), Player(0))
  {
    DivideIndex(k, n);
    var b, b' := FilledRowMajor(n, k), FilledRowMajor(n, k + 1);
    var c := Place(b, Position(k / n, k % n), Player(0));
    forall i | 0 <= i < n
      ensures b'[i] == c[i]
    {
      forall j | 0 <= j < n
        ensures b'[i][j] == c[i][j]
      {
        FilledCell(n, k, i, j);
        FilledCell(n, k + 1, i, j);
        if i * n + j == k {
          DivModUnique(k, i, j, n);
        }
      }
    }
  }

  lemma MulAtLeast(d: int, n: int)
    requires d >= 1 && n > 0
    ensures d * n >= n
  {
    assert d * n == (d - 1) * n + n;
  }

  /** Division by `n` has one quotient and one remainder. */
  lemma DivModUnique(x: int, q: int, r: int, n: int)
    requires n > 0 && 0 <= r < n && x == q * n + r
    ensures x % n == r && x / n == q
  {
    var q', r' := x / n, x % n;
    assert x == q' * n + r';
    assert (q - q') * n == q * n - q' * n;
    if q > q' {
      MulAtLeast(q - q', n);
      assert false;
    } else if q < q' {
      MulAtLeast(q' - q, n);
      assert false;
    }
  }

  /** A row-major index below `n * n` names a cell of an `n` by `n` board. */
  lemma DivideIndex(k: nat, n: nat)
    requires k < n * n
    ensures n > 0 && k / n < n && (k / n) * n + k % n == k
  {
    assert n != 0;
  }

  /** Every cell of an `n` by `n` board has a row-major index below `n * n`. */
  lemma IndexBelowSquare(i: nat, j: nat, n: nat)
    requires i < n && j < n
    ensures i * n + j < n * n
  {
    assert i * n <= (n - 1) * n;
  }
}
