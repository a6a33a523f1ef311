/** The tic-tac-toe board of a game room and the line scan of `checkWinner`
    (server.js): nine cells, each null or a player's symbol. */
module Board {
  import opened JsValues

  /** A cell: null, or the symbol string that was written into it. */
  type Cell = Option<string>

  type Index = i: int | 0 <= i < 9

  /** The eight lines in the order `checkWinner` scans them: three rows,
      three columns, then the two diagonals. */
  const Lines: seq<(Index, Index, Index)> :=
    [(0, 1, 2), (3, 4, 5), (6, 7, 8),
     (0, 3, 6), (1, 4, 7), (2, 5, 8),
     (0, 4, 8), (2, 4, 6)]

  /** `Array(9).fill(null)`. */
  function EmptyBoard(): (b: seq<Cell>)
    ensures |b| == 9
    ensures forall i :: 0 <= i < 9 ==> b[i] == None
  {
    seq(9, _ => None)
  }

  /** Line `l` holds three equal cells whose value is truthy: a non-empty
      symbol. */
  predicate LineComplete(b: seq<Cell>, l: nat)
    requires |b| == 9 && l < 8
  {
    var (x, y, z) := Lines[l];
    Truthy(b[x]) && b[x] == b[y] && b[x] == b[z]
  }

  /** The index of the first complete line at or after `from`, in scan
      order. */
  function FirstCompleteLine(b: seq<Cell>, from: nat): (r: Option<nat>)
    requires |b| == 9 && from <= 8
    ensures r.None? <==> forall l :: from <= l < 8 ==> !LineComplete(b, l)
    ensures r.Some? ==> from <= r.value < 8 && LineComplete(b, r.value)
                        && forall l :: from <= l < r.value ==> !LineComplete(b, l)
    decreases 8 - from
  {
    if from == 8 then None
    else if LineComplete(b, from) then Some(from)
    else FirstCompleteLine(b, from + 1)
  }

  /** The symbol on the first complete line, if any line is complete. */
  function WinningMark(b: seq<Cell>): (m: Option<string>)
    requires |b| == 9
  {
    match FirstCompleteLine(b, 0)
    case None => None
    case Some(l) => b[Lines[l].0]
  }

  /** `board.every(cell => cell !== null)`. */
  predicate IsFull(b: seq<Cell>)
  {
    forall i :: 0 <= i < |b| ==> b[i].Some?
  }

  /** There is a winning mark exactly when some line holds three equal
      non-empty symbols, and the mark is the one on the first such line in
      scan order. */
  lemma WinningMarkSpec(b: seq<Cell>)
    requires |b| == 9
    ensures WinningMark(b).Some? <==> exists l :: 0 <= l < 8 && LineComplete(b, l)
    ensures WinningMark(b).Some? ==>
              exists l :: 0 <= l < 8 && LineComplete(b, l)
                          && (forall k :: 0 <= k < l ==> !LineComplete(b, k))
                          && WinningMark(b) == b[Lines[l].0]
    ensures WinningMark(b).Some? ==> Truthy(WinningMark(b))
  {
    var f := FirstCompleteLine(b, 0);
    if f.Some? {
      var l := f.value;
      assert LineComplete(b, l);
    }
  }

  /** The empty board has no winning mark and is not full. */
  lemma EmptyBoardOpen()
    ensures WinningMark(EmptyBoard()) == None
    ensures !IsFull(EmptyBoard())
  {
    var b := EmptyBoard();
    assert !IsFull(b) by { assert b[0] == None; }
    forall l | 0 <= l < 8 ensures !LineComplete(b, l) {
      assert b[Lines[l].0] == None;
    }
  }
}
