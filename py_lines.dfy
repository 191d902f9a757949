/**
 * The `LINES` tuple of the two list- and string-based engines
 * (UltimateTicTacToe_Python/ultimate-tictactoe-new.py and
 * UltimateTicTacToe_Prod/ultimate-tictactoe.py): eight Python slices of a
 * 9-element grid, `grid[line]` to read a line, and `count` to count what it
 * holds.
 */
module PyLines {
  import Rules
  import LineHelpers

  /** `slice(start, stop, step)`, with a positive step. */
  datatype Slice = Slice(start: nat, stop: nat, step: nat)

  /** The indices a slice with a positive step selects from a sequence of length n, in order. */
  function Indices(sl: Slice, n: nat): (r: seq<nat>)
    requires sl.step > 0
    ensures forall i :: 0 <= i < |r| ==> r[i] < n
    decreases n - sl.start
  {
    if sl.start >= sl.stop || sl.start >= n then []
    else [sl.start] + Indices(Slice(sl.start + sl.step, sl.stop, sl.step), n)
  }

  /** `g[sl]`: the elements at the slice's indices. */
  function Take<T>(g: seq<T>, sl: Slice): (r: seq<T>)
    requires sl.step > 0
  {
    var ix := Indices(sl, |g|);
    seq(|ix|, i requires 0 <= i < |ix| => g[ix[i]])
  }

  /**
   * `LINES`: the columns `slice(i, 9, 3)`, the rows `slice(3*i, 3*i+3)`,
   * the diagonal `slice(0, 9, 4)` and the anti-diagonal `slice(2, 8, 2)`.
   */
  const LINES: seq<Slice> := Columns() + Rows() + [Slice(0, 9, 4), Slice(2, 8, 2)]

  /** `[slice(i, 9, 3) for i in range(3)]`. */
  function Columns(): (r: seq<Slice>)
    ensures |r| == 3
  {
    seq(3, i requires 0 <= i < 3 => Slice(i, 9, 3))
  }

  /** `[slice(3*i, 3*i+3) for i in range(3)]`, the step left at 1. */
  function Rows(): (r: seq<Slice>)
    ensures |r| == 3
  {
    seq(3, i requires 0 <= i < 3 => Slice(3 * i, 3 * i + 3, 1))
  }

  /** `LINES` selects, from a 9-element grid, exactly the eight lines of the rules, in their order. */
  lemma LinesAreRuleLines()
    ensures |LINES| == 8
    ensures forall k :: 0 <= k < 8 ==>
      LINES[k].step > 0 && Indices(LINES[k], 9) == [Rules.Line(k).0, Rules.Line(k).1, Rules.Line(k).2]
  {
    forall k | 0 <= k < 8
      ensures LINES[k].step > 0 && Indices(LINES[k], 9) == [Rules.Line(k).0, Rules.Line(k).1, Rules.Line(k).2]
    {
      if k < 3 {
        assert LINES[k] == Slice(k, 9, 3);
        ColumnIndices(k);
      } else if k < 6 {
        assert LINES[k] == Slice(3 * (k - 3), 3 * (k - 3) + 3, 1);
        RowIndices(k - 3);
      } else if k == 6 {
        assert Indices(Slice(0, 9, 4), 9) == [0, 4, 8];
      } else {
        assert Indices(Slice(2, 8, 2), 9) == [2, 4, 6];
      }
    }
  }

  /** `slice(c, 9, 3)` selects column c. */
  lemma ColumnIndices(c: nat)
    requires c < 3
    ensures Indices(Slice(c, 9, 3), 9) == [c, c + 3, c + 6]
  {
    assert Indices(Slice(c + 6, 9, 3), 9) == [c + 6];
    assert Indices(Slice(c + 3, 9, 3), 9) == [c + 3, c + 6];
  }

  /** `slice(3*r, 3*r+3)` selects row r. */
  lemma RowIndices(r: nat)
    requires r < 3
    ensures Indices(Slice(3 * r, 3 * r + 3, 1), 9) == [3 * r, 3 * r + 1, 3 * r + 2]
  {
    var a := 3 * r;
    assert Indices(Slice(a + 2, a + 3, 1), 9) == [a + 2];
    assert Indices(Slice(a + 1, a + 3, 1), 9) == [a + 1, a + 2];
  }

  /** Every slice of `LINES` has a positive step. */
  lemma LinesStep()
    ensures |LINES| == 8 && forall k :: 0 <= k < 8 ==> LINES[k].step > 0
  {
  }

  /** Line k of a grid, read with its slice. */
  lemma LineOf<T>(g: seq<T>, k: nat)
    requires |g| == 9 && k < 8
    ensures LINES[k].step > 0
    ensures Take(g, LINES[k]) == [g[Rules.Line(k).0], g[Rules.Line(k).1], g[Rules.Line(k).2]]
  {
    LinesAreRuleLines();
  }

  /** `s.count(v)`, for lists and (with a one-character v) strings. */
  function CountOf<T(==)>(s: seq<T>, v: T): (n: nat)
    ensures n <= |s|
  {
    if s == [] then 0 else CountOf(s[..|s| - 1], v) + (if s[|s| - 1] == v then 1 else 0)
  }

  /** The cells of a grid that hold v. */
  function Holding<T(==)>(g: seq<T>, v: T): (r: seq<bool>)
    ensures |r| == |g|
    ensures forall c :: 0 <= c < |g| ==> r[c] == (g[c] == v)
  {
    seq(|g|, c requires 0 <= c < |g| => g[c] == v)
  }

  /** Counting v on line k of a grid is counting the line's cells of the grid of v. */
  lemma CountOfLine<T>(g: seq<T>, v: T, k: nat)
    requires |g| == 9 && k < 8
    ensures LINES[k].step > 0
    ensures CountOf(Take(g, LINES[k]), v) == LineHelpers.LineCount(Holding(g, v), k)
  {
    LineOf(g, k);
    var l := Rules.Line(k);
    var s := [g[l.0], g[l.1], g[l.2]];
    assert s[..2] == [g[l.0], g[l.1]] && s[..2][..1] == [g[l.0]] && s[..2][..1][..0] == [];
    assert CountOf([g[l.0]], v) == (if g[l.0] == v then 1 else 0);
    assert CountOf([g[l.0], g[l.1]], v) == CountOf([g[l.0]], v) + (if g[l.1] == v then 1 else 0);
    assert CountOf(s, v) == CountOf([g[l.0], g[l.1]], v) + (if g[l.2] == v then 1 else 0);
  }

  /** A line equals `[v, v, v]` exactly when all three of its cells hold v. */
  lemma ThreeOfLine<T>(g: seq<T>, v: T, k: nat)
    requires |g| == 9 && k < 8
    ensures LINES[k].step > 0
    ensures Take(g, LINES[k]) == [v, v, v] <==> Rules.LineFull(Holding(g, v), k)
    ensures Take(g, LINES[k]) == [v, v, v] <==> CountOf(Take(g, LINES[k]), v) == 3
  {
    LineOf(g, k);
    CountOfLine(g, v, k);
  }
}
