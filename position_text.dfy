/**
 * The position notation of src/Java/UT3B2L.java: `boardString` writes the
 * 81 cells as nine rows of the displayed 9x9 grid ('x', 'o', '.'), joined
 * by '/', with runs of '.' compressed to digits, then a space and the
 * forced zone's name; `boardFromString` reads such a string back into the
 * three words, recomputing the won zones from the cells.
 */
module PositionText {
  import opened Text
  import opened Words
  import opened LineHelpers
  import opened Bitboard
  import opened Notation
  import Rules
  import JavaEngine

  // ---------------------------------------------------------------------
  // The rule-level notation.

  /** The character of a cell. */
  function CellChar(m: Rules.Mark): (c: char)
    ensures MarkOfChar(c) == m && c in "xo." && c != '/' && c != ' ' && !('1' <= c <= '9')
  {
    match m
    case First => 'x'
    case Second => 'o'
    case Empty => '.'
  }

  /** The mark a character stands for: 'x', 'o', and anything else an empty cell. */
  function MarkOfChar(c: char): Rules.Mark {
    if c == 'x' then Rules.First else if c == 'o' then Rules.Second else Rules.Empty
  }

  /**
   * The cell shown at place j of the rows read one after the other: row
   * j / 9 of the display runs through zones 3 * (row / 3) .. + 2, showing
   * line row % 3 of each.
   */
  function RowCell(j: nat): (m: nat)
    requires j < 81
    ensures m < 81
  {
    var r, p := j / 9, j % 9;
    27 * (r / 3) + 3 * (r % 3) + 9 * (p / 3) + p % 3
  }

  /** Where cell m is shown: the inverse of RowCell. */
  function CellPos(m: nat): (j: nat)
    requires m < 81
    ensures j < 81 && RowCell(j) == m
  {
    var z, c := m / 9, m % 9;
    var j := 9 * (3 * (z / 3) + c / 3) + 3 * (z % 3) + c % 3;
    Digits(j, z / 3, c / 3, z % 3, c % 3);
    Digits(m, z / 3, z % 3, c / 3, c % 3);
    j
  }

  /**
   * The base-3 digits of a number below 81, read as two digits of base 9:
   * n == 27 * a + 9 * b + 3 * c + d gives a, b, c, d back.
   */
  lemma Digits(n: nat, a: nat, b: nat, c: nat, d: nat)
    requires a < 3 && b < 3 && c < 3 && d < 3 && n == 27 * a + 9 * b + 3 * c + d
    ensures n / 9 == 3 * a + b && n % 9 == 3 * c + d
    ensures (n / 9) / 3 == a && (n / 9) % 3 == b && (n % 9) / 3 == c && (n % 9) % 3 == d
  {
    DivMod9(n, 3 * a + b, 3 * c + d);
    DivMod3(3 * a + b, a, b);
    DivMod3(3 * c + d, c, d);
  }

  lemma DivMod9(n: nat, q: nat, r: nat)
    requires r < 9 && n == 9 * q + r
    ensures n / 9 == q && n % 9 == r
  {
  }

  lemma DivMod3(n: nat, q: nat, r: nat)
    requires r < 3 && n == 3 * q + r
    ensures n / 3 == q && n % 3 == r
  {
  }

  /** Every place shows one cell: CellPos is onto. */
  lemma CellPosOfRowCell(j: nat)
    requires j < 81
    ensures CellPos(RowCell(j)) == j
  {
    var r, p := j / 9, j % 9;
    Digits(j, r / 3, r % 3, p / 3, p % 3);
    Digits(RowCell(j), r / 3, p / 3, r % 3, p % 3);
  }

  /** Row r of the display. */
  function Row(cells: seq<Rules.Mark>, r: nat): (row: string)
    requires |cells| == 81 && r < 9
    ensures |row| == 9
    ensures forall p :: 0 <= p < 9 ==> row[p] == CellChar(cells[RowCell(9 * r + p)])
  {
    seq(9, p requires 0 <= p < 9 => CellChar(cells[RowCell(9 * r + p)]))
  }

  /** The nine rows of the display. */
  function Rows(cells: seq<Rules.Mark>): (rows: seq<string>)
    requires |cells| == 81
    ensures |rows| == 9
    ensures forall r :: 0 <= r < 9 ==> rows[r] == Row(cells, r)
  {
    seq(9, r requires 0 <= r < 9 => Row(cells, r))
  }

  /** The name of a forced zone, "any" for none. */
  function ZoneName(zone: int): string
    requires 0 <= zone <= 9
  {
    if zone == Rules.ANY then "any" else ZONE_NAMES[zone]
  }

  /** The position string of a rule-level position, as `boardString` writes it. */
  function PositionString(s: Rules.State): string
    requires Rules.WellFormed(s)
  {
    Compress(Join(Rows(s.cells), '/')) + " " + ZoneName(s.zone)
  }

  /** The last of the first n zone names equal to name, -1 when none is. */
  function NameIndex(name: string, n: nat): (i: int)
    requires n <= 9
    ensures -1 <= i < n
    ensures i == -1 <==> forall j :: 0 <= j < n ==> ZONE_NAMES[j] != name
    ensures i != -1 ==> ZONE_NAMES[i] == name
  {
    if n == 0 then -1 else if ZONE_NAMES[n - 1] == name then n - 1 else NameIndex(name, n - 1)
  }

  /** The zone a name denotes: one of the nine names, or "any"; no other name is accepted. */
  function ZoneOfName(name: string): (r: Option<int>)
    ensures r.Some? ==> 0 <= r.value <= 9 && ZoneName(r.value) == name
    ensures forall z :: 0 <= z <= 9 && ZoneName(z) == name ==> r == Some(z)
  {
    ZoneNames();
    var z := NameIndex(name, 9);
    if z != -1 then Some(z) else if name == "any" then Some(Rules.ANY) else None
  }

  /** The mark of zone z the reader records: the first player's if they have a line there, else the second's if they do. */
  function WonMark(cells: seq<Rules.Mark>, z: nat): Rules.Mark
    requires |cells| == 81 && z < 9
  {
    if Rules.HasLine(Rules.ZoneGrid(cells, z, Rules.First)) then Rules.First
    else if Rules.HasLine(Rules.ZoneGrid(cells, z, Rules.Second)) then Rules.Second
    else Rules.Empty
  }

  /** The position of 81 display characters (row after row) and a forced zone. */
  function Position(flat: string, zone: int): (s: Rules.State)
    requires |flat| == 81 && 0 <= zone <= 9
    ensures Rules.WellFormed(s) && s.zone == zone
    ensures forall m :: 0 <= m < 81 ==> s.cells[m] == MarkOfChar(flat[CellPos(m)])
    ensures forall z :: 0 <= z < 9 ==> s.won[z] == WonMark(s.cells, z)
  {
    var cells := seq(81, m requires 0 <= m < 81 => MarkOfChar(flat[CellPos(m)]));
    Rules.State(cells, seq(9, z requires 0 <= z < 9 => WonMark(cells, z)), zone)
  }

  /**
   * What `boardFromString` accepts and builds: the digits expanded, the
   * string split at ' ' into exactly two fields, the second a zone name
   * or "any", the first split at '/' into exactly nine rows of nine
   * characters; the board is the encoding of their position.
   */
  function ParseBoard(str: string): Option<Board> {
    var fields := JavaSplit(Expand(str), ' ');
    if |fields| != 2 then None
    else
      var zone := ZoneOfName(fields[1]);
      if zone.None? then None else ParseRows(fields[0], zone.value)
  }

  /** The cell field, split at '/' into exactly nine rows of nine characters, read with the zone. */
  function ParseRows(cells: string, zone: int): Option<Board>
    requires 0 <= zone <= 9
  {
    var rows := JavaSplit(cells, '/');
    if |rows| != 9 || exists r :: 0 <= r < 9 && |rows[r]| != 9 then None
    else
      ConcatLength(rows);
      Some(Encode(Position(Concat(rows), zone)))
  }

  // ---------------------------------------------------------------------
  // Properties of the notation.

  /** The display characters of a position read back as its cells. */
  lemma PositionOfRows(s: Rules.State)
    requires Rules.WellFormed(s)
    ensures |Concat(Rows(s.cells))| == 81
    ensures Position(Concat(Rows(s.cells)), s.zone).cells == s.cells
  {
    var rows := Rows(s.cells);
    ConcatLength(rows);
    var flat := Concat(rows);
    var p := Position(flat, s.zone);
    forall m | 0 <= m < 81 ensures p.cells[m] == s.cells[m] {
      var j := CellPos(m);
      ConcatIndex(rows, j / 9, j % 9);
      assert flat[j] == rows[j / 9][j % 9];
    }
  }

  /** On a valid position the reader's won marks are the position's. */
  lemma WonMarks(s: Rules.State)
    requires Rules.Valid(s)
    ensures seq(9, z requires 0 <= z < 9 => WonMark(s.cells, z)) == s.won
  {
  }

  /** The characters of the joined rows. */
  predicate RowChar(c: char) {
    c == 'x' || c == 'o' || c == '.' || c == '/'
  }

  /** The rows joined by '/' hold no space and no digit 1..9, and split back into the rows. */
  lemma JoinedRows(s: Rules.State)
    requires Rules.WellFormed(s)
    ensures ' ' !in Join(Rows(s.cells), '/') && NoRunDigits(Join(Rows(s.cells), '/'))
    ensures JavaSplit(Join(Rows(s.cells), '/'), '/') == Rows(s.cells)
  {
    var rows := Rows(s.cells);
    var joined := Join(rows, '/');
    RowsChars(s);
    assert forall i :: 0 <= i < |joined| ==> RowChar(joined[i]);
    forall r | 0 <= r < 9 ensures '/' !in rows[r] {
      assert forall p :: 0 <= p < 9 ==> RowChar(rows[r][p]) && rows[r][p] != '/';
    }
    SplitJoin(rows, '/');
    assert joined == rows[0] + ['/'] + Join(rows[1..], '/');
    assert joined[9] == '/';
    assert |rows[8]| == 9;
  }

  /** Every character of the joined rows is a cell character or '/'. */
  lemma RowsChars(s: Rules.State)
    requires Rules.WellFormed(s)
    ensures forall c :: c in Join(Rows(s.cells), '/') ==> RowChar(c)
  {
    var rows := Rows(s.cells);
    forall r, p | 0 <= r < 9 && 0 <= p < |rows[r]| ensures RowChar(rows[r][p]) {
      assert rows[r] == Row(s.cells, r);
    }
    JoinChars(rows, 0);
  }

  /** The characters of the joined rows from row n on. */
  lemma {:induction false} JoinChars(rows: seq<string>, n: nat)
    requires |rows| == 9 && n < 9
    requires forall r, p :: 0 <= r < 9 && 0 <= p < |rows[r]| ==> RowChar(rows[r][p])
    ensures forall c :: c in Join(rows[n..], '/') ==> RowChar(c)
    decreases 9 - n
  {
    if n < 8 {
      JoinChars(rows, n + 1);
      assert rows[n..][1..] == rows[n + 1..];
    }
  }

  /** Expanding a position string gives the joined rows, a space and the zone name. */
  lemma ExpandPositionString(s: Rules.State)
    requires Rules.WellFormed(s)
    ensures Expand(PositionString(s)) == Join(Rows(s.cells), '/') + [' '] + ZoneName(s.zone)
  {
    JoinedRows(s);
    ZoneNames();
    ExpandFields(Join(Rows(s.cells), '/'), ZoneName(s.zone));
  }

  /** Expanding compressed cells, a space and a name without digits gives the cells, the space and the name. */
  lemma ExpandFields(cells: string, name: string)
    requires NoRunDigits(cells) && NoRunDigits(name)
    ensures Expand(Compress(cells) + " " + name) == cells + [' '] + name
  {
    var c, t := Compress(cells), " " + name;
    assert c + " " + name == c + t;
    ExpandAppend(c, t);
    ExpandCompress(cells);
    ExpandSpaced(name);
  }

  /** A space and a name without digits expand to themselves. */
  lemma ExpandSpaced(name: string)
    requires NoRunDigits(name)
    ensures Expand(" " + name) == " " + name
  {
    var t := " " + name;
    forall i | 0 <= i < |t| ensures !('1' <= t[i] <= '9') {
      if i > 0 {
        assert t[i] == name[i - 1];
      }
    }
    ExpandPlain(t);
  }

  /** The expanded position string splits at its one space into the joined rows and the zone name. */
  lemma PositionFields(s: Rules.State)
    requires Rules.WellFormed(s)
    ensures JavaSplit(Expand(PositionString(s)), ' ') == [Join(Rows(s.cells), '/'), ZoneName(s.zone)]
  {
    var joined := Join(Rows(s.cells), '/');
    var name := ZoneName(s.zone);
    ExpandPositionString(s);
    JoinedRows(s);
    ZoneNames();
    assert ' ' !in name && |name| > 0;
    JavaSplitTwo(joined, name, ' ');
  }

  /** Reading the string of a valid position gives back the position's encoding. */
  lemma PositionRoundTrip(s: Rules.State)
    requires Rules.Valid(s)
    ensures ParseBoard(PositionString(s)) == Some(Encode(s))
  {
    PositionFields(s);
    var fields := JavaSplit(Expand(PositionString(s)), ' ');
    assert fields[1] == ZoneName(s.zone);
    assert ZoneOfName(fields[1]) == Some(s.zone);
    RowsParse(s);
  }

  /** The rows of a valid position, joined by '/', read back with its zone as its encoding. */
  lemma RowsParse(s: Rules.State)
    requires Rules.Valid(s)
    ensures ParseRows(Join(Rows(s.cells), '/'), s.zone) == Some(Encode(s))
  {
    JoinedRows(s);
    PositionOfRows(s);
    WonMarks(s);
    var rows := Rows(s.cells);
    assert Position(Concat(rows), s.zone) == s;
  }

  /**
   * `boardFromString(boardString(b))` gives b back, for every board that
   * encodes a valid position.
   */
  lemma BoardRoundTrip(b: Board)
    requires Valid(b)
    ensures ParseBoard(PositionString(Abs(b))) == Some(b)
  {
    PositionRoundTrip(Abs(b));
    EncodeAbs(b);
  }

  /**
   * What the reader builds meets the layout invariants, and a zone is
   * recorded as won by the first player exactly when they have a line in
   * it, by the second exactly when they have one and the first does not.
   */
  lemma ParsedBoard(str: string, b: Board)
    requires ParseBoard(str) == Some(b)
    ensures Encoded(b) && Rules.WellFormed(Abs(b))
    ensures forall z :: 0 <= z < 9 ==>
      && (Abs(b).won[z] == Rules.First <==> Rules.HasLine(Rules.ZoneGrid(Abs(b).cells, z, Rules.First)))
      && (Abs(b).won[z] == Rules.Second <==>
            !Rules.HasLine(Rules.ZoneGrid(Abs(b).cells, z, Rules.First))
            && Rules.HasLine(Rules.ZoneGrid(Abs(b).cells, z, Rules.Second)))
  {
    var fields := JavaSplit(Expand(str), ' ');
    var rows := JavaSplit(fields[0], '/');
    ConcatLength(rows);
    var p := Position(Concat(rows), ZoneOfName(fields[1]).value);
    AbsEncode(p);
  }

  // ---------------------------------------------------------------------
  // `boardString`

  /** Row i..j of the display as `rowIndices` lists it: i + j + k + 0..2 for k = 0, 9, 18. */
  lemma RowCellAt(i: nat, j: nat, k: nat, t: nat)
    requires i % 27 == 0 && i < 81 && j % 3 == 0 && j < 9 && k % 9 == 0 && k < 27 && t < 3
    ensures 9 * (i / 9 + j / 3) + k / 3 + t < 81
    ensures RowCell(9 * (i / 9 + j / 3) + k / 3 + t) == i + j + k + t
  {
    Digits(9 * (i / 9 + j / 3) + k / 3 + t, i / 27, j / 3, k / 9, t);
  }

  /** One pass of the `k` loop appends the next three cells of the display row. */
  lemma RowIndicesStep(i: nat, j: nat, k: nat, s: seq<nat>, s2: seq<nat>)
    requires i % 27 == 0 && i < 81 && j % 3 == 0 && j < 9 && k % 9 == 0 && k < 27 && k == 3 * |s|
    requires forall t :: 0 <= t < |s| ==> s[t] == RowCell(9 * (i / 9 + j / 3) + t)
    requires s2 == s + [i + j + k, i + j + k + 1, i + j + k + 2]
    ensures forall t :: 0 <= t < |s2| ==> s2[t] == RowCell(9 * (i / 9 + j / 3) + t)
  {
    forall t | |s| <= t < |s2| ensures s2[t] == RowCell(9 * (i / 9 + j / 3) + t) {
      RowCellAt(i, j, k, t - |s|);
      assert 9 * (i / 9 + j / 3) + t == 9 * (i / 9 + j / 3) + k / 3 + (t - |s|);
    }
  }

  /** The `k` loop of `boardString` and `boardFromString`: the nine cells of display row i / 9 + j / 3. */
  method RowIndicesAt(i: nat, j: nat) returns (rowIndices: seq<nat>)
    requires i % 27 == 0 && i < 81 && j % 3 == 0 && j < 9
    ensures |rowIndices| == 9
    ensures forall t :: 0 <= t < 9 ==> rowIndices[t] == RowCell(9 * (i / 9 + j / 3) + t)
  {
    rowIndices := [];
    ghost var base := 9 * (i / 9 + j / 3);
    var k := 0;
    while k < 27
      invariant k == 3 * |rowIndices| && (k == 0 || k == 9 || k == 18 || k == 27)
      invariant forall t :: 0 <= t < |rowIndices| ==> rowIndices[t] == RowCell(base + t)
    {
      RowIndicesStep(i, j, k, rowIndices, rowIndices + [i + j + k, i + j + k + 1, i + j + k + 2]);
      rowIndices := rowIndices + [i + j + k, i + j + k + 1, i + j + k + 2];
      k := k + 9;
    }
  }

  /** The character `boardString` appends for cell idx: 'x' before 'o', with `>>` on `long`. */
  method CellCharAt(us: Word, them: Word, share: Word, idx: nat) returns (c: char)
    requires idx < 81
    ensures c == CellChar(CellOf(Board(us, them, share), idx))
  {
    if idx > 62 {
      if Sar(share, idx - 63)[0] {
        c := 'x';
      } else if Sar(share, idx - 45)[0] {
        c := 'o';
      } else {
        c := '.';
      }
    } else if Sar(us, idx)[0] {
      c := 'x';
    } else if Sar(them, idx)[0] {
      c := 'o';
    } else {
      c := '.';
    }
  }

  /** The loop over `rowIndices`: the characters of the listed cells. */
  method RowString(us: Word, them: Word, share: Word, rowIndices: seq<nat>) returns (row: string)
    requires |rowIndices| == 9 && forall t :: 0 <= t < 9 ==> rowIndices[t] < 81
    ensures |row| == 9
    ensures forall t :: 0 <= t < 9 ==> row[t] == CellChar(CellOf(Board(us, them, share), rowIndices[t]))
  {
    row := [];
    for t := 0 to 9
      invariant |row| == t
      invariant forall q :: 0 <= q < t ==> row[q] == CellChar(CellOf(Board(us, them, share), rowIndices[q]))
    {
      var c := CellCharAt(us, them, share, rowIndices[t]);
      row := row + [c];
    }
  }

  /** A row built from the cells of a board is that row of the board's position. */
  lemma RowOfBoard(b: Board, r: nat, row: string)
    requires r < 9 && |row| == 9
    requires forall t :: 0 <= t < 9 ==> row[t] == CellChar(CellOf(b, RowCell(9 * r + t)))
    ensures row == Row(Abs(b).cells, r)
  {
  }

  /**
   * `boardString(board)`: the rows of the display, each built cell by
   * cell, joined by '/', compressed, then the zone's name. The string is
   * the position string of the board's position.
   */
  method BoardString(b: Board) returns (str: string)
    requires ZoneField(b.share) <= 9
    ensures str == PositionString(Abs(b))
  {
    JavaEngine.JavaZoneField(b);
    var zone := Value(And(Sar(b.share, 54), Range(0, 4)));
    var rows := DisplayRows(b);
    str := Compress(Join(rows, '/')) + " " + (if zone == ZONE_ANY then "any" else ZONE_NAMES[zone]);
  }

  /** The row loops of `boardString`: the nine rows of the display, each built cell by cell. */
  method DisplayRows(b: Board) returns (rows: seq<string>)
    ensures rows == Rows(Abs(b).cells)
  {
    var us, them, share := b.us, b.them, b.share;
    ghost var cells := Abs(b).cells;
    rows := [];
    var i := 0;
    while i < 81
      invariant (i == 0 || i == 27 || i == 54 || i == 81) && 9 * |rows| == i
      invariant forall r :: 0 <= r < |rows| ==> rows[r] == Row(cells, r)
    {
      var j := 0;
      while j < 9
        invariant (j == 0 || j == 3 || j == 6 || j == 9) && 9 * |rows| == i + 3 * j
        invariant forall r :: 0 <= r < |rows| ==> rows[r] == Row(cells, r)
      {
        assert i / 9 + j / 3 == |rows|;
        var rowIndices := RowIndicesAt(i, j);
        var row := RowString(us, them, share, rowIndices);
        RowOfBoard(b, |rows|, row);
        RowsAppend(cells, rows, row, rows + [row]);
        rows := rows + [row];
        j := j + 3;
      }
      i := i + 27;
    }
    RowsOf(cells, rows);
  }

  /** Appending the next display row keeps every row the display's. */
  lemma RowsAppend(cells: seq<Rules.Mark>, rows: seq<string>, row: string, rows2: seq<string>)
    requires |cells| == 81 && |rows| < 9 && rows2 == rows + [row]
    requires forall r :: 0 <= r < |rows| ==> rows[r] == Row(cells, r)
    requires row == Row(cells, |rows|)
    ensures forall r :: 0 <= r < |rows2| ==> rows2[r] == Row(cells, r)
  {
    forall r | 0 <= r < |rows2| ensures rows2[r] == Row(cells, r) {
      if r < |rows| {
        assert rows2[r] == rows[r];
      }
    }
  }

  /** Nine rows, each the display row of the cells, are the display. */
  lemma RowsOf(cells: seq<Rules.Mark>, rows: seq<string>)
    requires |cells| == 81 && |rows| == 9
    requires forall r :: 0 <= r < 9 ==> rows[r] == Row(cells, r)
    ensures rows == Rows(cells)
  {
  }

  // ---------------------------------------------------------------------
  // `boardFromString`

  /** The triple loop of `boardFromString`: the cell shown at each of the 81 places. */
  method RowIndices() returns (rowIndices: seq<nat>)
    ensures |rowIndices| == 81
    ensures forall q :: 0 <= q < 81 ==> rowIndices[q] == RowCell(q)
  {
    rowIndices := [];
    var i := 0;
    while i < 81
      invariant (i == 0 || i == 27 || i == 54 || i == 81) && |rowIndices| == i
      invariant forall q :: 0 <= q < |rowIndices| ==> rowIndices[q] == RowCell(q)
    {
      var j := 0;
      while j < 9
        invariant (j == 0 || j == 3 || j == 6 || j == 9) && |rowIndices| == i + 3 * j
        invariant forall q :: 0 <= q < |rowIndices| ==> rowIndices[q] == RowCell(q)
      {
        var row := RowIndicesAt(i, j);
        assert 9 * (i / 9 + j / 3) == i + 3 * j;
        rowIndices := rowIndices + row;
        j := j + 3;
      }
      i := i + 27;
    }
  }

  /** The bits of one player's word for the cells shown at places below j: set where the character is ch. */
  predicate WordRead(flat: string, w: Word, ch: char, j: nat)
    requires |flat| == 81
  {
    forall t :: 0 <= t < 64 ==> w[t] == (t < 63 && CellPos(t) < j && flat[CellPos(t)] == ch)
  }

  /** The bits of `share` for the cells of zones 7 and 8 shown at places below j, over the bits of share0. */
  predicate ShareRead(flat: string, share: Word, share0: Word, j: nat)
    requires |flat| == 81
  {
    forall t :: 0 <= t < 64 ==>
      share[t] == (share0[t]
        || (t < 18 && CellPos(63 + t) < j && flat[CellPos(63 + t)] == 'x')
        || (18 <= t < 36 && CellPos(45 + t) < j && flat[CellPos(45 + t)] == 'o'))
  }

  /** The words after the character loop of `boardFromString`. */
  predicate CellsRead(flat: string, us: Word, them: Word, share: Word, share0: Word)
    requires |flat| == 81
  {
    WordRead(flat, us, 'x', 81) && WordRead(flat, them, 'o', 81) && ShareRead(flat, share, share0, 81)
  }

  /** One character read into a player's word: the bit of the cell shown at place j is set when it is ch. */
  lemma WordStep(flat: string, w: Word, w2: Word, ch: char, j: nat)
    requires |flat| == 81 && j < 81 && WordRead(flat, w, ch, j)
    requires forall t :: 0 <= t < 64 ==> w2[t] == (w[t] || (t == RowCell(j) && t < 63 && flat[j] == ch))
    ensures WordRead(flat, w2, ch, j + 1)
  {
    CellPosOfRowCell(j);
  }

  /** One character read into `share`. */
  lemma ShareStep(flat: string, share: Word, share2: Word, share0: Word, j: nat)
    requires |flat| == 81 && j < 81 && ShareRead(flat, share, share0, j)
    requires forall t :: 0 <= t < 64 ==>
      share2[t] == (share[t]
        || (t == RowCell(j) - 63 && RowCell(j) > 62 && flat[j] == 'x')
        || (t == RowCell(j) - 45 && RowCell(j) > 62 && flat[j] == 'o'))
    ensures ShareRead(flat, share2, share0, j + 1)
  {
    CellPosOfRowCell(j);
    forall t | 0 <= t < 64
      ensures share2[t] == (share0[t]
        || (t < 18 && CellPos(63 + t) < j + 1 && flat[CellPos(63 + t)] == 'x')
        || (18 <= t < 36 && CellPos(45 + t) < j + 1 && flat[CellPos(45 + t)] == 'o'))
    {
      if t < 18 {
        assert CellPos(63 + t) == j <==> RowCell(j) == 63 + t;
      } else if t < 36 {
        assert CellPos(45 + t) == j <==> RowCell(j) == 45 + t;
      }
    }
  }

  /** One turn of the character loop: the bit of cell i for character c, with the first player's 'x' looked at first. */
  method ReadChar(us: Word, them: Word, share: Word, i: nat, c: char) returns (us2: Word, them2: Word, share2: Word)
    requires i < 81
    ensures forall t :: 0 <= t < 64 ==> us2[t] == (us[t] || (t == i && t < 63 && c == 'x'))
    ensures forall t :: 0 <= t < 64 ==> them2[t] == (them[t] || (t == i && t < 63 && c == 'o'))
    ensures forall t :: 0 <= t < 64 ==>
      share2[t] == (share[t]
        || (t == i - 63 && i > 62 && c == 'x')
        || (t == i - 45 && i > 62 && c == 'o'))
  {
    us2, them2, share2 := us, them, share;
    if i > 62 {
      if c == 'x' {
        share2 := Or(share, Single(i - 63));
      } else if c == 'o' {
        share2 := Or(share, Single(i - 45));
      }
    } else if c == 'x' {
      us2 := Or(us, Single(i));
    } else if c == 'o' {
      them2 := Or(them, Single(i));
    }
  }

  /** The character loop: character j of the rows without '/' sets the bit of cell `rowIndices[j]`. */
  method ReadCells(flat: string, rowIndices: seq<nat>, share0: Word) returns (us: Word, them: Word, share: Word)
    requires |flat| == 81 && |rowIndices| == 81
    requires forall q :: 0 <= q < 81 ==> rowIndices[q] == RowCell(q)
    ensures CellsRead(flat, us, them, share, share0)
  {
    us, them, share := Zero(), Zero(), share0;
    for j := 0 to |flat|
      invariant WordRead(flat, us, 'x', j) && WordRead(flat, them, 'o', j) && ShareRead(flat, share, share0, j)
    {
      var us2, them2, share2 := ReadChar(us, them, share, rowIndices[j], flat[j]);
      WordStep(flat, us, us2, 'x', j);
      WordStep(flat, them, them2, 'o', j);
      ShareStep(flat, share, share2, share0, j);
      us, them, share := us2, them2, share2;
    }
  }

  /** Zone z of the board holds a line of `side`'s marks in its nine bits. */
  predicate LineIn(b: Board, z: nat, side: Rules.Side)
    requires z < 9
  {
    Rules.HasLine(GridOf(ZoneWord(b, z, side)))
  }

  /** `Engine.linePresence(w >> k)`, with `>>` on `long`. */
  method LinePresenceAt(w: Word, k: nat) returns (present: bool)
    requires k <= 55
    ensures present == Rules.HasLine(GridOf(Shr(w, k)))
  {
    present := LinePresence(Sar(w, k));
    JavaEngine.JavaPresence(w, k);
    LinePresenceSpec(Shr(w, k));
  }

  /**
   * The two won-zone loops of `boardFromString`: for each zone, the first
   * player's won bit when their cells hold a line, else the second
   * player's when theirs do. Zones 0..6 are read from `us` and `them`,
   * zones 7 and 8 from `share` as it stands after the first loop.
   */
  method WonBits(us: Word, them: Word, share1: Word) returns (share: Word)
    ensures forall t :: 0 <= t < 64 && !(36 <= t < 54) ==> share[t] == share1[t]
    ensures forall z :: 0 <= z < 9 ==>
      share[36 + z] == (share1[36 + z] || LineIn(Board(us, them, share1), z, 0))
    ensures forall z :: 0 <= z < 9 ==>
      share[45 + z] == (share1[45 + z] || (!LineIn(Board(us, them, share1), z, 0) && LineIn(Board(us, them, share1), z, 1)))
  {
    ghost var b1 := Board(us, them, share1);
    share := FirstSeven(us, them, share1);
    share := LastTwo(share, b1);
    assert MarkedUpTo(share, b1, 9);
    forall z | 0 <= z < 9 ensures share[36 + z] == (share1[36 + z] || LineIn(Board(us, them, share1), z, 0)) {
      assert ZoneMarked(share, b1, z);
    }
    forall z | 0 <= z < 9
      ensures share[45 + z] == (share1[45 + z] || (!LineIn(Board(us, them, share1), z, 0) && LineIn(Board(us, them, share1), z, 1)))
    {
      assert ZoneMarked(share, b1, z);
    }
  }

  /** The loop over zones 0..6, on `firstSevenUs` and `firstSevenThem`. */
  method FirstSeven(us: Word, them: Word, share1: Word) returns (share: Word)
    ensures MarkedUpTo(share, Board(us, them, share1), 7)
  {
    ghost var b1 := Board(us, them, share1);
    share := share1;
    var firstSevenUs, firstSevenThem := us, them;
    for i := 0 to 7
      invariant MarkedUpTo(share, b1, i)
    {
      var usLine := LinePresenceAt(firstSevenUs, 9 * i);
      var themLine := LinePresenceAt(firstSevenThem, 9 * i);
      var share2 := MarkZone(share, i, usLine, themLine);
      MarkStep(share, share2, b1, i, usLine, themLine);
      share := share2;
    }
  }

  /** The loop over zones 7 and 8, on `lastTwoUs = share` and `lastTwoThem = share >> 18`. */
  method LastTwo(share0: Word, ghost b1: Board) returns (share: Word)
    requires MarkedUpTo(share0, b1, 7)
    ensures MarkedUpTo(share, b1, 9)
  {
    share := share0;
    var lastTwoUs, lastTwoThem := share, Sar(share, 18);
    for i := 7 to 9
      invariant MarkedUpTo(share, b1, i)
    {
      var usLine := LinePresenceAt(lastTwoUs, 9 * i - 63);
      var themLine := LinePresenceAt(lastTwoThem, 9 * i - 63);
      SouthGrids(lastTwoUs, b1, i);
      var share2 := MarkZone(share, i, usLine, themLine);
      MarkStep(share, share2, b1, i, usLine, themLine);
      share := share2;
    }
  }

  /** The won bits of zones 0..n-1 are marked, and no other bit differs from b1's share. */
  predicate MarkedUpTo(share: Word, b1: Board, n: nat)
    requires n <= 9
  {
    && (forall t :: 0 <= t < 64 && !(36 <= t < 36 + n) && !(45 <= t < 45 + n) ==> share[t] == b1.share[t])
    && (forall z :: 0 <= z < n ==> ZoneMarked(share, b1, z))
  }

  /** Marking zone i, from the line tests of its cells, extends the marked zones by one. */
  lemma MarkStep(share: Word, share2: Word, b1: Board, i: nat, usLine: bool, themLine: bool)
    requires i < 9 && MarkedUpTo(share, b1, i)
    requires usLine == LineIn(b1, i, 0) && themLine == LineIn(b1, i, 1)
    requires forall t :: 0 <= t < 64 ==>
      share2[t] == (share[t] || (t == 36 + i && usLine) || (t == 45 + i && !usLine && themLine))
    ensures MarkedUpTo(share2, b1, i + 1)
  {
    forall z | 0 <= z < i ensures ZoneMarked(share2, b1, z) {
      assert ZoneMarked(share, b1, z);
    }
  }

  /** `lastTwoUs >> (9 * i - 63)` and `lastTwoThem >> (9 * i - 63)` show the cells of zone i when the low 36 bits are b1's. */
  lemma SouthGrids(lastTwoUs: Word, b1: Board, i: nat)
    requires 7 <= i < 9 && forall t :: 0 <= t < 36 ==> lastTwoUs[t] == b1.share[t]
    ensures GridOf(Shr(lastTwoUs, 9 * i - 63)) == GridOf(ZoneWord(b1, i, 0))
    ensures GridOf(Shr(Sar(lastTwoUs, 18), 9 * i - 63)) == GridOf(ZoneWord(b1, i, 1))
  {
  }

  /** The won bits of zone z in share, over those of the board b1 it was computed from. */
  predicate ZoneMarked(share: Word, b1: Board, z: nat)
    requires z < 9
  {
    && share[36 + z] == (b1.share[36 + z] || LineIn(b1, z, 0))
    && share[45 + z] == (b1.share[45 + z] || (!LineIn(b1, z, 0) && LineIn(b1, z, 1)))
  }

  /** One turn of a won-zone loop: `share |= 1L << (36 + i)` on the first player's line, else `1L << (45 + i)` on the second's. */
  method MarkZone(share: Word, i: nat, usLine: bool, themLine: bool) returns (share2: Word)
    requires i < 9
    ensures forall t :: 0 <= t < 64 ==>
      share2[t] == (share[t] || (t == 36 + i && usLine) || (t == 45 + i && !usLine && themLine))
  {
    share2 := share;
    if usLine {
      share2 := Or(share, Single(36 + i));
    } else if themLine {
      share2 := Or(share, Single(45 + i));
    }
  }

  /** The zone word the reader ors in first: `(long)z << 54`. */
  function ZoneBits(zone: nat): (w: Word)
    requires zone <= 9
    ensures forall t :: 0 <= t < 64 ==> w[t] == (54 <= t < 58 && FromNat(zone)[t - 54])
  {
    assert Pow2(4) == 16;
    FromNatValue(zone, 4);
    Or(Zero(), Shl(FromNat(zone), 54))
  }

  /** A zone's grid in the words read from the characters is the grid of the parsed position. */
  lemma GridOfRead(flat: string, zone: nat, us: Word, them: Word, share1: Word, z: nat, side: Rules.Side)
    requires |flat| == 81 && zone <= 9 && z < 9
    requires CellsRead(flat, us, them, share1, ZoneBits(zone))
    ensures LineIn(Board(us, them, share1), z, side)
      == Rules.HasLine(Rules.ZoneGrid(Position(flat, zone).cells, z, Rules.MarkOf(side)))
  {
    var p := Position(flat, zone);
    var b1 := Board(us, them, share1);
    forall c | 0 <= c < 9
      ensures GridOf(ZoneWord(b1, z, side))[c] == Rules.ZoneGrid(p.cells, z, Rules.MarkOf(side))[c]
    {
      CellOfRead(flat, zone, us, them, share1, z, side, c);
    }
    assert GridOf(ZoneWord(b1, z, side)) == Rules.ZoneGrid(p.cells, z, Rules.MarkOf(side));
  }

  /** One cell of that zone grid. */
  lemma CellOfRead(flat: string, zone: nat, us: Word, them: Word, share1: Word, z: nat, side: Rules.Side, c: nat)
    requires |flat| == 81 && zone <= 9 && z < 9 && c < 9
    requires CellsRead(flat, us, them, share1, ZoneBits(zone))
    ensures GridOf(ZoneWord(Board(us, them, share1), z, side))[c]
      == Rules.ZoneGrid(Position(flat, zone).cells, z, Rules.MarkOf(side))[c]
  {
    var m := 9 * z + c;
    var ch := if side == 0 then 'x' else 'o';
    assert Rules.ZoneGrid(Position(flat, zone).cells, z, Rules.MarkOf(side))[c]
      == (MarkOfChar(flat[CellPos(m)]) == Rules.MarkOf(side))
      == (flat[CellPos(m)] == ch);
    var x := ZoneWord(Board(us, them, share1), z, side);
    assert GridOf(x)[c] == x[c];
    if z < 7 {
      CellOfWord(flat, if side == 0 then us else them, ch, z, c);
    } else {
      CellOfShare(flat, share1, zone, z, side, c);
    }
  }

  /** A cell of zones 0..6, in the word read for ch. */
  lemma CellOfWord(flat: string, w: Word, ch: char, z: nat, c: nat)
    requires |flat| == 81 && z < 7 && c < 9 && WordRead(flat, w, ch, 81)
    ensures Shr(w, 9 * z)[c] == (flat[CellPos(9 * z + c)] == ch)
  {
    assert Shr(w, 9 * z)[c] == w[9 * z + c];
  }

  /** A cell of zones 7 and 8, in the low 36 bits of `share`. */
  lemma CellOfShare(flat: string, share1: Word, zone: nat, z: nat, side: Rules.Side, c: nat)
    requires |flat| == 81 && zone <= 9 && 7 <= z < 9 && c < 9 && ShareRead(flat, share1, ZoneBits(zone), 81)
    ensures Shr(share1, 9 * z - 63 + 18 * side)[c] == (flat[CellPos(9 * z + c)] == if side == 0 then 'x' else 'o')
  {
    var m := 9 * z + c;
    var t := m - 63 + 18 * side;
    assert Shr(share1, 9 * z - 63 + 18 * side)[c] == share1[t];
    assert !ZoneBits(zone)[t];
    if side == 0 {
      assert 63 + t == m && t < 18;
    } else {
      assert 45 + t == m && 18 <= t < 36;
    }
  }

  /** The two players' words read from the characters are those of the parsed position. */
  lemma ReadWords(flat: string, zone: nat, us: Word, them: Word, share1: Word)
    requires |flat| == 81 && zone <= 9
    requires CellsRead(flat, us, them, share1, ZoneBits(zone))
    ensures Encode(Position(flat, zone)).us == us && Encode(Position(flat, zone)).them == them
  {
    var e := Encode(Position(flat, zone));
    forall t | 0 <= t < 64 ensures e.us[t] == us[t] && e.them[t] == them[t] {
      if t < 63 {
        assert Position(flat, zone).cells[t] == MarkOfChar(flat[CellPos(t)]);
      }
    }
  }

  /** The bits of `share` outside the won zones, read from the characters and the zone, are those of the parsed position. */
  lemma ReadShareCells(flat: string, zone: nat, us: Word, them: Word, share1: Word)
    requires |flat| == 81 && zone <= 9
    requires CellsRead(flat, us, them, share1, ZoneBits(zone))
    ensures forall t :: 0 <= t < 64 && !(36 <= t < 54) ==> Encode(Position(flat, zone)).share[t] == share1[t]
  {
    var p := Position(flat, zone);
    var e := Encode(p);
    forall t | 0 <= t < 64 && !(36 <= t < 54) ensures e.share[t] == share1[t] {
      if t < 18 {
        assert p.cells[63 + t] == MarkOfChar(flat[CellPos(63 + t)]);
      } else if t < 36 {
        assert p.cells[45 + t] == MarkOfChar(flat[CellPos(45 + t)]);
      } else {
        assert share1[t] == ZoneBits(zone)[t];
      }
    }
  }

  /** The words the reader ends with are the encoding of the parsed position. */
  lemma ReadBoard(flat: string, zone: nat, us: Word, them: Word, share1: Word, share: Word)
    requires |flat| == 81 && zone <= 9
    requires CellsRead(flat, us, them, share1, ZoneBits(zone))
    requires forall t :: 0 <= t < 64 && !(36 <= t < 54) ==> share[t] == share1[t]
    requires forall z :: 0 <= z < 9 ==>
      share[36 + z] == (share1[36 + z] || LineIn(Board(us, them, share1), z, 0))
    requires forall z :: 0 <= z < 9 ==>
      share[45 + z] == (share1[45 + z] || (!LineIn(Board(us, them, share1), z, 0) && LineIn(Board(us, them, share1), z, 1)))
    ensures Board(us, them, share) == Encode(Position(flat, zone))
  {
    var e := Encode(Position(flat, zone));
    ReadWords(flat, zone, us, them, share1);
    ReadShareCells(flat, zone, us, them, share1);
    ReadWon(flat, zone, us, them, share1, share);
    assert e.share == share;
  }

  /** The won-zone bits the reader sets from the lines it finds are those of the parsed position. */
  lemma ReadWon(flat: string, zone: nat, us: Word, them: Word, share1: Word, share: Word)
    requires |flat| == 81 && zone <= 9
    requires CellsRead(flat, us, them, share1, ZoneBits(zone))
    requires forall z :: 0 <= z < 9 ==>
      share[36 + z] == (share1[36 + z] || LineIn(Board(us, them, share1), z, 0))
    requires forall z :: 0 <= z < 9 ==>
      share[45 + z] == (share1[45 + z] || (!LineIn(Board(us, them, share1), z, 0) && LineIn(Board(us, them, share1), z, 1)))
    ensures forall t :: 36 <= t < 54 ==> Encode(Position(flat, zone)).share[t] == share[t]
  {
    var e := Encode(Position(flat, zone));
    forall t | 36 <= t < 54 ensures e.share[t] == share[t] {
      assert !share1[t] by {
        assert ShareRead(flat, share1, ZoneBits(zone), 81);
      }
      if t < 45 {
        GridOfRead(flat, zone, us, them, share1, t - 36, 0);
      } else {
        GridOfRead(flat, zone, us, them, share1, t - 45, 0);
        GridOfRead(flat, zone, us, them, share1, t - 45, 1);
      }
    }
  }

  /**
   * `boardFromString(boardString)`: the imperative reader, which throws
   * FormatException (here None) on a malformed string. It computes
   * exactly ParseBoard.
   */
  method BoardFromString(boardString: string) returns (r: Option<Board>)
    ensures r == ParseBoard(boardString)
  {
    var decompressedString := Expand(boardString);
    var cellAndZone := JavaSplit(decompressedString, ' ');
    if |cellAndZone| != 2 {
      return None;
    }
    var cell, zone := cellAndZone[0], cellAndZone[1];
    var found, share, zoneValue := ZoneShare(zone);
    if !found {
      return None;
    }
    r := ReadRows(cell, zoneValue, share);
  }

  /** The zone field: one of the nine names or "any", its number placed at bit 54 of a clear `share`. */
  method ZoneShare(zone: string) returns (found: bool, share: Word, ghost zoneValue: nat)
    ensures found == ZoneOfName(zone).Some?
    ensures found ==> zoneValue == ZoneOfName(zone).value && share == ZoneBits(zoneValue)
  {
    share := Zero();
    var z := -1;
    for i := 0 to 9
      invariant z == NameIndex(zone, i)
    {
      if ZONE_NAMES[i] == zone {
        z := i;
      }
    }
    if z != -1 {
      share := Or(share, Shl(FromNat(z), 54));
      zoneValue := z;
    } else if zone == "any" {
      share := Or(share, Shl(FromNat(ZONE_ANY), 54));
      zoneValue := ZONE_ANY;
    } else {
      return false, share, 0;
    }
    found := true;
  }

  /** The cell field: nine rows of nine characters, read into the words, then the won bits. */
  method ReadRows(cell: string, ghost zoneValue: nat, share0: Word) returns (r: Option<Board>)
    requires zoneValue <= 9 && share0 == ZoneBits(zoneValue)
    ensures r == ParseRows(cell, zoneValue)
  {
    var rows := JavaSplit(cell, '/');
    if |rows| != 9 {
      return None;
    }
    if exists q :: 0 <= q < 9 && |rows[q]| != 9 {
      return None;
    }
    var rowIndices := RowIndices();
    var decompressedString := Without(cell, '/');
    WithoutJavaSplit(cell, '/');
    ConcatLength(rows);
    var us, them, share1 := ReadCells(decompressedString, rowIndices, share0);
    var share := WonBits(us, them, share1);
    ReadBoard(decompressedString, zoneValue, us, them, share1, share);
    return Some(Board(us, them, share));
  }
}
