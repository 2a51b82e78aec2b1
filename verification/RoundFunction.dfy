/** What the round function of Blowfish does with the four cells that the bytes of a word select. */
module RoundFunction {
  import opened Blowfish
  import opened CipherModes
  import opened Sums

  /** The boxes s' are the boxes s but for one cell, which holds v. */
  ghost predicate Changed(s: seq<seq<bv32>>, s': seq<seq<bv32>>, j: nat, i: bv8, v: bv32) {
    && Boxes(s) && Boxes(s') && j < 4 && s'[j][i as int] == v
    && forall k: nat, n: nat :: k < 4 && n < 256 && (k != j || n != i as int) ==> s'[k][n] == s[k][n]
  }

  lemma CellAt(s: seq<seq<bv32>>, j: nat, i: bv8)
    requires Boxes(s) && j < 4
    ensures Cell(s, j, i) == s[j][i as int]
  {
  }

  /** The four selected cells. */
  lemma Cells(s: seq<seq<bv32>>, a: bv8, b: bv8, c: bv8, d: bv8)
    requires Boxes(s)
    ensures Cell(s, 0, a) == s[0][a as int] && Cell(s, 1, b) == s[1][b as int]
    ensures Cell(s, 2, c) == s[2][c as int] && Cell(s, 3, d) == s[3][d as int]
  {
    hide Cell;
    CellAt(s, 0, a);
    CellAt(s, 1, b);
    CellAt(s, 2, c);
    CellAt(s, 3, d);
  }

  lemma ChangedCells(s: seq<seq<bv32>>, s': seq<seq<bv32>>, j: nat, i: bv8, v: bv32, k: nat, n: bv8)
    requires Changed(s, s', j, i, v) && k < 4
    ensures Boxes(s) && Boxes(s') && Cell(s', j, i) == v && (k != j ==> Cell(s', k, n) == Cell(s, k, n))
  {
    hide Cell;
    CellAt(s', j, i);
    CellAt(s', k, n);
    CellAt(s, k, n);
  }

  /** The cells that the bytes of a word select, the most significant byte first. */
  lemma Selects(s: seq<seq<bv32>>, a: bv8, b: bv8, c: bv8, d: bv8)
    requires Boxes(s)
    ensures F(s, Word(a, b, c, d)) == Plus(Add(Plus(Cell(s, 0, a), Cell(s, 1, b)), Cell(s, 2, c)), Cell(s, 3, d))
  {
    hide Word, Byte, Add, Plus, Cell, Boxes;
    ShiftedBytes(a, b, c, d);
  }

  /** No cell matters but the four selected ones. */
  lemma OnlySelectedMatter(s: seq<seq<bv32>>, s': seq<seq<bv32>>, a: bv8, b: bv8, c: bv8, d: bv8)
    requires Boxes(s) && Boxes(s')
    requires s'[0][a as int] == s[0][a as int] && s'[1][b as int] == s[1][b as int]
    requires s'[2][c as int] == s[2][c as int] && s'[3][d as int] == s[3][d as int]
    ensures F(s', Word(a, b, c, d)) == F(s, Word(a, b, c, d))
  {
    hide F, Word, Add, Plus, Cell, Boxes;
    Cells(s, a, b, c, d);
    Cells(s', a, b, c, d);
    Selects(s, a, b, c, d);
    Selects(s', a, b, c, d);
  }

  lemma SumOfRemainder(m: int, z: int, e: int)
    ensures (m + (z + e) % LIMIT) % LIMIT == ((m + z) % LIMIT + e) % LIMIT
  {
  }

  lemma SumMoves(m: bv32, z: bv32, y: bv32, e: int)
    requires Num(y) == (Num(z) + e) % LIMIT
    ensures Num(Plus(m, y)) == (Num(Plus(m, z)) + e) % LIMIT
  {
    hide Num, Plus;
    PlusNum(m, y);
    PlusNum(m, z);
    SumOfRemainder(Num(m), Num(z), e);
  }

  /** What is added to the cell of the fourth box is added to the result, modulo 2^32. */
  lemma FourthBoxAdds(s: seq<seq<bv32>>, s': seq<seq<bv32>>, a: bv8, b: bv8, c: bv8, d: bv8, v: bv32, e: int)
    requires Boxes(s) && Changed(s, s', 3, d, v) && Num(v) == (Num(s[3][d as int]) + e) % LIMIT
    ensures Num(F(s', Word(a, b, c, d))) == (Num(F(s, Word(a, b, c, d))) + e) % LIMIT
  {
    hide F, Word, Num, Add, Plus, Cell, Changed;
    CellAt(s, 3, d);
    ChangedCells(s, s', 3, d, v, 0, a);
    ChangedCells(s, s', 3, d, v, 1, b);
    ChangedCells(s, s', 3, d, v, 2, c);
    Selects(s, a, b, c, d);
    Selects(s', a, b, c, d);
    SumMoves(Add(Plus(Cell(s, 0, a), Cell(s, 1, b)), Cell(s, 2, c)), Cell(s, 3, d), v, e);
  }

  /** With nothing in the cell of the fourth box, what is xored into the cell of the third is xored into the result. */
  lemma ThirdBoxXors(s: seq<seq<bv32>>, s': seq<seq<bv32>>, a: bv8, b: bv8, c: bv8, d: bv8, e: bv32)
    requires Boxes(s) && Changed(s, s', 2, c, Add(s[2][c as int], e)) && s[3][d as int] == 0
    ensures F(s', Word(a, b, c, d)) == Add(F(s, Word(a, b, c, d)), e)
  {
    hide F, Word, Plus, Cell, Add, Changed;
    CellAt(s, 2, c);
    CellAt(s, 3, d);
    var v := Add(s[2][c as int], e);
    ChangedCells(s, s', 2, c, v, 0, a);
    ChangedCells(s, s', 2, c, v, 1, b);
    ChangedCells(s, s', 2, c, v, 3, d);
    var m := Plus(Cell(s, 0, a), Cell(s, 1, b));
    Selects(s, a, b, c, d);
    Selects(s', a, b, c, d);
    AddAssociates(m, Cell(s, 2, c), e);
    PlusZero(Add(m, Cell(s, 2, c)));
    PlusZero(Add(m, Add(Cell(s, 2, c), e)));
  }

  /** With nothing in the cells of the last two boxes, the result is the sum of the other two, modulo 2^32. */
  lemma FirstBoxesAdd(s: seq<seq<bv32>>, a: bv8, b: bv8, c: bv8, d: bv8)
    requires Boxes(s) && s[2][c as int] == 0 && s[3][d as int] == 0
    ensures Num(F(s, Word(a, b, c, d))) == (Num(s[0][a as int]) + Num(s[1][b as int])) % LIMIT
  {
    hide F, Word, Num, Add, Plus, Cell, Boxes;
    Cells(s, a, b, c, d);
    var m := Plus(Cell(s, 0, a), Cell(s, 1, b));
    Selects(s, a, b, c, d);
    AddZero(m);
    PlusZero(m);
    PlusNum(Cell(s, 0, a), Cell(s, 1, b));
  }
}
