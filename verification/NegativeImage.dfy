/** Lab 8: the negative of an image, computed by threads that share it out by columns ("block") or by
    colours ("numbers").  A step of a thread writes one pixel; steps of threads interleave. */
module NegativeImage {
  import opened Interleaving

  /** An unsigned short. */
  type Pixel = x: int | 0 <= x < 0x1_0000

  const MAX_POSSIBLE_COLOR: Pixel := 255

  datatype Cell = Cell(row: nat, col: nat)

  type Image = map<Cell, Pixel>

  /** Brighter pixels than the maximum wrap around. */
  function Negative(p: Pixel): Pixel {
    (MAX_POSSIBLE_COLOR - p) % 0x1_0000
  }

  lemma NegativeTwice(p: Pixel)
    ensures Negative(p) == if p <= 255 then 255 - p else 0x1_0000 + 255 - p
    ensures Negative(Negative(p)) == p
  {
  }

  // ---------------------------------------------------------------- shares

  function Min(a: nat, b: nat): nat {
    if a > b then b else a
  }

  function CeilDiv(a: nat, b: nat): nat
    requires b > 0
  {
    (a + b - 1) / b
  }

  /** The width of a block is the least with which the threads cover all columns. */
  lemma LeastWidth(w: nat, n: nat, width: nat)
    requires n > 0
    ensures width * n >= w <==> width >= CeilDiv(w, n)
  {
    var c := CeilDiv(w, n);
    assert c * n >= w && (c - 1) * n < w;
    if width >= c {
      assert width * n >= c * n;
    } else {
      assert width * n <= (c - 1) * n;
    }
  }

  predicate InBlock(w: nat, n: nat, idx: nat, col: int)
    requires n > 0
  {
    CeilDiv(w, n) * idx <= col < Min(CeilDiv(w, n) * (idx + 1), w)
  }

  predicate InNumbers(m: nat, n: nat, idx: nat, color: int)
    requires n > 0
  {
    (m + 1) / n * idx <= color < Min((m + 1) / n * (idx + 1), m + 1)
  }

  /** The share of a value when shares of size c are dealt out in order. */
  lemma ShareOf(x: nat, c: nat, idx: nat)
    requires c > 0
    ensures c * idx <= x < c * (idx + 1) <==> idx == x / c
  {
    var q := x / c;
    assert c * q <= x < c * (q + 1);
    if idx < q {
      assert c * (idx + 1) <= c * q;
    } else if idx > q {
      assert c * (q + 1) <= c * idx;
    }
  }

  lemma FewerShares(x: nat, c: nat, n: nat)
    requires c > 0
    ensures x / c < n <==> x < c * n
  {
    ShareOf(x, c, x / c);
    var q := x / c;
    if q < n {
      assert c * (q + 1) <= c * n;
    } else {
      assert c * n <= c * q;
    }
  }

  /** Every column is in exactly one thread's block. */
  lemma BlockOwner(w: nat, n: nat, idx: nat, col: nat)
    requires n > 0 && col < w
    ensures CeilDiv(w, n) > 0 && col / CeilDiv(w, n) < n
    ensures InBlock(w, n, idx, col) <==> idx == col / CeilDiv(w, n)
  {
    var c := CeilDiv(w, n);
    assert c * n >= w > 0;
    assert c > 0;
    FewerShares(col, c, n);
    ShareOf(col, c, idx);
  }

  /** Every colour below a multiple of the share is in exactly one thread's share, the others in none. */
  lemma NumbersOwner(m: nat, n: nat, idx: nat, color: nat)
    requires n > 0 && idx < n
    ensures var q := (m + 1) / n;
            InNumbers(m, n, idx, color) <==> color < n * q && q > 0 && idx == color / q
  {
    var q := (m + 1) / n;
    assert n * q <= m + 1;
    if q > 0 {
      ShareOf(color, q, idx);
      FewerShares(color, q, n);
      assert q * (idx + 1) <= q * n;
    }
  }

  // ---------------------------------------------------------------- what the threads do

  function Row(i: nat, lo: nat, hi: nat): seq<Cell>
    decreases hi
  {
    if hi <= lo then [] else Row(i, lo, hi - 1) + [Cell(i, hi - 1)]
  }

  /** The cells of columns lo..hi, row by row. */
  function Rect(h: nat, lo: nat, hi: nat): seq<Cell> {
    if h == 0 then [] else Rect(h - 1, lo, hi) + Row(h - 1, lo, hi)
  }

  lemma {:induction false} CellOfRow(i: nat, lo: nat, hi: nat, c: Cell)
    ensures c in Row(i, lo, hi) <==> c.row == i && lo <= c.col < hi
    decreases hi
  {
    if hi > lo {
      CellOfRow(i, lo, hi - 1, c);
      InEither(Row(i, lo, hi - 1), [Cell(i, hi - 1)], c);
    }
  }

  lemma {:induction false} CellOfRect(h: nat, lo: nat, hi: nat, c: Cell)
    ensures c in Rect(h, lo, hi) <==> c.row < h && lo <= c.col < hi
  {
    if h > 0 {
      var rows, row := Rect(h - 1, lo, hi), Row(h - 1, lo, hi);
      CellOfRect(h - 1, lo, hi, c);
      CellOfRow(h - 1, lo, hi, c);
      CellOfNext(rows, row, h - 1, lo, hi, c);
    }
  }

  lemma CellOfNext(rows: seq<Cell>, row: seq<Cell>, i: nat, lo: nat, hi: nat, c: Cell)
    requires c in rows <==> c.row < i && lo <= c.col < hi
    requires c in row <==> c.row == i && lo <= c.col < hi
    ensures c in rows + row <==> c.row < i + 1 && lo <= c.col < hi
  {
    InEither(rows, row, c);
  }

  lemma InEither(a: seq<Cell>, b: seq<Cell>, c: Cell)
    ensures c in a + b <==> c in a || c in b
  {
  }

  /** The cells that thread idx writes, in its order. */
  function BlockProgram(h: nat, w: nat, n: nat, idx: nat): seq<Cell>
    requires n > 0
  {
    Rect(h, CeilDiv(w, n) * idx, Min(CeilDiv(w, n) * (idx + 1), w))
  }

  function Chosen(cells: seq<Cell>, source: Image, m: nat, n: nat, idx: nat): seq<Cell>
    requires n > 0
  {
    if cells == [] then []
    else
      (if cells[0] in source && InNumbers(m, n, idx, source[cells[0]]) then [cells[0]] else [])
      + Chosen(cells[1..], source, m, n, idx)
  }

  function NumbersProgram(h: nat, w: nat, source: Image, m: nat, n: nat, idx: nat): seq<Cell>
    requires n > 0
  {
    Chosen(Rect(h, 0, w), source, m, n, idx)
  }

  lemma {:induction false} CellChosen(cells: seq<Cell>, source: Image, m: nat, n: nat, idx: nat, c: Cell)
    requires n > 0
    ensures c in Chosen(cells, source, m, n, idx) <==>
            c in cells && c in source && InNumbers(m, n, idx, source[c])
  {
    if cells != [] {
      CellChosen(cells[1..], source, m, n, idx, c);
    }
  }

  ghost predicate HasSize(image: Image, h: nat, w: nat) {
    forall c :: c in image <==> c.row < h && c.col < w
  }

  /** The result image after a sequence of steps. */
  function Written(image: Image, source: Image, steps: seq<Cell>): Image
    decreases |steps|
  {
    if steps == [] then image
    else if steps[0] in source then Written(image[steps[0] := Negative(source[steps[0]])], source, steps[1..])
    else Written(image, source, steps[1..])
  }

  lemma {:induction false} WrittenCell(image: Image, source: Image, steps: seq<Cell>, c: Cell)
    ensures var r := Written(image, source, steps);
            && (c in r <==> c in image || (c in steps && c in source))
            && (c in r ==> r[c] == if c in steps && c in source then Negative(source[c]) else image[c])
    decreases |steps|
  {
    if steps != [] {
      if steps[0] in source {
        WrittenCell(image[steps[0] := Negative(source[steps[0]])], source, steps[1..], c);
      } else {
        WrittenCell(image, source, steps[1..], c);
      }
    }
  }

  /** Fresh memory is zero. */
  function Blank(source: Image): Image {
    map c | c in source :: 0
  }

  function Negated(source: Image): Image {
    map c | c in source :: Negative(source[c])
  }

  function BlockPrograms(h: nat, w: nat, n: nat): (r: seq<seq<Cell>>)
    requires n > 0
    ensures |r| == n
  {
    seq(n, idx requires 0 <= idx < n => BlockProgram(h, w, n, idx))
  }

  function NumbersPrograms(h: nat, w: nat, source: Image, m: nat, n: nat): (r: seq<seq<Cell>>)
    requires n > 0
    ensures |r| == n
  {
    seq(n, idx requires 0 <= idx < n => NumbersProgram(h, w, source, m, n, idx))
  }

  // ---------------------------------------------------------------- all interleavings

  lemma CellOfBlock(h: nat, w: nat, n: nat, idx: nat, c: Cell)
    requires n > 0 && c.row < h && c.col < w
    ensures c in BlockProgram(h, w, n, idx) <==> idx == c.col / CeilDiv(w, n)
  {
    CellOfRect(h, CeilDiv(w, n) * idx, Min(CeilDiv(w, n) * (idx + 1), w), c);
    BlockOwner(w, n, idx, c.col);
  }

  lemma OwnerOf(w: nat, n: nat, col: nat) returns (owner: nat)
    requires n > 0 && col < w
    ensures owner < n && InBlock(w, n, owner, col)
  {
    owner := col / CeilDiv(w, n);
    BlockOwner(w, n, owner, col);
  }

  lemma CellInBlock(h: nat, w: nat, n: nat, idx: nat, c: Cell)
    requires n > 0 && c.row < h && InBlock(w, n, idx, c.col)
    ensures c in BlockProgram(h, w, n, idx)
  {
    CellOfRect(h, CeilDiv(w, n) * idx, Min(CeilDiv(w, n) * (idx + 1), w), c);
  }

  lemma BlockMethodCell(h: nat, w: nat, source: Image, n: nat, schedule: seq<nat>, c: Cell)
    requires n > 0 && HasSize(source, h, w) && Complete(BlockPrograms(h, w, n), schedule) && c in source
    ensures c in Merge(BlockPrograms(h, w, n), schedule)
  {
    var owner := OwnerOf(w, n, c.col);
    CellInBlock(h, w, n, owner, c);
    assert c in BlockPrograms(h, w, n)[owner];
    MergedFromStreams(BlockPrograms(h, w, n), schedule, c);
  }

  /** For any number of threads, every schedule of the block method gives the negative image. */
  lemma BlockMethodNegates(h: nat, w: nat, source: Image, n: nat, schedule: seq<nat>)
    requires n > 0 && HasSize(source, h, w) && Complete(BlockPrograms(h, w, n), schedule)
    ensures Written(Blank(source), source, Merge(BlockPrograms(h, w, n), schedule)) == Negated(source)
  {
    var steps := Merge(BlockPrograms(h, w, n), schedule);
    forall c | c in source
      ensures c in steps
    {
      BlockMethodCell(h, w, source, n, schedule, c);
    }
    AllWritten(source, steps);
  }

  lemma AllWritten(source: Image, steps: seq<Cell>)
    requires forall c :: c in source ==> c in steps
    ensures Written(Blank(source), source, steps) == Negated(source)
  {
    forall c: Cell
      ensures c in Written(Blank(source), source, steps) <==> c in source
      ensures c in source ==> Written(Blank(source), source, steps)[c] == Negative(source[c])
    {
      WrittenCell(Blank(source), source, steps, c);
    }
  }

  /** Under every schedule of the block method a pixel and its result add up to 255; a brighter pixel wraps
      around in the unsigned short. */
  lemma BlockMethodSums(h: nat, w: nat, source: Image, n: nat, schedule: seq<nat>, c: Cell)
    requires n > 0 && HasSize(source, h, w) && Complete(BlockPrograms(h, w, n), schedule) && c in source
    ensures var result := Written(Blank(source), source, Merge(BlockPrograms(h, w, n), schedule));
            && c in result
            && result[c] as int + source[c] as int == if source[c] <= 255 then 255 else 0x1_0000 + 255
  {
    BlockMethodNegates(h, w, source, n, schedule);
  }

  /** The negative of the negative is the image itself, whatever the schedules and numbers of threads. */
  lemma TwiceIsSource(h: nat, w: nat, source: Image, n: nat, schedule: seq<nat>, result: Image,
                      n': nat, schedule': seq<nat>)
    requires n > 0 && HasSize(source, h, w) && Complete(BlockPrograms(h, w, n), schedule)
    requires result == Written(Blank(source), source, Merge(BlockPrograms(h, w, n), schedule))
    requires n' > 0 && Complete(BlockPrograms(h, w, n'), schedule')
    ensures Written(Blank(result), result, Merge(BlockPrograms(h, w, n'), schedule')) == source
  {
    BlockMethodNegates(h, w, source, n, schedule);
    BlockMethodNegates(h, w, result, n', schedule');
    NegatedTwice(source, result);
  }

  lemma NegatedTwice(source: Image, result: Image)
    requires result == Negated(source)
    ensures Negated(result) == source
  {
    assert Negated(result).Keys == source.Keys;
    forall c | c in source
      ensures Negated(result)[c] == source[c]
    {
      NegativeTwice(source[c]);
    }
  }

  lemma CellOfNumbers(h: nat, w: nat, source: Image, m: nat, n: nat, idx: nat, c: Cell)
    requires n > 0 && idx < n && HasSize(source, h, w) && c in source
    ensures var q := (m + 1) / n;
            c in NumbersProgram(h, w, source, m, n, idx) <==> source[c] < n * q && q > 0 && idx == source[c] / q
  {
    CellOfRect(h, 0, w, c);
    CellChosen(Rect(h, 0, w), source, m, n, idx, c);
    NumbersOwner(m, n, idx, source[c]);
  }

  lemma NumbersMethodCell(h: nat, w: nat, source: Image, m: nat, n: nat, schedule: seq<nat>, c: Cell)
    requires n > 0 && HasSize(source, h, w) && Complete(NumbersPrograms(h, w, source, m, n), schedule) && c in source
    ensures c in Merge(NumbersPrograms(h, w, source, m, n), schedule) <==> source[c] < n * ((m + 1) / n)
  {
    var programs := NumbersPrograms(h, w, source, m, n);
    MergedFromStreams(programs, schedule, c);
    if source[c] < n * ((m + 1) / n) {
      var owner := DealtTo(m, n, source[c]);
      CellOfNumbers(h, w, source, m, n, owner, c);
      assert c in programs[owner];
    }
    if InSome(programs, c) {
      var idx :| 0 <= idx < n && c in programs[idx];
      CellOfNumbers(h, w, source, m, n, idx, c);
    }
  }

  lemma DealtTo(m: nat, n: nat, color: nat) returns (owner: nat)
    requires n > 0 && color < n * ((m + 1) / n)
    ensures owner < n && (m + 1) / n > 0 && owner == color / ((m + 1) / n)
  {
    var q := (m + 1) / n;
    assert q > 0;
    FewerShares(color, q, n);
    owner := color / q;
  }

  /** Every schedule of the numbers method gives the same image; a pixel comes out right exactly when its
      colour was dealt out, or is 255, whose negative is the 0 that was there before. */
  lemma NumbersMethodResult(h: nat, w: nat, source: Image, m: nat, n: nat, schedule: seq<nat>, c: Cell)
    requires n > 0 && HasSize(source, h, w) && Complete(NumbersPrograms(h, w, source, m, n), schedule) && c in source
    ensures var result := Written(Blank(source), source, Merge(NumbersPrograms(h, w, source, m, n), schedule));
            && c in result
            && result[c] == (if source[c] < n * ((m + 1) / n) then Negative(source[c]) else 0)
            && (result[c] == Negative(source[c]) <==> source[c] < n * ((m + 1) / n) || source[c] == 255)
  {
    NumbersMethodCell(h, w, source, m, n, schedule, c);
    WrittenCell(Blank(source), source, Merge(NumbersPrograms(h, w, source, m, n), schedule), c);
  }

  /** So too the numbers method, for pixels whose colour was dealt out. */
  lemma NumbersMethodSums(h: nat, w: nat, source: Image, m: nat, n: nat, schedule: seq<nat>, c: Cell)
    requires n > 0 && HasSize(source, h, w) && Complete(NumbersPrograms(h, w, source, m, n), schedule) && c in source
    requires source[c] < n * ((m + 1) / n)
    ensures var result := Written(Blank(source), source, Merge(NumbersPrograms(h, w, source, m, n), schedule));
            && c in result
            && result[c] as int + source[c] as int == if source[c] <= 255 then 255 else 0x1_0000 + 255
  {
    NumbersMethodResult(h, w, source, m, n, schedule, c);
  }

  // ---------------------------------------------------------------- when the numbers method is right

  ghost predicate HasColors(source: Image, m: nat) {
    forall c :: c in source ==> source[c] <= m
  }

  /** The method makes the negative of every image of a size with colours up to m, under every schedule. */
  ghost predicate NumbersRight(h: nat, w: nat, m: nat, n: nat)
    requires n > 0
  {
    forall source, schedule ::
      HasSize(source, h, w) && HasColors(source, m) && Complete(NumbersPrograms(h, w, source, m, n), schedule) ==>
        Written(Blank(source), source, Merge(NumbersPrograms(h, w, source, m, n), schedule)) == Negated(source)
  }

  /** A colour of the format that is in nobody's share and whose negative is not the 0 that is there. */
  predicate LeftOut(m: nat, n: nat, color: nat)
    requires n > 0
  {
    n * ((m + 1) / n) <= color <= m && color < 0x1_0000 && color != 255
  }

  lemma NothingLeftOut(m: nat, n: nat)
    requires n > 0
    ensures (forall color :: !LeftOut(m, n, color)) <==>
            (m + 1) % n == 0 || (m == 255 && (m + 1) % n == 1) || n * ((m + 1) / n) > 0xffff
  {
    var dealt := n * ((m + 1) / n);
    assert dealt == m + 1 - (m + 1) % n;
    if (m + 1) % n > 0 && dealt <= 0xffff {
      assert dealt != 255 ==> LeftOut(m, n, dealt);
      assert m > 255 && dealt == 255 ==> LeftOut(m, n, 256);
    }
  }

  lemma RightWithoutLeftOut(h: nat, w: nat, source: Image, m: nat, n: nat, schedule: seq<nat>)
    requires n > 0 && HasSize(source, h, w) && HasColors(source, m)
    requires Complete(NumbersPrograms(h, w, source, m, n), schedule)
    requires forall color :: !LeftOut(m, n, color)
    ensures Written(Blank(source), source, Merge(NumbersPrograms(h, w, source, m, n), schedule)) == Negated(source)
  {
    var steps := Merge(NumbersPrograms(h, w, source, m, n), schedule);
    forall c: Cell
      ensures c in Written(Blank(source), source, steps) <==> c in source
      ensures c in source ==> Written(Blank(source), source, steps)[c] == Negative(source[c])
    {
      WrittenCell(Blank(source), source, steps, c);
      if c in source {
        assert !LeftOut(m, n, source[c]);
        NumbersMethodResult(h, w, source, m, n, schedule, c);
      }
    }
  }

  /** An image of one colour that is left out comes out wrong. */
  lemma WrongWithLeftOut(h: nat, w: nat, m: nat, n: nat, color: nat)
    requires n > 0 && h > 0 && w > 0 && LeftOut(m, n, color)
    ensures !NumbersRight(h, w, m, n)
  {
    var source: Image := map i: nat, j: nat | i < h && j < w :: Cell(i, j) := color;
    assert forall c: Cell :: c == Cell(c.row, c.col);
    var schedule := SomeSchedule(NumbersPrograms(h, w, source, m, n));
    NumbersMethodResult(h, w, source, m, n, schedule, Cell(0, 0));
  }

  /** All images of the format come out right exactly when the number of threads divides the number of
      colours, or nothing but the colour 255 is left over, or nothing but colours that no pixel can have. */
  lemma NumbersMethodComplete(h: nat, w: nat, m: nat, n: nat)
    requires n > 0
    ensures NumbersRight(h, w, m, n) <==>
            || h == 0 || w == 0
            || (m + 1) % n == 0 || (m == 255 && (m + 1) % n == 1) || n * ((m + 1) / n) > 0xffff
  {
    NothingLeftOut(m, n);
    if h > 0 && w > 0 {
      if color :| LeftOut(m, n, color) {
        WrongWithLeftOut(h, w, m, n, color);
      } else {
        AllRight(h, w, m, n);
      }
    } else {
      NoPixels(h, w, m, n);
    }
  }

  lemma AllRight(h: nat, w: nat, m: nat, n: nat)
    requires n > 0 && forall color :: !LeftOut(m, n, color)
    ensures NumbersRight(h, w, m, n)
  {
    forall source, schedule | HasSize(source, h, w) && HasColors(source, m)
                              && Complete(NumbersPrograms(h, w, source, m, n), schedule)
      ensures Written(Blank(source), source, Merge(NumbersPrograms(h, w, source, m, n), schedule)) == Negated(source)
    {
      RightWithoutLeftOut(h, w, source, m, n, schedule);
    }
  }

  lemma NoPixels(h: nat, w: nat, m: nat, n: nat)
    requires n > 0 && (h == 0 || w == 0)
    ensures NumbersRight(h, w, m, n)
  {
    forall source, schedule | HasSize(source, h, w) && HasColors(source, m)
                              && Complete(NumbersPrograms(h, w, source, m, n), schedule)
      ensures Written(Blank(source), source, Merge(NumbersPrograms(h, w, source, m, n), schedule)) == Negated(source)
    {
      AllWritten(source, Merge(NumbersPrograms(h, w, source, m, n), schedule));
    }
  }

  /** No two threads write the same pixel. */
  lemma ThreadsDisjoint(h: nat, w: nat, source: Image, m: nat, n: nat, idx: nat, other: nat, c: Cell)
    requires n > 0 && HasSize(source, h, w) && idx < n && other < n && idx != other
    ensures !(c in BlockProgram(h, w, n, idx) && c in BlockProgram(h, w, n, other))
    ensures !(c in NumbersProgram(h, w, source, m, n, idx) && c in NumbersProgram(h, w, source, m, n, other))
  {
    CellOfRect(h, CeilDiv(w, n) * idx, Min(CeilDiv(w, n) * (idx + 1), w), c);
    if c in BlockProgram(h, w, n, idx) {
      CellOfBlock(h, w, n, idx, c);
      CellOfBlock(h, w, n, other, c);
    }
    CellChosen(Rect(h, 0, w), source, m, n, idx, c);
    CellChosen(Rect(h, 0, w), source, m, n, other, c);
    if c in source {
      NumbersOwner(m, n, idx, source[c]);
      NumbersOwner(m, n, other, source[c]);
    }
  }

  // ---------------------------------------------------------------- one thread alone

  ghost function Pixels(image: array2<Pixel>): Image
    reads image
  {
    map i: nat, j: nat | i < image.Length0 && j < image.Length1 :: Cell(i, j) := image[i, j]
  }

  method BlockMethod(idx: nat, n: nat, source: array2<Pixel>, result: array2<Pixel>)
    requires n > 0 && source != result && source.Length0 == result.Length0 && source.Length1 == result.Length1
    modifies result
    ensures forall i, j :: 0 <= i < result.Length0 && 0 <= j < result.Length1 ==>
              result[i, j] == if InBlock(result.Length1, n, idx, j) then Negative(source[i, j]) else old(result[i, j])
    ensures Pixels(result) ==
            Written(old(Pixels(result)), Pixels(source), BlockProgram(result.Length0, result.Length1, n, idx))
  {
    ghost var h, w, before := source.Length0, source.Length1, Pixels(result);
    NegateColumns(CeilDiv(source.Length1, n) * idx, Min(CeilDiv(source.Length1, n) * (idx + 1), source.Length1),
                  source, result);
    ghost var after := Written(before, Pixels(source), BlockProgram(h, w, n, idx));
    forall c: Cell
      ensures c in Pixels(result) <==> c in after
      ensures c in after ==> Pixels(result)[c] == after[c]
    {
      WrittenCell(before, Pixels(source), BlockProgram(h, w, n, idx), c);
      CellOfRect(h, CeilDiv(w, n) * idx, Min(CeilDiv(w, n) * (idx + 1), w), c);
    }
  }

  method NegateColumns(minCol: nat, maxCol: nat, source: array2<Pixel>, result: array2<Pixel>)
    requires source != result && source.Length0 == result.Length0 && source.Length1 == result.Length1
    requires maxCol <= result.Length1
    modifies result
    ensures forall i, j :: 0 <= i < result.Length0 && 0 <= j < result.Length1 ==>
              result[i, j] == if minCol <= j < maxCol then Negative(source[i, j]) else old(result[i, j])
  {
    var h, w := source.Length0, source.Length1;
    for i := 0 to h
      invariant forall k, j :: 0 <= k < h && 0 <= j < w ==>
                  result[k, j] == if k < i && minCol <= j < maxCol then Negative(source[k, j]) else old(result[k, j])
    {
      var j := minCol;
      while j < maxCol
        invariant minCol <= j
        invariant forall k, l :: 0 <= k < h && 0 <= l < w ==>
                    result[k, l] == if minCol <= l < maxCol && (k < i || (k == i && l < j))
                                    then Negative(source[k, l]) else old(result[k, l])
      {
        result[i, j] := Negative(source[i, j]);
        j := j + 1;
      }
    }
  }

  method NumbersMethod(idx: nat, n: nat, m: nat, source: array2<Pixel>, result: array2<Pixel>)
    requires n > 0 && source != result && source.Length0 == result.Length0 && source.Length1 == result.Length1
    modifies result
    ensures forall i, j :: 0 <= i < result.Length0 && 0 <= j < result.Length1 ==>
              result[i, j] == if InNumbers(m, n, idx, source[i, j]) then Negative(source[i, j]) else old(result[i, j])
    ensures Pixels(result) ==
            Written(old(Pixels(result)), Pixels(source),
                    NumbersProgram(result.Length0, result.Length1, Pixels(source), m, n, idx))
  {
    ghost var h, w, before := source.Length0, source.Length1, Pixels(result);
    NegateColors((m + 1) / n * idx, Min((m + 1) / n * (idx + 1), m + 1), source, result);
    ghost var steps := NumbersProgram(h, w, Pixels(source), m, n, idx);
    ghost var after := Written(before, Pixels(source), steps);
    forall c: Cell
      ensures c in Pixels(result) <==> c in after
      ensures c in after ==> Pixels(result)[c] == after[c]
    {
      WrittenCell(before, Pixels(source), steps, c);
      CellOfRect(h, 0, w, c);
      CellChosen(Rect(h, 0, w), Pixels(source), m, n, idx, c);
    }
  }

  method NegateColors(minColor: nat, maxColor: nat, source: array2<Pixel>, result: array2<Pixel>)
    requires source != result && source.Length0 == result.Length0 && source.Length1 == result.Length1
    modifies result
    ensures forall i, j :: 0 <= i < result.Length0 && 0 <= j < result.Length1 ==>
              result[i, j] == if minColor <= source[i, j] < maxColor then Negative(source[i, j]) else old(result[i, j])
  {
    var h, w := source.Length0, source.Length1;
    for i := 0 to h
      invariant forall k, l :: 0 <= k < h && 0 <= l < w ==>
                  result[k, l] == if k < i && minColor <= source[k, l] < maxColor then Negative(source[k, l])
                                  else old(result[k, l])
    {
      for j := 0 to w
        invariant forall k, l :: 0 <= k < h && 0 <= l < w ==>
                    result[k, l] == if (k < i || (k == i && l < j)) && minColor <= source[k, l] < maxColor
                                    then Negative(source[k, l]) else old(result[k, l])
      {
        var currColor := source[i, j];
        if minColor <= currColor < maxColor {
          result[i, j] := Negative(currColor);
        }
      }
    }
  }
}
