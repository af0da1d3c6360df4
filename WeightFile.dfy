/**
 * The weight file read by NeuralNetwork.getNN: a header line of (m, n)
 * pairs, then for each pair m lines of at least n numbers and one line
 * that is skipped. Lines arrive already split on white space; a token
 * carries what `int(...)` and `float(...)` make of it.
 */
module WeightFile {
  import opened Wrappers
  import opened Matrices

  /** One white-space separated token and its two readings. */
  datatype Token = Token(asInt: Option<int>, asReal: Option<real>)

  /** The exception getNN stops with. */
  datatype ParseError =
    | MissingToken       // pop from an empty header list (odd token count)
    | NotAnInteger       // int() of a header token
    | NegativeDimension  // numpy.zeros with a negative size
    | ShortLine          // newLine[j] past the end of the line
    | NotANumber         // storing a token that float() rejects

  /** readline() past the end of the file gives an empty line. */
  function LineAt(lines: seq<seq<Token>>, k: nat): (line: seq<Token>)
    ensures k < |lines| ==> line == lines[k]
    ensures k >= |lines| ==> line == []
  {
    if k < |lines| then lines[k] else []
  }

  /**
   * The first `n` cells of a weight row, read left to right: the first
   * token missing or not a number stops the read.
   */
  function ReadRow(line: seq<Token>, n: nat): (r: Result<seq<real>, ParseError>)
    ensures r.Success? <==> n <= |line| && forall j :: 0 <= j < n ==> line[j].asReal.Some?
    ensures r.Success? ==> |r.value| == n && forall j :: 0 <= j < n ==> r.value[j] == line[j].asReal.value
  {
    if n == 0 then Success([])
    else match ReadRow(line, n - 1)
      case Failure(e) => Failure(e)
      case Success(cells) =>
        if n - 1 >= |line| then Failure(ShortLine)
        else if line[n - 1].asReal.None? then Failure(NotANumber)
        else Success(cells + [line[n - 1].asReal.value])
  }

  /**
   * A short line is reported only when every token it has is a number;
   * otherwise the first bad token within the n cells is reported.
   */
  lemma {:induction false} ReadRowError(line: seq<Token>, n: nat)
    ensures ReadRow(line, n) == Failure(ShortLine) <==> |line| < n && forall j :: 0 <= j < |line| ==> line[j].asReal.Some?
    ensures ReadRow(line, n) == Failure(NotANumber) <==> exists j :: 0 <= j < n && j < |line| && line[j].asReal.None?
  {
    if n > 0 {
      ReadRowError(line, n - 1);
      if ReadRow(line, n - 1).Success? && n - 1 < |line| && line[n - 1].asReal.None? {
        assert 0 <= n - 1 < n && n - 1 < |line| && line[n - 1].asReal.None?;
      }
    }
  }

  /** Tokens after the n-th never matter. */
  lemma ExtraTokensIgnored(line: seq<Token>, n: nat)
    requires n <= |line|
    ensures ReadRow(line, n) == ReadRow(line[..n], n)
  {
    var r, r' := ReadRow(line, n), ReadRow(line[..n], n);
    if r.Success? {
      assert r'.Success?;
      assert r.value == r'.value;
    } else {
      ReadRowError(line, n);
      ReadRowError(line[..n], n);
      var j :| 0 <= j < n && line[j].asReal.None?;
      assert line[..n][j].asReal.None?;
    }
  }

  /** Row `i` of a block whose first row is line `pos`. */
  function RowAt(lines: seq<seq<Token>>, pos: nat, i: nat, n: nat): Result<seq<real>, ParseError>
  {
    ReadRow(LineAt(lines, pos + i), n)
  }

  /** The first `k` rows of an m-by-n block whose first row is line `pos`. */
  function ReadRows(lines: seq<seq<Token>>, pos: nat, k: nat, n: nat): (r: Result<seq<seq<real>>, ParseError>)
    ensures r.Success? ==> |r.value| == k
  {
    if k == 0 then Success([])
    else
      var rows := ReadRows(lines, pos, k - 1, n);
      var last := RowAt(lines, pos, k - 1, n);
      if rows.Failure? then Failure(rows.error)
      else if last.Failure? then Failure(last.error)
      else Success(rows.value + [last.value])
  }

  /** A block is read exactly when each of its rows is, and then holds those rows. */
  lemma {:induction false} ReadRowsAll(lines: seq<seq<Token>>, pos: nat, k: nat, n: nat)
    ensures ReadRows(lines, pos, k, n).Success? <==> forall i :: 0 <= i < k ==> RowAt(lines, pos, i, n).Success?
    ensures ReadRows(lines, pos, k, n).Success? ==>
      forall i :: 0 <= i < k ==> RowAt(lines, pos, i, n) == Success(ReadRows(lines, pos, k, n).value[i])
  {
    if k > 0 {
      ReadRowsAll(lines, pos, k - 1, n);
      var prev, last := ReadRows(lines, pos, k - 1, n), RowAt(lines, pos, k - 1, n);
      if prev.Success? && last.Success? {
        var rows := prev.value + [last.value];
        assert ReadRows(lines, pos, k, n) == Success(rows);
        forall i | 0 <= i < k ensures RowAt(lines, pos, i, n) == Success(rows[i]) {
          if i < k - 1 {
            assert rows[i] == prev.value[i];
          }
        }
      }
    }
  }

  /** A block fails with the error of its first bad row. */
  lemma {:induction false} ReadRowsFailurePropagates(lines: seq<seq<Token>>, pos: nat, k: nat, n: nat, i: nat)
    requires i < k
    requires forall r :: 0 <= r < i ==> RowAt(lines, pos, r, n).Success?
    requires RowAt(lines, pos, i, n).Failure?
    ensures ReadRows(lines, pos, k, n) == Failure(RowAt(lines, pos, i, n).error)
  {
    if k - 1 > i {
      ReadRowsFailurePropagates(lines, pos, k - 1, n, i);
    } else {
      ReadRowsAll(lines, pos, k - 1, n);
    }
  }

  /** What getNN leaves in Theta, and the exception it stopped with, if any. */
  datatype Parsed = Parsed(blocks: seq<Matrix>, error: Option<ParseError>)

  /** Block `b` has the shape the first (m, n) pair of `header` declares. */
  predicate Declares(header: seq<Token>, b: Matrix)
  {
    && 2 <= |header|
    && header[0].asInt == Some(b.rows as int)
    && header[1].asInt == Some(b.cols as int)
    && b.Valid()
  }

  /** The blocks have, in order, the shapes of the header's successive pairs. */
  predicate ShapesAsDeclared(header: seq<Token>, bs: seq<Matrix>)
    decreases |bs|
  {
    |bs| == 0 || (Declares(header, bs[0]) && ShapesAsDeclared(header[2..], bs[1..]))
  }

  /**
   * The header loop from the header tokens still to be popped, the next
   * unread line and the blocks appended so far.
   */
  function ParseBlocks(header: seq<Token>, lines: seq<seq<Token>>, pos: nat, blocks: seq<Matrix>): (r: Parsed)
    ensures |r.blocks| >= |blocks|
    decreases |header|
  {
    if |header| == 0 then Parsed(blocks, None)
    else if header[0].asInt.None? then Parsed(blocks, Some(NotAnInteger))
    else if |header| == 1 then Parsed(blocks, Some(MissingToken))
    else if header[1].asInt.None? then Parsed(blocks, Some(NotAnInteger))
    else
      var m, n := header[0].asInt.value, header[1].asInt.value;
      if m < 0 || n < 0 then Parsed(blocks, Some(NegativeDimension))
      else match ReadRows(lines, pos, m, n)
        case Failure(e) => Parsed(blocks, Some(e))
        case Success(rows) =>
          ParseBlocks(header[2..], lines, pos + m + 1, blocks + [Matrix(m, n, rows)])
  }

  /** The header loop only ever appends to Theta. */
  lemma {:induction false} ParseBlocksExtends(header: seq<Token>, lines: seq<seq<Token>>, pos: nat, blocks: seq<Matrix>)
    ensures var r := ParseBlocks(header, lines, pos, blocks);
      |r.blocks| >= |blocks| && r.blocks[..|blocks|] == blocks
    decreases |header|
  {
    var r := ParseBlocks(header, lines, pos, blocks);
    if r.blocks != blocks {
      var m, n := header[0].asInt.value, header[1].asInt.value;
      var next := blocks + [Matrix(m, n, ReadRows(lines, pos, m, n).value)];
      ParseBlocksExtends(header[2..], lines, pos + m + 1, next);
      assert r.blocks[..|blocks|] == r.blocks[..|next|][..|blocks|];
    }
  }

  /** Every block read has the shape its pair of header tokens declares. */
  lemma {:induction false} BlocksAsDeclared(header: seq<Token>, lines: seq<seq<Token>>, pos: nat, blocks: seq<Matrix>)
    ensures var r := ParseBlocks(header, lines, pos, blocks);
      ShapesAsDeclared(header, r.blocks[|blocks|..])
    decreases |header|
  {
    var r := ParseBlocks(header, lines, pos, blocks);
    if r.blocks == blocks {
      assert r.blocks[|blocks|..] == [];
    } else {
      var m, n := header[0].asInt.value, header[1].asInt.value;
      ReadRowsAll(lines, pos, m, n);
      var rows := ReadRows(lines, pos, m, n).value;
      assert Matrix(m, n, rows).Valid() by {
        forall i | 0 <= i < m ensures |rows[i]| == n {
          assert RowAt(lines, pos, i, n) == Success(rows[i]);
        }
      }
      var next := blocks + [Matrix(m, n, rows)];
      assert r == ParseBlocks(header[2..], lines, pos + m + 1, next);
      ParseBlocksExtends(header[2..], lines, pos + m + 1, next);
      BlocksAsDeclared(header[2..], lines, pos + m + 1, next);
      var tail := r.blocks[|blocks|..];
      assert tail[0] == r.blocks[..|next|][|blocks|] == Matrix(m, n, rows);
      assert tail[1..] == r.blocks[|next|..];
      assert Declares(header, tail[0]);
    }
  }

  /** One pass of the header loop that reads a whole block. */
  lemma ParseBlocksStep(header: seq<Token>, lines: seq<seq<Token>>, pos: nat, blocks: seq<Matrix>, m: nat, n: nat)
    requires 2 <= |header| && header[0].asInt == Some(m as int) && header[1].asInt == Some(n as int)
    requires ReadRows(lines, pos, m, n).Success?
    ensures ParseBlocks(header, lines, pos, blocks)
      == ParseBlocks(header[2..], lines, pos + m + 1, blocks + [Matrix(m, n, ReadRows(lines, pos, m, n).value)])
  {
  }

  /** A block read without error is an m-by-n matrix of its rows. */
  lemma BlockOfRows(lines: seq<seq<Token>>, pos: nat, m: nat, n: nat)
    requires ReadRows(lines, pos, m, n).Success?
    ensures var rows := ReadRows(lines, pos, m, n).value;
      && Matrix(m, n, rows).Valid()
      && forall i :: 0 <= i < m ==> RowAt(lines, pos, i, n) == Success(rows[i])
  {
    ReadRowsAll(lines, pos, m, n);
    var rows := ReadRows(lines, pos, m, n).value;
    forall i | 0 <= i < m ensures |rows[i]| == n {
      assert RowAt(lines, pos, i, n) == Success(rows[i]);
    }
  }

  /** Blocks already in Theta stay where they are. */
  lemma KeepsBlock(header: seq<Token>, lines: seq<seq<Token>>, pos: nat, blocks: seq<Matrix>, k: nat)
    requires k < |blocks|
    ensures ParseBlocks(header, lines, pos, blocks).blocks[k] == blocks[k]
  {
    ParseBlocksExtends(header, lines, pos, blocks);
    var r := ParseBlocks(header, lines, pos, blocks);
    assert r.blocks[k] == r.blocks[..|blocks|][k];
  }

  /** A call that adds a block has read a whole block first. */
  lemma ParseBlocksGrows(header: seq<Token>, lines: seq<seq<Token>>, pos: nat, blocks: seq<Matrix>)
    requires |ParseBlocks(header, lines, pos, blocks).blocks| > |blocks|
    ensures 2 <= |header| && header[0].asInt.Some? && header[1].asInt.Some?
    ensures var m, n := header[0].asInt.value, header[1].asInt.value;
      && 0 <= m && 0 <= n && ReadRows(lines, pos, m, n).Success?
      && ParseBlocks(header, lines, pos, blocks)
         == ParseBlocks(header[2..], lines, pos + m + 1, blocks + [Matrix(m, n, ReadRows(lines, pos, m, n).value)])
  {
  }

  /** getNN: the header is the first line and blocks start on the second. */
  function ParseWeights(lines: seq<seq<Token>>): Parsed
  {
    ParseBlocks(LineAt(lines, 0), lines, 1, [])
  }

  /** An odd number of header tokens always ends in an exception. */
  lemma {:induction false} OddHeaderFails(header: seq<Token>, lines: seq<seq<Token>>, pos: nat, blocks: seq<Matrix>)
    requires |header| % 2 == 1
    ensures ParseBlocks(header, lines, pos, blocks).error.Some?
  {
    if 2 <= |header| && header[0].asInt.Some? && header[1].asInt.Some? {
      var m, n := header[0].asInt.value, header[1].asInt.value;
      if 0 <= m && 0 <= n && ReadRows(lines, pos, m, n).Success? {
        OddHeaderFails(header[2..], lines, pos + m + 1, blocks + [Matrix(m, n, ReadRows(lines, pos, m, n).value)]);
      }
    }
  }

  /** An empty file gives no weights and no exception. */
  lemma EmptyFileNoWeights()
    ensures ParseWeights([]) == Parsed([], None)
  {
    assert LineAt([], 0) == [];
  }

  /**
   * The header is read once: a two-token header gives one m-by-n block
   * whose rows are lines 1..m, or an exception and no block.
   */
  lemma TwoTokenHeader(lines: seq<seq<Token>>)
    requires |lines| > 0 && |lines[0]| == 2
    ensures var p := ParseWeights(lines);
      && |p.blocks| <= 1
      && (p.error.None? <==> |p.blocks| == 1)
      && (p.error.None? ==>
            p.blocks[0].Valid() &&
            forall i :: 0 <= i < p.blocks[0].rows ==>
              RowAt(lines, 1, i, p.blocks[0].cols) == Success(p.blocks[0].cells[i]))
  {
    var h := lines[0];
    if h[0].asInt.Some? && h[1].asInt.Some? {
      var m, n := h[0].asInt.value, h[1].asInt.value;
      if 0 <= m && 0 <= n && ReadRows(lines, 1, m, n).Success? {
        ReadRowsAll(lines, 1, m, n);
        var rows := ReadRows(lines, 1, m, n).value;
        assert LineAt(lines, 0) == h && h[2..] == [];
        var blocks: seq<Matrix> := [];
        assert blocks + [Matrix(m, n, rows)] == [Matrix(m, n, rows)];
        assert ParseBlocks(h, lines, 1, blocks) == ParseBlocks([], lines, 1 + m + 1, [Matrix(m, n, rows)]);
        assert ParseWeights(lines) == Parsed([Matrix(m, n, rows)], None);
      }
    }
  }

  /**
   * Each block is read from the lines right after the previous block and
   * its skipped separator line.
   */
  lemma FirstBlockRows(header: seq<Token>, lines: seq<seq<Token>>, pos: nat, blocks: seq<Matrix>)
    requires |ParseBlocks(header, lines, pos, blocks).blocks| > |blocks|
    ensures var b := ParseBlocks(header, lines, pos, blocks).blocks[|blocks|];
      b.Valid() && forall i :: 0 <= i < b.rows ==> RowAt(lines, pos, i, b.cols) == Success(b.cells[i])
  {
    ParseBlocksGrows(header, lines, pos, blocks);
    var m, n := header[0].asInt.value, header[1].asInt.value;
    var rows := ReadRows(lines, pos, m, n).value;
    BlockOfRows(lines, pos, m, n);
    var next := blocks + [Matrix(m, n, rows)];
    var after: nat := pos + m + 1;
    KeepsBlock(header[2..], lines, after, next, |blocks|);
    var r := ParseBlocks(header[2..], lines, after, next);
    assert ParseBlocks(header, lines, pos, blocks) == r;
    assert r.blocks[|blocks|] == next[|blocks|] == Matrix(m, n, rows);
  }
}
