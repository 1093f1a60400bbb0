/** The junction tables: each BED line becomes a row whose coordinates are
    shifted from 0-based to 1-based, as `build_junction_table` does. */
module Junction {
  import opened Wrappers
  import opened Text

  /** One row of a junction table (`canonical` or `circle`). The count column
      is kept as the text read from the file. */
  datatype JunctionRow = JunctionRow(chromosome: string, start: int, stop: int, strand: string, counts: string)

  /** ValueError from unpacking fewer than five fields, or from `int`. */
  datatype JunctionError = TooFewFields(count: nat) | NotAnInteger(field: nat)

  // ---------------------------------------------------------------------------
  // `strip()` before `split()` changes nothing
  // ---------------------------------------------------------------------------

  lemma {:induction false} WordLengthSpace(x: string, c: char)
    requires IsSpace(c)
    ensures WordLength(x + [c]) == WordLength(x)
    decreases |x|
  {
    if x != [] && !IsSpace(x[0]) {
      assert (x + [c])[1..] == x[1..] + [c];
      WordLengthSpace(x[1..], c);
    }
  }

  /** A whitespace character at the end adds no word. */
  lemma {:induction false} WordsSpaceAfter(x: string, c: char)
    requires IsSpace(c)
    ensures Words(x + [c]) == Words(x)
    decreases |x|
  {
    if x == [] {
      assert [c][1..] == [];
    } else if IsSpace(x[0]) {
      assert (x + [c])[1..] == x[1..] + [c];
      WordsSpaceAfter(x[1..], c);
    } else {
      var n := WordLength(x);
      WordLengthSpace(x, c);
      assert (x + [c])[..n] == x[..n];
      assert (x + [c])[n..] == x[n..] + [c];
      WordsSpaceAfter(x[n..], c);
    }
  }

  lemma {:induction false} WordsDropLeading(s: string)
    ensures Words(DropLeading(s, IsSpace)) == Words(s)
    decreases |s|
  {
    if s != [] && IsSpace(s[0]) {
      WordsDropLeading(s[1..]);
    }
  }

  lemma {:induction false} WordsDropTrailing(s: string)
    ensures Words(DropTrailing(s, IsSpace)) == Words(s)
    decreases |s|
  {
    if s != [] && IsSpace(s[|s| - 1]) {
      WordsDropTrailing(s[..|s| - 1]);
      WordsSpaceAfter(s[..|s| - 1], s[|s| - 1]);
      assert s[..|s| - 1] + [s[|s| - 1]] == s;
    }
  }

  /** `line.strip().split()` gives the same fields as `line.split()`. */
  lemma WordsStrip(s: string)
    ensures Words(Strip(s, IsSpace)) == Words(s)
  {
    WordsDropTrailing(DropLeading(s, IsSpace));
    WordsDropLeading(s);
  }

  // ---------------------------------------------------------------------------
  // Lines
  // ---------------------------------------------------------------------------

  /** `line.strip().split()`. */
  function Fields(line: string): seq<string> {
    Words(Strip(line, IsSpace))
  }

  /** `chromosome, start, stop, strand, counts, *_ = fields`, then
      `int(start) + 1` and `int(stop) + 1`. */
  function RowOfFields(f: seq<string>): Result<JunctionRow, JunctionError> {
    if |f| < 5 then Failure(TooFewFields(|f|)) else Assemble(f, ParseInt(f[1]), ParseInt(f[2]))
  }

  /** The row of five or more fields once their coordinates were read. */
  function Assemble(f: seq<string>, start: Option<int>, stop: Option<int>): Result<JunctionRow, JunctionError>
    requires |f| >= 5
  {
    match start
    case None => Failure(NotAnInteger(1))
    case Some(a) =>
      match stop
      case None => Failure(NotAnInteger(2))
      case Some(b) => Success(JunctionRow(f[0], a + 1, b + 1, f[3], f[4]))
  }

  /** One line of a BED file. */
  function ParseJunction(line: string): Result<JunctionRow, JunctionError> {
    RowOfFields(Fields(line))
  }

  /** The fields of a line made of words joined by one whitespace character,
      with whitespace after it, are those words. */
  lemma FieldsOfJoin(ws: seq<string>, c: char, tail: string)
    requires |ws| >= 1 && IsSpace(c) && AllSpace(tail)
    requires forall i :: 0 <= i < |ws| ==> IsWord(ws[i])
    ensures Words(Strip(Join(ws, [c]) + tail, IsSpace)) == ws
  {
    WordsOfJoin(ws, c, tail);
    WordsStrip(Join(ws, [c]) + tail);
  }

  /** Five or more fields whose second and third are integers make a row with
      those integers plus one; the fields after the fifth are ignored. */
  lemma RowOfFieldsRead(f: seq<string>, start: int, stop: int)
    requires |f| >= 5 && ParseInt(f[1]) == Some(start) && ParseInt(f[2]) == Some(stop)
    ensures RowOfFields(f) == Success(JunctionRow(f[0], start + 1, stop + 1, f[3], f[4]))
  {
    AssembleRead(f, start, stop);
  }

  lemma AssembleRead(f: seq<string>, start: int, stop: int)
    requires |f| >= 5
    ensures Assemble(f, Some(start), Some(stop)) == Success(JunctionRow(f[0], start + 1, stop + 1, f[3], f[4]))
  {
  }

  /** A BED line of at least five fields separated by one whitespace
      character, whose second and third fields are integers as `str` writes
      them, reads back as the row with both coordinates moved up by one;
      fields after the fifth and trailing whitespace are ignored. */
  lemma JunctionLineRead(ws: seq<string>, c: char, tail: string, start: int, stop: int)
    requires |ws| >= 5 && IsSpace(c) && AllSpace(tail)
    requires forall i :: 0 <= i < |ws| ==> IsWord(ws[i])
    requires ws[1] == IntToString(start) && ws[2] == IntToString(stop)
    ensures ParseJunction(Join(ws, [c]) + tail) == Success(JunctionRow(ws[0], start + 1, stop + 1, ws[3], ws[4]))
  {
    FieldsOfJoin(ws, c, tail);
    ParseIntToString(start);
    ParseIntToString(stop);
    RowOfFieldsRead(ws, start, stop);
  }

  /** The results of reading each line on its own. */
  function ParseEach(lines: seq<string>): (rs: seq<Result<JunctionRow, JunctionError>>)
    ensures |rs| == |lines|
    ensures forall i :: 0 <= i < |lines| ==> rs[i] == ParseJunction(lines[i])
  {
    seq(|lines|, i requires 0 <= i < |lines| => ParseJunction(lines[i]))
  }

  /** All the rows in order if every result is a row, otherwise the first
      error: the file is abandoned at its first bad line. */
  function Collect(rs: seq<Result<JunctionRow, JunctionError>>): (r: Result<seq<JunctionRow>, JunctionError>)
    ensures r.Success? <==> forall i :: 0 <= i < |rs| ==> rs[i].Success?
    ensures r.Success? ==>
      && |r.value| == |rs|
      && forall i :: 0 <= i < |rs| ==> rs[i] == Success(r.value[i])
    ensures r.Failure? ==>
      exists k :: 0 <= k < |rs| && rs[k] == Failure(r.error) && forall i :: 0 <= i < k ==> rs[i].Success?
    decreases |rs|
  {
    if rs == [] then Success([])
    else match rs[0]
      case Failure(e) => Failure(e)
      case Success(row) =>
        var rest := Collect(rs[1..]);
        assert forall i :: 1 <= i < |rs| ==> rs[1..][i - 1] == rs[i];
        match rest
        case Failure(e) =>
          var k :| 0 <= k < |rs[1..]| && rs[1..][k] == Failure(e) && forall i :: 0 <= i < k ==> rs[1..][i].Success?;
          assert rs[k + 1] == Failure(e);
          Failure(e)
        case Success(rows) => Success([row] + rows)
  }

  /** The rows of a whole file, in order, or the error of its first bad line. */
  function ParseJunctions(lines: seq<string>): Result<seq<JunctionRow>, JunctionError> {
    Collect(ParseEach(lines))
  }

  /** `r` with `rows` put in front of its rows, if it has any. */
  function Prepend(rows: seq<JunctionRow>, r: Result<seq<JunctionRow>, JunctionError>): Result<seq<JunctionRow>, JunctionError> {
    if r.Success? then Success(rows + r.value) else r
  }

  lemma CollectStep(rs: seq<Result<JunctionRow, JunctionError>>)
    requires |rs| >= 1
    ensures Collect(rs) ==
      if rs[0].Failure? then Failure(rs[0].error) else Prepend([rs[0].value], Collect(rs[1..]))
  {
  }

  /** Reading the lines from `i` on: the line at `i` first, then the rest. */
  lemma ParseJunctionsStep(lines: seq<string>, i: nat)
    requires i < |lines|
    ensures ParseJunctions(lines[i..]) ==
      var row := ParseJunction(lines[i]);
      if row.Failure? then Failure(row.error) else Prepend([row.value], ParseJunctions(lines[i + 1..]))
  {
    var rs := ParseEach(lines[i..]);
    assert rs[0] == ParseJunction(lines[i]);
    assert rs[1..] == ParseEach(lines[i + 1..]);
    CollectStep(rs);
  }

  lemma PrependNothing(r: Result<seq<JunctionRow>, JunctionError>)
    ensures Prepend([], r) == r
  {
    if r.Success? {
      assert [] + r.value == r.value;
    }
  }

  lemma PrependTwice(a: seq<JunctionRow>, b: seq<JunctionRow>, r: Result<seq<JunctionRow>, JunctionError>)
    ensures Prepend(a, Prepend(b, r)) == Prepend(a + b, r)
  {
    if r.Success? {
      assert a + (b + r.value) == (a + b) + r.value;
    }
  }

  /** The loop of `build_junction_table`: read every line in turn, stopping at
      the first one that raises. */
  method LoadJunctions(lines: seq<string>) returns (r: Result<seq<JunctionRow>, JunctionError>)
    ensures r == ParseJunctions(lines)
  {
    var rows: seq<JunctionRow> := [];
    var i := 0;
    assert lines[0..] == lines;
    PrependNothing(ParseJunctions(lines));
    while i < |lines|
      invariant 0 <= i <= |lines|
      invariant ParseJunctions(lines) == Prepend(rows, ParseJunctions(lines[i..]))
    {
      ParseJunctionsStep(lines, i);
      var parsed := ParseJunction(lines[i]);
      if parsed.Failure? {
        return Failure(parsed.error);
      }
      ghost var rest := ParseJunctions(lines[i + 1..]);
      assert ParseJunctions(lines[i..]) == Prepend([parsed.value], rest);
      PrependTwice(rows, [parsed.value], rest);
      rows := rows + [parsed.value];
      i := i + 1;
      assert ParseJunctions(lines) == Prepend(rows, rest);
    }
    assert ParseJunctions(lines[i..]) == Success([]) by {
      assert lines[i..] == [];
    }
    assert rows + [] == rows;
    return Success(rows);
  }
}
