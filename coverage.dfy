/** The signal (wig) side of build_db.py: what one coverage point does to the
    index, and the line-by-line state machine of `build_coverage_dict`. */
module Coverage {
  import opened Wrappers
  import opened Text
  import opened Annotation

  // ---------------------------------------------------------------------------
  // One point
  // ---------------------------------------------------------------------------

  /** The strand filter is `False` (None) or a strand; an empty strand is as
      false as `False` to Python's `if strand:`. */
  predicate FilterOff(filter: Option<string>) {
    filter.None? || filter.value == ""
  }

  /** `value[1] >= position >= value[0]`, and `value[2] == strand` when filtering. */
  predicate Matches(e: Exon, pos: int, filter: Option<string>) {
    e.start <= pos <= e.stop && (FilterOff(filter) || e.strand == filter.value)
  }

  function Appended(e: Exon, pos: int, v: real, filter: Option<string>): Exon {
    if Matches(e, pos, filter) then e.(samples := e.samples + [v]) else e
  }

  /** The loop over `master[chromosome][primary].items()`. */
  function FedBin(exons: Exons, pos: int, v: real, filter: Option<string>): Exons {
    map id | id in exons :: Appended(exons[id], pos, v, filter)
  }

  /** One point `(pos, v)` on chromosome `c`: only the point's own bin is
      searched; an unknown chromosome or bin raises KeyError, which the source
      catches, so nothing changes. */
  function FedPoint(m: Master, c: string, pos: int, v: real, filter: Option<string>, interval: int): Master
    requires interval > 0
  {
    var b := Bin(pos, interval);
    if c in m && b in m[c] then m[c := m[c][b := FedBin(m[c][b], pos, v, filter)]] else m
  }

  /** Same exon, with possibly more samples appended. */
  predicate Grown(e: Exon, e': Exon) {
    e'.start == e.start && e'.stop == e.stop && e'.strand == e.strand &&
    e'.gene == e.gene && e.samples <= e'.samples
  }

  /** `m'` has the same chromosomes, bins, exon ids and exon fields as `m`,
      and every exon's samples in `m` are a prefix of its samples in `m'`. */
  predicate Extends(m: Master, m': Master) {
    m'.Keys == m.Keys &&
    (forall c | c in m :: m'[c].Keys == m[c].Keys) &&
    (forall c, b | c in m && b in m[c] :: m'[c][b].Keys == m[c][b].Keys) &&
    (forall c, b, id | c in m && b in m[c] && id in m[c][b] :: Grown(m[c][b][id], m'[c][b][id]))
  }

  lemma ExtendsTransitive(m1: Master, m2: Master, m3: Master)
    requires Extends(m1, m2) && Extends(m2, m3)
    ensures Extends(m1, m3)
  {
    forall c, b, id | c in m1 && b in m1[c] && id in m1[c][b]
      ensures Grown(m1[c][b][id], m3[c][b][id])
    {
      assert Grown(m1[c][b][id], m2[c][b][id]);
      assert Grown(m2[c][b][id], m3[c][b][id]);
    }
  }

  lemma ExtendsWellFormed(m: Master, m': Master, maxCoord: int, interval: int)
    requires interval > 0 && WellFormed(m, maxCoord, interval) && Extends(m, m')
    ensures WellFormed(m', maxCoord, interval)
  {
    forall c, b, id | c in m' && b in m'[c] && id in m'[c][b]
      ensures Bin(m'[c][b][id].start, interval) == b
    {
      assert Grown(m[c][b][id], m'[c][b][id]);
    }
  }

  /** Exactly what one point does: every chromosome, bin and exon id stays;
      an exon gains `v` at the end of its samples exactly when it is in the
      point's chromosome and in the bin of the point's position, contains the
      position, and passes the strand filter; every other exon is unchanged. */
  lemma FedPointEffect(m: Master, c: string, pos: int, v: real, filter: Option<string>, interval: int)
    requires interval > 0
    ensures Extends(m, FedPoint(m, c, pos, v, filter, interval))
    ensures forall c', b, id | c' in m && b in m[c'] && id in m[c'][b] ::
      FedPoint(m, c, pos, v, filter, interval)[c'][b][id] ==
        if c' == c && b == Bin(pos, interval) && Matches(m[c'][b][id], pos, filter)
        then m[c'][b][id].(samples := m[c'][b][id].samples + [v])
        else m[c'][b][id]
  {
    var m': Master := FedPoint(m, c, pos, v, filter, interval);
    var b0 := Bin(pos, interval);
    if c in m && b0 in m[c] {
      var bin' := FedBin(m[c][b0], pos, v, filter);
      var row': Bins := m[c][b0 := bin'];
      assert m' == m[c := row'];
      FedChromosome(m, c, row');
      forall c': string, b: int | c' in m && b in m[c'] ensures m'[c'][b].Keys == m[c'][b].Keys {
        if c' == c && b == b0 {
          assert m'[c'][b] == bin';
        } else {
          assert m'[c'][b] == m[c'][b];
        }
      }
      forall c': string, b: int, id: string | c' in m && b in m[c'] && id in m[c'][b]
        ensures m'[c'][b][id] ==
          if c' == c && b == b0 && Matches(m[c'][b][id], pos, filter)
          then m[c'][b][id].(samples := m[c'][b][id].samples + [v])
          else m[c'][b][id]
      {
        if c' == c && b == b0 {
          assert m'[c'][b] == bin';
        } else {
          assert m'[c'][b] == m[c'][b];
        }
      }
    } else {
      assert m' == m;
    }
    forall c', b, id | c' in m && b in m[c'] && id in m[c'][b]
      ensures Grown(m[c'][b][id], m'[c'][b][id])
    {
    }
  }

  /** Replacing a chromosome's bins by bins with the same keys keeps the shape. */
  lemma FedChromosome(m: Master, c: string, row': Bins)
    requires c in m && row'.Keys == m[c].Keys
    ensures m[c := row'].Keys == m.Keys
    ensures forall c' | c' in m :: m[c := row'][c'].Keys == m[c'].Keys
  {
  }

  /** What one point does to the exon stored under `id` in bin `b` of
      chromosome `c`. */
  lemma FedPointAt(m: Master, c: string, b: int, id: string, pos: int, v: real, filter: Option<string>, interval: int)
    requires interval > 0 && c in m && b in m[c] && id in m[c][b]
    ensures var m' := FedPoint(m, c, pos, v, filter, interval);
      c in m' && b in m'[c] && id in m'[c][b] &&
      m'[c][b][id] == if b == Bin(pos, interval) then Appended(m[c][b][id], pos, v, filter) else m[c][b][id]
  {
    if b == Bin(pos, interval) {
      assert FedPoint(m, c, pos, v, filter, interval)[c][b] == FedBin(m[c][b], pos, v, filter);
    }
  }

  /** The start-bin limitation: for a well-formed index and no strand filter,
      a point inside an exon's span is counted for that exon exactly when it
      falls within the bin width of the exon's start bin. */
  lemma CountedOnlyInStartBin(m: Master, c: string, b: int, id: string, pos: int, v: real, maxCoord: int, interval: int)
    requires interval > 0 && WellFormed(m, maxCoord, interval)
    requires c in m && b in m[c] && id in m[c][b]
    requires m[c][b][id].start <= pos <= m[c][b][id].stop
    ensures FedPoint(m, c, pos, v, None, interval)[c][b][id].samples == m[c][b][id].samples + [v]
      <==> pos < b + interval
  {
    var e := m[c][b][id];
    FedPointAt(m, c, b, id, pos, v, None, interval);
    assert b == Bin(e.start, interval);
    assert Matches(e, pos, None);
    if pos < b + interval {
      BinUnique(pos, b, interval);
    } else {
      assert Bin(pos, interval) != b;
      assert |e.samples + [v]| != |e.samples|;
    }
  }

  // ---------------------------------------------------------------------------
  // Lines of a signal file
  // ---------------------------------------------------------------------------

  datatype WigLine = Header(chromosome: string) | Point(position: int, value: real)

  /** The exceptions that end `build_coverage_dict`: IndexError on an empty
      line, on a header without `=` or a point without a second column,
      ValueError from `int` or `float`, and NameError for a point read before
      any header line bound `chromosome`. */
  datatype CoverageError =
    | BlankLine
    | NoChromosomeName
    | MissingValue
    | BadPosition
    | BadValue
    | NoCurrentChromosome

  predicate IsNewline(c: char) {
    c == '\n'
  }

  /** `line.strip('\n').split('=')[1]`, None where Python raises IndexError. */
  function HeaderName(line: string): Option<string> {
    var p := Split(Strip(line, IsNewline), "=");
    if |p| < 2 then None else Some(p[1])
  }

  /** A header `<p>=<name>` followed by a newline names `name`, provided `p`
      and `name` contain no `=` and the name no newline, and `p` is not empty
      and does not start with a newline. */
  lemma HeaderNameRead(p: string, name: string)
    requires p != [] && p[0] != '\n' && '=' !in p
    requires '=' !in name && '\n' !in name
    ensures HeaderName(p + "=" + name + "\n") == Some(name)
  {
    var s := p + ['='] + name;
    assert s[0] == p[0];
    assert s[|s| - 1] != '\n' by {
      if name == [] {
        assert s[|s| - 1] == '=';
      } else {
        assert s[|s| - 1] == name[|name| - 1];
      }
    }
    assert p + "=" + name + "\n" == s + "\n";
    StripHeader(s);
    SplitAtChar(p, '=', name);
    CharAbsent(name, '=');
    SplitAbsent(name, "=");
    assert Split(s, "=") == [p, name];
  }

  lemma StripHeader(s: string)
    requires s != [] && s[0] != '\n' && s[|s| - 1] != '\n'
    ensures Strip(s + "\n", IsNewline) == s
  {
    var line := s + ['\n'];
    assert line[0] == s[0];
    assert !IsNewline(line[0]);
    assert DropLeading(line, IsNewline) == line;
    assert IsNewline(line[|line| - 1]);
    assert line[..|line| - 1] == s;
    assert DropTrailing(line, IsNewline) == DropTrailing(s, IsNewline);
    assert !IsNewline(s[|s| - 1]);
    assert DropTrailing(s, IsNewline) == s;
  }

  predicate IsHeaderLine(line: string) {
    |line| > 0 && line[0] == 'v'
  }

  /** One line: a header starts with `v`; anything else is `position<TAB>value`,
      with the value read by `parseValue` (Python's `float`). */
  function ParseWigLine(line: string, parseValue: string -> Option<real>): Result<WigLine, CoverageError> {
    if |line| == 0 then Failure(BlankLine)
    else if IsHeaderLine(line) then
      match HeaderName(line)
      case None => Failure(NoChromosomeName)
      case Some(c) => Success(Header(c))
    else
      var f := Split(line, "\t");
      match ParseInt(f[0])
      case None => Failure(BadPosition)
      case Some(pos) =>
        if |f| < 2 then Failure(MissingValue)
        else match parseValue(f[1])
          case None => Failure(BadValue)
          case Some(v) => Success(Point(pos, v))
  }

  /** A line `position<TAB>value` with an integer position as `str` writes it
      and a value `parseValue` accepts is read as that point. */
  lemma PointLineRead(p: int, x: string, v: real, parseValue: string -> Option<real>)
    requires '\t' !in x && parseValue(x) == Some(v)
    ensures ParseWigLine(IntToString(p) + "\t" + x, parseValue) == Success(Point(p, v))
  {
    var s := IntToString(p);
    IntToStringNoTab(p);
    var line := s + ['\t'] + x;
    assert line == IntToString(p) + "\t" + x;
    IntToStringEnds(p);
    assert line[0] == s[0] && s[0] != 'v';
    SplitAtChar(s, '\t', x);
    CharAbsent(x, '\t');
    SplitAbsent(x, "\t");
    assert Split(line, "\t") == [s, x];
    ParseIntToString(p);
  }

  lemma IntToStringNoTab(n: int)
    ensures '\t' !in IntToString(n)
  {
    var d := Decimal(if n < 0 then -n else n);
    assert forall i :: 0 <= i < |d| ==> IsDigit(d[i]);
    if n < 0 {
      assert IntToString(n) == ['-'] + d;
    }
  }

  /** Where `build_coverage_dict` stands after reading some lines: the index,
      the current chromosome, and the exception that ended it, if any. */
  datatype Feed = Feed(master: Master, current: Option<string>, failure: Option<CoverageError>)

  /** The loop of `build_coverage_dict`, from a current chromosome onwards. */
  function FeedLines(m: Master, current: Option<string>, lines: seq<string>, filter: Option<string>,
                     parseValue: string -> Option<real>, interval: int): Feed
    requires interval > 0
    decreases |lines|
  {
    if lines == [] then Feed(m, current, None)
    else match ParseWigLine(lines[0], parseValue)
      case Failure(e) => Feed(m, current, Some(e))
      case Success(Header(c)) => FeedLines(m, Some(c), lines[1..], filter, parseValue, interval)
      case Success(Point(pos, v)) =>
        if current.None? then Feed(m, current, Some(NoCurrentChromosome))
        else FeedLines(FedPoint(m, current.value, pos, v, filter, interval), current, lines[1..], filter, parseValue, interval)
  }

  /** A signal file never removes anything from the index and never drops a
      sample: it only appends, so sources add up and nothing is reset. */
  lemma {:induction false} FeedLinesExtends(m: Master, current: Option<string>, lines: seq<string>, filter: Option<string>,
                                            parseValue: string -> Option<real>, interval: int)
    requires interval > 0
    ensures Extends(m, FeedLines(m, current, lines, filter, parseValue, interval).master)
    decreases |lines|
  {
    if lines == [] {
      assert forall c, b, id | c in m && b in m[c] && id in m[c][b] :: Grown(m[c][b][id], m[c][b][id]);
    } else {
      match ParseWigLine(lines[0], parseValue) {
        case Failure(e) =>
          assert forall c, b, id | c in m && b in m[c] && id in m[c][b] :: Grown(m[c][b][id], m[c][b][id]);
        case Success(Header(c)) =>
          FeedLinesExtends(m, Some(c), lines[1..], filter, parseValue, interval);
        case Success(Point(pos, v)) =>
          if current.None? {
            assert forall c, b, id | c in m && b in m[c] && id in m[c][b] :: Grown(m[c][b][id], m[c][b][id]);
          } else {
            var m' := FedPoint(m, current.value, pos, v, filter, interval);
            FedPointEffect(m, current.value, pos, v, filter, interval);
            FeedLinesExtends(m', current, lines[1..], filter, parseValue, interval);
            ExtendsTransitive(m, m', FeedLines(m', current, lines[1..], filter, parseValue, interval).master);
          }
      }
    }
  }

  /** The chromosome named by the last header line among `lines`, or `init`. */
  function LastHeader(lines: seq<string>, init: Option<string>): Option<string>
    decreases |lines|
  {
    if lines == [] then init
    else if IsHeaderLine(lines[|lines| - 1]) then HeaderName(lines[|lines| - 1])
    else LastHeader(lines[..|lines| - 1], init)
  }

  lemma {:induction false} LastHeaderCons(line: string, lines: seq<string>, init: Option<string>)
    ensures LastHeader([line] + lines, init) ==
      LastHeader(lines, if IsHeaderLine(line) then HeaderName(line) else init)
    decreases |lines|
  {
    if lines != [] {
      assert ([line] + lines)[..|lines|] == [line] + lines[..|lines| - 1];
      LastHeaderCons(line, lines[..|lines| - 1], init);
    }
  }

  lemma LastHeaderFirst(lines: seq<string>, init: Option<string>)
    requires lines != []
    ensures LastHeader(lines, init) ==
      LastHeader(lines[1..], if IsHeaderLine(lines[0]) then HeaderName(lines[0]) else init)
  {
    LastHeaderCons(lines[0], lines[1..], init);
    assert [lines[0]] + lines[1..] == lines;
  }

  /** After a signal file is read without error, the current chromosome is the
      one named by its last header line (or the one before it, if none). */
  lemma {:induction false} CurrentIsLastHeader(m: Master, current: Option<string>, lines: seq<string>, filter: Option<string>,
                                               parseValue: string -> Option<real>, interval: int)
    requires interval > 0
    requires FeedLines(m, current, lines, filter, parseValue, interval).failure.None?
    ensures FeedLines(m, current, lines, filter, parseValue, interval).current == LastHeader(lines, current)
    decreases |lines|
  {
    if lines != [] {
      LastHeaderFirst(lines, current);
      if IsHeaderLine(lines[0]) {
        FeedHeaderStep(m, current, lines, filter, parseValue, interval);
        CurrentIsLastHeader(m, HeaderName(lines[0]), lines[1..], filter, parseValue, interval);
      } else {
        var m' := FeedPointStep(m, current, lines, filter, parseValue, interval);
        CurrentIsLastHeader(m', current, lines[1..], filter, parseValue, interval);
      }
    }
  }

  /** A header line read without error moves the current chromosome to the one
      it names and leaves the index to the lines after it. */
  lemma FeedHeaderStep(m: Master, current: Option<string>, lines: seq<string>, filter: Option<string>,
                       parseValue: string -> Option<real>, interval: int)
    requires interval > 0 && lines != [] && IsHeaderLine(lines[0])
    requires FeedLines(m, current, lines, filter, parseValue, interval).failure.None?
    ensures FeedLines(m, current, lines, filter, parseValue, interval) ==
            FeedLines(m, HeaderName(lines[0]), lines[1..], filter, parseValue, interval)
  {
  }

  /** A point line read without error keeps the current chromosome and hands
      some updated index to the lines after it. */
  lemma FeedPointStep(m: Master, current: Option<string>, lines: seq<string>, filter: Option<string>,
                      parseValue: string -> Option<real>, interval: int) returns (m': Master)
    requires interval > 0 && lines != [] && !IsHeaderLine(lines[0])
    requires FeedLines(m, current, lines, filter, parseValue, interval).failure.None?
    ensures FeedLines(m, current, lines, filter, parseValue, interval) ==
            FeedLines(m', current, lines[1..], filter, parseValue, interval)
  {
    var w := ParseWigLine(lines[0], parseValue).value;
    m' := FedPoint(m, current.value, w.position, w.value, filter, interval);
  }

  /** Points read while the current chromosome is not in the index change no
      exon, however many there are. */
  lemma {:induction false} UnknownChromosomeIgnored(m: Master, c: string, lines: seq<string>, filter: Option<string>,
                                                    parseValue: string -> Option<real>, interval: int)
    requires interval > 0 && c !in m
    requires forall i :: 0 <= i < |lines| ==> !IsHeaderLine(lines[i])
    ensures FeedLines(m, Some(c), lines, filter, parseValue, interval).master == m
    decreases |lines|
  {
    if lines != [] {
      UnknownChromosomeIgnored(m, c, lines[1..], filter, parseValue, interval);
    }
  }

  /** A strand-filtered source never touches an exon of another strand. */
  lemma {:induction false} OtherStrandUntouched(m: Master, current: Option<string>, lines: seq<string>, filter: Option<string>,
                                                parseValue: string -> Option<real>, interval: int,
                                                c: string, b: int, id: string)
    requires interval > 0 && !FilterOff(filter)
    requires c in m && b in m[c] && id in m[c][b] && m[c][b][id].strand != filter.value
    ensures var m' := FeedLines(m, current, lines, filter, parseValue, interval).master;
      c in m' && b in m'[c] && id in m'[c][b] && m'[c][b][id] == m[c][b][id]
    decreases |lines|
  {
    if lines != [] {
      match ParseWigLine(lines[0], parseValue) {
        case Failure(e) =>
        case Success(Header(c')) =>
          OtherStrandUntouched(m, Some(c'), lines[1..], filter, parseValue, interval, c, b, id);
        case Success(Point(pos, v)) =>
          if current.Some? {
            var m' := FedPoint(m, current.value, pos, v, filter, interval);
            FedPointEffect(m, current.value, pos, v, filter, interval);
            OtherStrandUntouched(m', current, lines[1..], filter, parseValue, interval, c, b, id);
          }
      }
    }
  }
}
