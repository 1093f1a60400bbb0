/** The exon index as the object `build_db.py` updates in place: `store`
    fills it from annotation lines, `build_coverage_dict` appends signal
    values to its exons, and `build_sample_db` reads one row per exon out of
    it. */
module Index {
  import opened Wrappers
  import opened Text
  import opened Annotation
  import opened Coverage
  import opened Summary

  /** The nested dictionary `master` (chromosome, then bin, then exon id),
      together with the two constants it was laid out with. */
  class ExonIndex {
    var master: Master
    const maxCoord: int
    const interval: int

    /** Every chromosome has exactly the pre-allocated bins and every exon
        sits in the bin of its start. */
    ghost predicate Valid()
      reads this
    {
      interval > 0 && WellFormed(master, maxCoord, interval)
    }

    /** `master = {}`. */
    constructor (maxCoord: int, interval: int)
      requires interval > 0
      ensures Valid() && Unsampled(master)
      ensures master == map[] && this.maxCoord == maxCoord && this.interval == interval
    {
      this.maxCoord := maxCoord;
      this.interval := interval;
      master := map[];
    }

    /** Lines 64-80 for one exon record: allocate the chromosome's bins on
        first sight, then store the exon under its id in its start bin. A
        start bin that was never allocated raises KeyError after the
        allocation has happened. */
    method Register(rec: ExonRecord) returns (outcome: Outcome<StoreError>)
      requires Valid()
      modifies this
      ensures Valid()
      ensures outcome.Pass? <==> Registered(old(master), rec, maxCoord, interval).Success?
      ensures outcome.Pass? ==> master == Registered(old(master), rec, maxCoord, interval).value
      ensures outcome.Fail? ==>
        outcome.error == Registered(old(master), rec, maxCoord, interval).error &&
        master == WithChromosome(old(master), rec.chromosome, maxCoord, interval)
    {
      var c := rec.chromosome;
      WithChromosomeWellFormed(master, c, maxCoord, interval);
      if c !in master {
        master := master[c := EmptyBins(maxCoord, interval)];
      }
      var b := Bin(rec.start, interval);
      if b !in master[c] {
        return Fail(BinNotAllocated(c, b));
      }
      RegisterEffect(old(master), rec, maxCoord, interval);
      master := master[c := master[c][b := master[c][b][ExonId(rec.transcript, rec.exonNumber) := NewExon(rec)]]];
      return Pass;
    }

    /** Lines 104-114 for one point on chromosome `c`: the exons of the
        point's bin that contain it (and match the strand filter) get `v`
        appended; a missing chromosome or bin is skipped. */
    method FeedPoint(c: string, pos: int, v: real, filter: Option<string>)
      requires Valid()
      modifies this
      ensures Valid()
      ensures master == FedPoint(old(master), c, pos, v, filter, interval)
    {
      FedPointEffect(master, c, pos, v, filter, interval);
      ExtendsWellFormed(master, FedPoint(master, c, pos, v, filter, interval), maxCoord, interval);
      var b := Bin(pos, interval);
      if c !in master || b !in master[c] {
        return;
      }
      var updated := AppendMatching(master[c][b], pos, v, filter);
      master := master[c := master[c][b := updated]];
    }

    /** `build_coverage_dict`: read a signal file line by line, keeping the
        current chromosome, until the end or the first line that raises. The
        points read before that line stay in the index. */
    method AddCoverage(lines: seq<string>, filter: Option<string>, parseValue: string -> Option<real>)
      returns (failure: Option<CoverageError>)
      requires Valid()
      modifies this
      ensures Valid()
      ensures master == FeedLines(old(master), None, lines, filter, parseValue, interval).master
      ensures failure == FeedLines(old(master), None, lines, filter, parseValue, interval).failure
    {
      var current: Option<string> := None;
      var i := 0;
      assert lines[0..] == lines;
      while i < |lines|
        invariant 0 <= i <= |lines| && Valid()
        invariant FeedLines(old(master), None, lines, filter, parseValue, interval) ==
          FeedLines(master, current, lines[i..], filter, parseValue, interval)
      {
        assert lines[i..][1..] == lines[i + 1..];
        match ParseWigLine(lines[i], parseValue) {
          case Failure(e) =>
            return Some(e);
          case Success(Header(c)) =>
            current := Some(c);
          case Success(Point(pos, v)) =>
            if current.None? {
              return Some(NoCurrentChromosome);
            }
            FeedPoint(current.value, pos, v, filter);
        }
        i := i + 1;
      }
      assert lines[i..] == [];
      return None;
    }

    /** Lines 137-143: one row per stored exon, or the exception of the first
        exon whose id or length cannot be summarised. `keys` lists the exon
        each row was made from. */
    method Summarise() returns (r: Result<seq<Row>, SummaryError>, ghost keys: seq<Key>)
      ensures r.Success? ==> Tabulates(master, keys, r.value)
      ensures r.Failure? ==> exists k :: IsEntry(master, k) && RowAt(master, k) == Failure(r.error)
    {
      var m := master;
      var todo := Entries(m);
      var rows: seq<Row> := [];
      keys := [];
      while todo != {}
        invariant Partial(m, todo, keys, rows)
        decreases |todo|
      {
        var k :| k in todo;
        var row := RowFor(k.chromosome, k.id, m[k.chromosome][k.bin][k.id]);
        if row.Failure? {
          return Failure(row.error), keys;
        }
        PartialStep(m, todo, keys, rows, k, row.value);
        rows := rows + [row.value];
        keys := keys + [k];
        todo := todo - {k};
      }
      PartialDone(m, keys, rows);
      return Success(rows), keys;
    }
  }

  /** Where one exon sits in the index. */
  datatype Key = Key(chromosome: string, bin: int, id: string)

  predicate IsEntry(m: Master, k: Key) {
    k.chromosome in m && k.bin in m[k.chromosome] && k.id in m[k.chromosome][k.bin]
  }

  function Entries(m: Master): (ks: set<Key>)
    ensures forall k :: k in ks <==> IsEntry(m, k)
  {
    set c, b, id | c in m && b in m[c] && id in m[c][b] :: Key(c, b, id)
  }

  /** The row `build_sample_db` makes for the exon at `k`. */
  function RowAt(m: Master, k: Key): Result<Row, SummaryError>
    requires IsEntry(m, k)
  {
    RowFor(k.chromosome, k.id, m[k.chromosome][k.bin][k.id])
  }

  /** `rows` is a table of `m`: row `i` is made from the exon at `keys[i]`,
      and every exon of `m` is listed exactly once. */
  ghost predicate Tabulates(m: Master, keys: seq<Key>, rows: seq<Row>) {
    && |keys| == |rows|
    && (forall i :: 0 <= i < |keys| ==> IsEntry(m, keys[i]) && RowAt(m, keys[i]) == Success(rows[i]))
    && (forall k :: IsEntry(m, k) ==> k in keys)
    && (forall i, j :: 0 <= i < j < |keys| ==> keys[i] != keys[j])
  }

  /** Part of a table of `m`: the rows made so far from the exons at `keys`,
      each exon listed at most once, and `todo` holding the exons not yet
      listed. */
  ghost predicate Partial(m: Master, todo: set<Key>, keys: seq<Key>, rows: seq<Row>) {
    && todo <= Entries(m)
    && |keys| == |rows|
    && (forall i :: 0 <= i < |keys| ==>
          IsEntry(m, keys[i]) && keys[i] !in todo && RowAt(m, keys[i]) == Success(rows[i]))
    && (forall k :: IsEntry(m, k) ==> k in todo || k in keys)
    && (forall i, j :: 0 <= i < j < |keys| ==> keys[i] != keys[j])
  }

  /** Listing one more exon of `todo` keeps a partial table. */
  lemma PartialStep(m: Master, todo: set<Key>, keys: seq<Key>, rows: seq<Row>, k: Key, row: Row)
    requires Partial(m, todo, keys, rows) && k in todo
    requires RowFor(k.chromosome, k.id, m[k.chromosome][k.bin][k.id]) == Success(row)
    ensures Partial(m, todo - {k}, keys + [k], rows + [row])
  {
    var keys', rows' := keys + [k], rows + [row];
    forall i | 0 <= i < |keys'|
      ensures IsEntry(m, keys'[i]) && keys'[i] !in todo - {k} && RowAt(m, keys'[i]) == Success(rows'[i])
    {
      if i < |keys| {
        assert keys'[i] == keys[i] && rows'[i] == rows[i];
      }
    }
  }

  /** A partial table with nothing left to list is a table. */
  lemma PartialDone(m: Master, keys: seq<Key>, rows: seq<Row>)
    requires Partial(m, {}, keys, rows)
    ensures Tabulates(m, keys, rows)
  {
  }

  lemma {:induction false} DistinctCard(keys: seq<Key>)
    requires forall i, j :: 0 <= i < j < |keys| ==> keys[i] != keys[j]
    ensures |set k | k in keys| == |keys|
    decreases |keys|
  {
    if keys != [] {
      var last := keys[|keys| - 1];
      var init := keys[..|keys| - 1];
      DistinctCard(init);
      assert (set k | k in keys) == (set k | k in init) + {last};
      assert last !in init;
    }
  }

  /** A table has exactly one row per exon stored in the index. */
  lemma TableSize(m: Master, keys: seq<Key>, rows: seq<Row>)
    requires Tabulates(m, keys, rows)
    ensures |rows| == |Entries(m)|
  {
    DistinctCard(keys);
    assert (set k | k in keys) == Entries(m);
  }

  /** The loop over one bin's exons (lines 108-110 and 112-114): `v` is
      appended to the samples of each exon that contains `pos` and passes the
      strand filter, the other exons are kept as they are. */
  method AppendMatching(exons: Exons, pos: int, v: real, filter: Option<string>) returns (updated: Exons)
    ensures updated == FedBin(exons, pos, v, filter)
  {
    var todo := exons.Keys;
    updated := exons;
    while todo != {}
      invariant todo <= exons.Keys
      invariant updated.Keys == exons.Keys
      invariant forall id | id in exons ::
        updated[id] == if id in todo then exons[id] else Appended(exons[id], pos, v, filter)
      decreases |todo|
    {
      var id :| id in todo;
      if Matches(exons[id], pos, filter) {
        updated := updated[id := exons[id].(samples := exons[id].samples + [v])];
      }
      todo := todo - {id};
    }
  }

  /** `store`'s loop from line `i` on: line `i` first, then the rest. */
  lemma StoreAllStep(m: Master, lines: seq<string>, i: nat, maxCoord: int, interval: int)
    requires interval > 0 && i < |lines|
    ensures StoreAll(m, lines[i..], maxCoord, interval) ==
      match StoreLine(m, lines[i], maxCoord, interval)
      case Failure(e) => Failure(e)
      case Success(m') => StoreAll(m', lines[i + 1..], maxCoord, interval)
  {
    assert lines[i..][0] == lines[i];
    assert lines[i..][1..] == lines[i + 1..];
  }

  /** `store`: a fresh index filled from the annotation lines, or the error
      of the first line that raises. */
  method Store(lines: seq<string>, maxCoord: int, interval: int) returns (r: Result<ExonIndex, StoreError>)
    requires interval > 0
    ensures r.Success? <==> StoreAll(map[], lines, maxCoord, interval).Success?
    ensures r.Success? ==>
      && fresh(r.value) && r.value.Valid() && Unsampled(r.value.master)
      && r.value.maxCoord == maxCoord && r.value.interval == interval
      && r.value.master == StoreAll(map[], lines, maxCoord, interval).value
    ensures r.Failure? ==> r.error == StoreAll(map[], lines, maxCoord, interval).error
  {
    var index := new ExonIndex(maxCoord, interval);
    var i := 0;
    assert lines[0..] == lines;
    while i < |lines|
      invariant 0 <= i <= |lines|
      invariant fresh(index) && index.Valid()
      invariant index.maxCoord == maxCoord && index.interval == interval
      invariant StoreAll(map[], lines, maxCoord, interval) == StoreAll(index.master, lines[i..], maxCoord, interval)
    {
      StoreAllStep(index.master, lines, i, maxCoord, interval);
      match ParseAnnotationLine(lines[i]) {
        case Failure(e) =>
          return Failure(e);
        case Success(Ignored) =>
        case Success(ExonLine(rec)) =>
          var outcome := index.Register(rec);
          if outcome.Fail? {
            return Failure(outcome.error);
          }
      }
      i := i + 1;
    }
    assert lines[i..] == [];
    StoreAllWellFormed(map[], lines, maxCoord, interval);
    return Success(index);
  }

  // ---------------------------------------------------------------------------
  // build_sample_db
  // ---------------------------------------------------------------------------

  /** Why `build_sample_db` stops: an exception from `store`, from
      `build_coverage_dict` or from the summary loop. */
  datatype BuildError =
    | StoreFailed(storeError: StoreError)
    | CoverageFailed(coverageError: CoverageError)
    | SummaryFailed(summaryError: SummaryError)

  /** One signal file read to its end, or the exception it raised. */
  function Fed(m: Master, lines: seq<string>, filter: Option<string>, parseValue: string -> Option<real>, interval: int)
    : Result<Master, CoverageError>
    requires interval > 0
  {
    var f := FeedLines(m, None, lines, filter, parseValue, interval);
    if f.failure.Some? then Failure(f.failure.value) else Success(f.master)
  }

  /** Lines 125-130: an unstranded file wins; otherwise both stranded files,
      negative first, each filtered by its strand; otherwise no signal. */
  function Covered(m: Master, wig: Option<seq<string>>, negWig: Option<seq<string>>, posWig: Option<seq<string>>,
                   parseValue: string -> Option<real>, interval: int): Result<Master, CoverageError>
    requires interval > 0
  {
    if wig.Some? then Fed(m, wig.value, None, parseValue, interval)
    else if negWig.Some? && posWig.Some? then
      match Fed(m, negWig.value, Some("-"), parseValue, interval)
      case Failure(e) => Failure(e)
      case Success(m1) => Fed(m1, posWig.value, Some("+"), parseValue, interval)
    else Success(m)
  }

  /** Reading signal keeps every chromosome, bin and exon of the index and
      only ever appends samples, whichever files are given. */
  lemma CoveredExtends(m: Master, wig: Option<seq<string>>, negWig: Option<seq<string>>, posWig: Option<seq<string>>,
                       parseValue: string -> Option<real>, interval: int)
    requires interval > 0
    requires Covered(m, wig, negWig, posWig, parseValue, interval).Success?
    ensures Extends(m, Covered(m, wig, negWig, posWig, parseValue, interval).value)
  {
    if wig.Some? {
      FeedLinesExtends(m, None, wig.value, None, parseValue, interval);
    } else if negWig.Some? && posWig.Some? {
      var m1 := Fed(m, negWig.value, Some("-"), parseValue, interval).value;
      FeedLinesExtends(m, None, negWig.value, Some("-"), parseValue, interval);
      FeedLinesExtends(m1, None, posWig.value, Some("+"), parseValue, interval);
      ExtendsTransitive(m, m1, Fed(m1, posWig.value, Some("+"), parseValue, interval).value);
    } else {
      assert forall c, b, id | c in m && b in m[c] && id in m[c][b] :: Grown(m[c][b][id], m[c][b][id]);
    }
  }

  /** With the stranded pair and no unstranded file, an exon whose strand is
      neither `-` nor `+` receives no signal at all. */
  lemma UnstrandedExonUncovered(m: Master, negWig: seq<string>, posWig: seq<string>,
                                parseValue: string -> Option<real>, interval: int, k: Key)
    requires interval > 0 && IsEntry(m, k)
    requires Covered(m, None, Some(negWig), Some(posWig), parseValue, interval).Success?
    requires m[k.chromosome][k.bin][k.id].strand != "-" && m[k.chromosome][k.bin][k.id].strand != "+"
    ensures var m' := Covered(m, None, Some(negWig), Some(posWig), parseValue, interval).value;
      IsEntry(m', k) && m'[k.chromosome][k.bin][k.id] == m[k.chromosome][k.bin][k.id]
  {
    var m1 := Fed(m, negWig, Some("-"), parseValue, interval).value;
    OtherStrandUntouched(m, None, negWig, Some("-"), parseValue, interval, k.chromosome, k.bin, k.id);
    OtherStrandUntouched(m1, None, posWig, Some("+"), parseValue, interval, k.chromosome, k.bin, k.id);
  }

  /** `build_sample_db`: build the index, read the signal the arguments
      select, and make one row per exon. */
  method BuildSampleDb(gtf: seq<string>, wig: Option<seq<string>>, negWig: Option<seq<string>>, posWig: Option<seq<string>>,
                       parseValue: string -> Option<real>, maxCoord: int, interval: int)
    returns (r: Result<seq<Row>, BuildError>, ghost keys: seq<Key>)
    requires interval > 0
    ensures var stored := StoreAll(map[], gtf, maxCoord, interval);
      stored.Failure? ==> r == Failure(StoreFailed(stored.error))
    ensures var stored := StoreAll(map[], gtf, maxCoord, interval);
      stored.Success? && Covered(stored.value, wig, negWig, posWig, parseValue, interval).Failure? ==>
        r == Failure(CoverageFailed(Covered(stored.value, wig, negWig, posWig, parseValue, interval).error))
    ensures var stored := StoreAll(map[], gtf, maxCoord, interval);
      stored.Success? && Covered(stored.value, wig, negWig, posWig, parseValue, interval).Success? ==>
        var m := Covered(stored.value, wig, negWig, posWig, parseValue, interval).value;
        && (r.Success? ==> Tabulates(m, keys, r.value))
        && (r.Failure? ==> r.error.SummaryFailed?)
        && (r.Failure? ==> exists k :: IsEntry(m, k) && RowAt(m, k) == Failure(r.error.summaryError))
  {
    keys := [];
    var stored := Store(gtf, maxCoord, interval);
    if stored.Failure? {
      return Failure(StoreFailed(stored.error)), keys;
    }
    var index := stored.value;
    ghost var m0 := index.master;
    if wig.Some? {
      var failure := index.AddCoverage(wig.value, None, parseValue);
      if failure.Some? {
        return Failure(CoverageFailed(failure.value)), keys;
      }
    } else if negWig.Some? && posWig.Some? {
      var failure := index.AddCoverage(negWig.value, Some("-"), parseValue);
      if failure.Some? {
        return Failure(CoverageFailed(failure.value)), keys;
      }
      failure := index.AddCoverage(posWig.value, Some("+"), parseValue);
      if failure.Some? {
        return Failure(CoverageFailed(failure.value)), keys;
      }
    }
    assert index.master == Covered(m0, wig, negWig, posWig, parseValue, interval).value;
    var rows;
    rows, keys := index.Summarise();
    if rows.Failure? {
      return Failure(SummaryFailed(rows.error)), keys;
    }
    return Success(rows.value), keys;
  }
}
