/** The annotation (GTF) side of build_db.py: reading exon lines, the bin of a
    coordinate, and what registering one exon does to the nested map
    chromosome -> bin -> exon id -> exon that `store` builds. */
module Annotation {
  import opened Wrappers
  import opened Text

  /** The tuple `(start, stop, strand, samples, gene)` stored per exon id. */
  datatype Exon = Exon(start: int, stop: int, strand: string, samples: seq<real>, gene: string)

  /** Exons of one bin, keyed by `transcript__exon`. */
  type Exons = map<string, Exon>
  /** Bins of one chromosome, keyed by the first coordinate of the bin. */
  type Bins = map<int, Exons>
  /** The whole index, keyed by chromosome label. */
  type Master = map<string, Bins>

  // ---------------------------------------------------------------------------
  // Bins
  // ---------------------------------------------------------------------------

  lemma MulBounds(d: int, t: int)
    requires d > 0
    ensures t >= 1 ==> d * t >= d
    ensures t <= -1 ==> d * t <= -d
    ensures t == 0 ==> d * t == 0
  {
  }

  lemma MulMod(q: int, d: int)
    requires d > 0
    ensures (d * q) % d == 0
  {
    var x := d * q;
    var t := q - x / d;
    assert x % d == d * t;
    MulBounds(d, t);
  }

  lemma ModShift(a: int, d: int)
    requires d > 0
    ensures (a + d) % d == a % d
  {
    var t := (a + d) / d - a / d - 1;
    assert d * t == a % d - (a + d) % d;
    MulBounds(d, t);
  }

  /** `interval * (p // interval)`. For a positive divisor Python's floor
      division and Dafny's Euclidean division agree, so this is the largest
      multiple of `interval` that does not exceed `p`. */
  function Bin(p: int, interval: int): (b: int)
    requires interval > 0
    ensures b % interval == 0 && b <= p < b + interval
  {
    MulMod(p / interval, interval);
    interval * (p / interval)
  }

  /** Only one multiple of `interval` lies within `interval` below `p`: the
      bin a point is looked up in is the bin an exon starting there is
      registered in. */
  lemma BinUnique(p: int, b: int, interval: int)
    requires interval > 0 && b % interval == 0 && b <= p < b + interval
    ensures b == Bin(p, interval)
  {
    var k, q := b / interval, p / interval;
    assert b == interval * k;
    assert Bin(p, interval) - b == interval * (q - k);
    MulBounds(interval, q - k);
  }

  /** Python's `range(lo, hi, step)` for a positive step. */
  function Range(lo: int, hi: int, step: int): seq<int>
    requires step > 0
    decreases hi - lo
  {
    if lo >= hi then [] else [lo] + Range(lo + step, hi, step)
  }

  lemma {:induction false} RangeMembers(lo: int, hi: int, step: int, x: int)
    requires step > 0
    ensures x in Range(lo, hi, step) <==> lo <= x < hi && (x - lo) % step == 0
    decreases hi - lo
  {
    if lo < hi {
      RangeMembers(lo + step, hi, step, x);
      ModShift(x - (lo + step), step);
      MulBounds(step, (x - lo) / step);
    }
  }

  /** The bin keys `store` pre-allocates for a chromosome. */
  predicate IsSlot(b: int, maxCoord: int, interval: int)
    requires interval > 0
  {
    0 <= b < maxCoord && b % interval == 0
  }

  /** `{i: {} for i in range(0, max_coord, interval)}`: every slot, empty. */
  function EmptyBins(maxCoord: int, interval: int): (bins: Bins)
    requires interval > 0
    ensures forall b :: b in bins <==> IsSlot(b, maxCoord, interval)
    ensures forall b | b in bins :: bins[b] == map[]
  {
    var slots := Range(0, maxCoord, interval);
    assert forall b :: b in slots <==> IsSlot(b, maxCoord, interval) by {
      forall b ensures b in slots <==> IsSlot(b, maxCoord, interval) {
        RangeMembers(0, maxCoord, interval, b);
      }
    }
    map b | b in slots :: map[]
  }

  // ---------------------------------------------------------------------------
  // Attributes of an exon line
  // ---------------------------------------------------------------------------

  /** `attrs.split(key)[1].split('"')[1]`; None where Python raises IndexError. */
  function QuotedAfter(attrs: string, key: string): Option<string>
    requires |key| > 0
  {
    var p := Split(attrs, key);
    if |p| < 2 then None
    else
      var q := Split(p[1], "\"");
      if |q| < 2 then None else Some(q[1])
  }

  /** The gene name, or the gene id when the name cannot be read. */
  function ExtractGene(attrs: string): Option<string> {
    match QuotedAfter(attrs, "gene_name")
    case Some(name) => Some(name)
    case None => QuotedAfter(attrs, "gene_id")
  }

  function ExtractTranscript(attrs: string): Option<string> {
    QuotedAfter(attrs, "transcript_id")
  }

  /** `attrs.split('exon_number ')[1].split(';')[0].replace('"', '')`. */
  function ExtractExonNumber(attrs: string): (exon: Option<string>)
    ensures exon.Some? ==> '"' !in exon.value
  {
    var p := Split(attrs, "exon_number ");
    if |p| < 2 then None else Some(RemoveChar(Split(p[1], ";")[0], '"'))
  }

  lemma SplitAtChar(x: string, c: char, y: string)
    requires c !in x
    ensures Split(x + [c] + y, [c]) == [x] + Split(y, [c])
  {
    var s := x + [c] + y;
    assert s[|x|..|x| + 1] == [c];
    forall i: nat | i < |x|
      ensures !MatchAt(s, [c], i)
    {
      assert s[i..i + 1] == [x[i]];
    }
    SplitFirstMatch(s, [c], |x|);
    assert s[..|x|] == x;
    assert s[|x| + 1..] == y;
  }

  /** The text between the first two quotes is the second piece of a split on quotes. */
  lemma SecondQuoted(gap: string, v: string, z: string)
    requires '"' !in gap && '"' !in v
    ensures |Split(gap + "\"" + v + "\"" + z, "\"")| >= 2
    ensures Split(gap + "\"" + v + "\"" + z, "\"")[1] == v
  {
    assert gap + "\"" + v + "\"" + z == gap + ['"'] + (v + ['"'] + z);
    SplitAtChar(gap, '"', v + ['"'] + z);
    SplitAtChar(v, '"', z);
  }

  /** When the first occurrence of `key` is followed by `gap "v"`, the value
      read for `key` is `v`. */
  lemma QuotedValue(a: string, key: string, k: nat, gap: string, v: string, post: string)
    requires |key| > 0 && '"' !in key
    requires FirstMatchAt(a, key, k)
    requires a[k + |key|..] == gap + "\"" + v + "\"" + post
    requires '"' !in gap && '"' !in v && Absent(gap, key) && Absent(v, key)
    ensures QuotedAfter(a, key) == Some(v)
  {
    var rest := a[k + |key|..];
    SplitFirstMatch(a, key, k);
    var tail := v + "\"" + post;
    assert rest == gap + ['"'] + tail;
    NoMatchThrough(gap, '"', tail, key);
    NoMatchThrough(v, '"', post, key);
    var n := |gap| + 1 + |v| + 1;
    forall i: nat | i < n
      ensures !MatchAt(rest, key, i)
    {
      if i >= |gap| + 1 {
        assert rest == (gap + ['"']) + (v + ['"'] + post);
        MatchInRight(gap + ['"'], v + ['"'] + post, key, i);
      }
    }
    SplitHeadPrefix(rest, key, n);
    var head := Split(rest, key)[0];
    assert head[..n] == rest[..n] == gap + "\"" + v + "\"";
    assert head == gap + "\"" + v + "\"" + head[n..];
    SecondQuoted(gap, v, head[n..]);
  }

  /** `gene_name "v"` wins over any gene id. */
  lemma GeneNamePreferred(a: string, k: nat, gap: string, v: string, post: string)
    requires FirstMatchAt(a, "gene_name", k)
    requires a[k + 9..] == gap + "\"" + v + "\"" + post
    requires '"' !in gap && '"' !in v && Absent(gap, "gene_name") && Absent(v, "gene_name")
    ensures ExtractGene(a) == Some(v)
  {
    QuotedValue(a, "gene_name", k, gap, v, post);
  }

  /** Without any `gene_name`, `gene_id "v"` gives the gene. */
  lemma GeneIdFallback(a: string, k: nat, gap: string, v: string, post: string)
    requires Absent(a, "gene_name")
    requires FirstMatchAt(a, "gene_id", k)
    requires a[k + 7..] == gap + "\"" + v + "\"" + post
    requires '"' !in gap && '"' !in v && Absent(gap, "gene_id") && Absent(v, "gene_id")
    ensures ExtractGene(a) == Some(v)
  {
    SplitAbsent(a, "gene_name");
    QuotedValue(a, "gene_id", k, gap, v, post);
  }

  /** Neither key present: the line cannot be stored. */
  lemma GeneMissing(a: string)
    requires Absent(a, "gene_name") && Absent(a, "gene_id")
    ensures ExtractGene(a) == None
  {
    SplitAbsent(a, "gene_name");
    SplitAbsent(a, "gene_id");
  }

  /** `transcript_id "v"` gives the transcript. */
  lemma TranscriptRead(a: string, k: nat, gap: string, v: string, post: string)
    requires FirstMatchAt(a, "transcript_id", k)
    requires a[k + 13..] == gap + "\"" + v + "\"" + post
    requires '"' !in gap && '"' !in v && Absent(gap, "transcript_id") && Absent(v, "transcript_id")
    ensures ExtractTranscript(a) == Some(v)
  {
    QuotedValue(a, "transcript_id", k, gap, v, post);
  }

  /** `exon_number v;` gives `v` without its quotes. */
  lemma ExonNumberRead(a: string, k: nat, v: string, post: string)
    requires FirstMatchAt(a, "exon_number ", k)
    requires a[k + 12..] == v + ";" + post
    requires ';' !in v && Absent(v, "exon_number ")
    ensures ExtractExonNumber(a) == Some(RemoveChar(v, '"'))
  {
    var key := "exon_number ";
    var rest := a[k + 12..];
    assert rest == v + [';'] + post;
    assert ';' !in key;
    SplitFirstMatch(a, key, k);
    var p := Split(a, key);
    assert |p| >= 2 && p[1] == Split(rest, key)[0];
    NoMatchThrough(v, ';', post, key);
    SplitHeadPrefix(rest, key, |v| + 1);
    var head := p[1];
    assert head[..|v| + 1] == rest[..|v| + 1] == v + ";";
    assert head == v + [';'] + head[|v| + 1..];
    SplitAtChar(v, ';', head[|v| + 1..]);
    assert Split(head, ";")[0] == v;
  }

  /** Python's `'__'.join([transcript, exon])`. */
  function ExonId(transcript: string, exon: string): string {
    Join([transcript, exon], "__")
  }

  // ---------------------------------------------------------------------------
  // Annotation lines
  // ---------------------------------------------------------------------------

  datatype ExonRecord = ExonRecord(
    chromosome: string, start: int, stop: int, strand: string,
    gene: string, transcript: string, exonNumber: string)

  /** The exceptions that end `store`: IndexError on the line, a column or an
      attribute, ValueError from `int`, KeyError on a bin never allocated. */
  datatype StoreError =
    | EmptyLine
    | MissingColumn(index: nat)
    | NotAnInteger(index: nat)
    | MissingAttribute(key: string)
    | BinNotAllocated(chromosome: string, bin: int)

  datatype AnnotationLine = Ignored | ExonLine(record: ExonRecord)

  /** The columns of an exon line, read in the order the source reads them. */
  function ParseExonColumns(f: seq<string>): Result<AnnotationLine, StoreError>
    requires |f| >= 3
  {
    if |f| < 4 then Failure(MissingColumn(3))
    else match ParseInt(f[3])
    case None => Failure(NotAnInteger(3))
    case Some(start) =>
      if |f| < 5 then Failure(MissingColumn(4))
      else match ParseInt(f[4])
      case None => Failure(NotAnInteger(4))
      case Some(stop) =>
        if |f| < 7 then Failure(MissingColumn(6))
        else
          var attrs := f[|f| - 1];
          match ExtractGene(attrs)
          case None => Failure(MissingAttribute("gene_id"))
          case Some(gene) =>
            match ExtractTranscript(attrs)
            case None => Failure(MissingAttribute("transcript_id"))
            case Some(transcript) =>
              match ExtractExonNumber(attrs)
              case None => Failure(MissingAttribute("exon_number"))
              case Some(exon) =>
                Success(ExonLine(ExonRecord(f[0], start, stop, f[6], gene, transcript, exon)))
  }

  /** One line of the annotation file: comments and other features are ignored. */
  function ParseAnnotationLine(line: string): Result<AnnotationLine, StoreError> {
    if |line| == 0 then Failure(EmptyLine)
    else if line[0] == '#' then Success(Ignored)
    else
      var f := Split(line, "\t");
      if |f| < 3 then Failure(MissingColumn(2))
      else if f[2] != "exon" then Success(Ignored)
      else ParseExonColumns(f)
  }

  /** A tab-separated exon line with integer coordinates and readable
      attributes in its last column yields exactly those values. */
  lemma ExonLineRead(fields: seq<string>, start: int, stop: int, gene: string, transcript: string, exon: string)
    requires |fields| >= 7
    requires forall i :: 0 <= i < |fields| ==> '\t' !in fields[i]
    requires fields[0] != [] && fields[0][0] != '#'
    requires fields[2] == "exon"
    requires fields[3] == IntToString(start) && fields[4] == IntToString(stop)
    requires ExtractGene(fields[|fields| - 1]) == Some(gene)
    requires ExtractTranscript(fields[|fields| - 1]) == Some(transcript)
    requires ExtractExonNumber(fields[|fields| - 1]) == Some(exon)
    ensures ParseAnnotationLine(Join(fields, "\t")) ==
      Success(ExonLine(ExonRecord(fields[0], start, stop, fields[6], gene, transcript, exon)))
  {
    var line := Join(fields, "\t");
    assert line == fields[0] + "\t" + Join(fields[1..], "\t");
    assert line[0] == fields[0][0];
    SplitJoinChar(fields, '\t');
    assert ParseAnnotationLine(line) == ParseExonColumns(fields);
    ExonColumnsRead(fields, start, stop, gene, transcript, exon);
  }

  lemma ExonColumnsRead(f: seq<string>, start: int, stop: int, gene: string, transcript: string, exon: string)
    requires |f| >= 7
    requires f[3] == IntToString(start) && f[4] == IntToString(stop)
    requires ExtractGene(f[|f| - 1]) == Some(gene)
    requires ExtractTranscript(f[|f| - 1]) == Some(transcript)
    requires ExtractExonNumber(f[|f| - 1]) == Some(exon)
    ensures ParseExonColumns(f) == Success(ExonLine(ExonRecord(f[0], start, stop, f[6], gene, transcript, exon)))
  {
    ParseIntToString(start);
    ParseIntToString(stop);
  }

  /** A tab-separated line whose third column is not `exon` is ignored. */
  lemma OtherFeatureIgnored(fields: seq<string>)
    requires |fields| >= 3
    requires forall i :: 0 <= i < |fields| ==> '\t' !in fields[i]
    requires fields[0] != [] && fields[0][0] != '#'
    requires fields[2] != "exon"
    ensures ParseAnnotationLine(Join(fields, "\t")) == Success(Ignored)
  {
    var line := Join(fields, "\t");
    assert line == fields[0] + "\t" + Join(fields[1..], "\t");
    assert line[0] == fields[0][0];
    SplitJoinChar(fields, '\t');
  }

  // ---------------------------------------------------------------------------
  // Registration
  // ---------------------------------------------------------------------------

  /** Every chromosome holds exactly the pre-allocated slots, and every exon
      sits in the bin of its start. */
  predicate WellFormed(m: Master, maxCoord: int, interval: int)
    requires interval > 0
  {
    (forall c | c in m :: m[c].Keys == EmptyBins(maxCoord, interval).Keys) &&
    (forall c, b, id | c in m && b in m[c] && id in m[c][b] :: Bin(m[c][b][id].start, interval) == b)
  }

  /** No exon has received a coverage value yet. */
  predicate Unsampled(m: Master) {
    forall c, b, id | c in m && b in m[c] && id in m[c][b] :: m[c][b][id].samples == []
  }

  /** `master[chromosome] = {...}` on first sight of a chromosome (lines 64-65). */
  function WithChromosome(m: Master, c: string, maxCoord: int, interval: int): Master
    requires interval > 0
  {
    if c in m then m else m[c := EmptyBins(maxCoord, interval)]
  }

  function NewExon(rec: ExonRecord): Exon {
    Exon(rec.start, rec.stop, rec.strand, [], rec.gene)
  }

  /** `master[chromosome][entry][exon_id] = (start, stop, strand, [], gene)`. */
  function Registered(m: Master, rec: ExonRecord, maxCoord: int, interval: int): Result<Master, StoreError>
    requires interval > 0
  {
    var m1 := WithChromosome(m, rec.chromosome, maxCoord, interval);
    var bins := m1[rec.chromosome];
    var b := Bin(rec.start, interval);
    if b !in bins then Failure(BinNotAllocated(rec.chromosome, b))
    else
      var id := ExonId(rec.transcript, rec.exonNumber);
      Success(m1[rec.chromosome := bins[b := bins[b][id := NewExon(rec)]]])
  }

  lemma BinSlot(p: int, maxCoord: int, interval: int)
    requires interval > 0
    ensures IsSlot(Bin(p, interval), maxCoord, interval) <==> 0 <= p && Bin(p, interval) < maxCoord
  {
    MulBounds(interval, p / interval);
  }

  /** What one registration does: it fails exactly when the start lies outside
      the pre-allocated slots; otherwise it adds the chromosome with all its
      empty slots if new, keeps every existing bin, and puts the new exon (with
      no samples) under its id in its start bin only, replacing an earlier
      exon with the same id there. */
  lemma RegisterEffect(m: Master, rec: ExonRecord, maxCoord: int, interval: int)
    requires interval > 0 && WellFormed(m, maxCoord, interval)
    ensures Registered(m, rec, maxCoord, interval).Success? <==>
      0 <= rec.start && Bin(rec.start, interval) < maxCoord
    ensures Registered(m, rec, maxCoord, interval).Success? ==>
      var m' := Registered(m, rec, maxCoord, interval).value;
      var c, b := rec.chromosome, Bin(rec.start, interval);
      var before := if c in m then m[c] else EmptyBins(maxCoord, interval);
      && m'.Keys == m.Keys + {c}
      && (forall c' | c' in m && c' != c :: m'[c'] == m[c'])
      && m'[c].Keys == EmptyBins(maxCoord, interval).Keys
      && (forall b' | b' in m'[c] && b' != b :: m'[c][b'] == before[b'])
      && m'[c][b] == before[b][ExonId(rec.transcript, rec.exonNumber) := NewExon(rec)]
      && WellFormed(m', maxCoord, interval)
  {
    RegisterSucceeds(m, rec, maxCoord, interval);
    if Registered(m, rec, maxCoord, interval).Success? {
      RegisterShape(m, rec, maxCoord, interval);
      RegisterWellFormed(m, rec, maxCoord, interval);
    }
  }

  lemma RegisterSucceeds(m: Master, rec: ExonRecord, maxCoord: int, interval: int)
    requires interval > 0 && WellFormed(m, maxCoord, interval)
    ensures Registered(m, rec, maxCoord, interval).Success? <==>
      0 <= rec.start && Bin(rec.start, interval) < maxCoord
  {
    var c := rec.chromosome;
    var bins := WithChromosome(m, c, maxCoord, interval)[c];
    assert bins.Keys == EmptyBins(maxCoord, interval).Keys;
    BinSlot(rec.start, maxCoord, interval);
  }

  lemma RegisterShape(m: Master, rec: ExonRecord, maxCoord: int, interval: int)
    requires interval > 0 && WellFormed(m, maxCoord, interval)
    requires Registered(m, rec, maxCoord, interval).Success?
    ensures
      var m' := Registered(m, rec, maxCoord, interval).value;
      var c, b := rec.chromosome, Bin(rec.start, interval);
      var before := if c in m then m[c] else EmptyBins(maxCoord, interval);
      && m'.Keys == m.Keys + {c}
      && (forall c' | c' in m && c' != c :: m'[c'] == m[c'])
      && m'[c].Keys == EmptyBins(maxCoord, interval).Keys
      && (forall b' | b' in m'[c] && b' != b :: m'[c][b'] == before[b'])
      && m'[c][b] == before[b][ExonId(rec.transcript, rec.exonNumber) := NewExon(rec)]
  {
    var c, b := rec.chromosome, Bin(rec.start, interval);
    var m1 := WithChromosome(m, c, maxCoord, interval);
    WithChromosomeShape(m, c, maxCoord, interval);
    PutShape(m1, c, b, ExonId(rec.transcript, rec.exonNumber), NewExon(rec));
  }

  lemma WithChromosomeShape(m: Master, c: string, maxCoord: int, interval: int)
    requires interval > 0 && WellFormed(m, maxCoord, interval)
    ensures
      var m1 := WithChromosome(m, c, maxCoord, interval);
      && m1.Keys == m.Keys + {c}
      && (forall c' | c' in m && c' != c :: m1[c'] == m[c'])
      && m1[c] == (if c in m then m[c] else EmptyBins(maxCoord, interval))
      && m1[c].Keys == EmptyBins(maxCoord, interval).Keys
  {
    if c in m {
      assert m.Keys + {c} == m.Keys;
    } else {
      var m1 := m[c := EmptyBins(maxCoord, interval)];
      assert m1.Keys == m.Keys + {c};
    }
  }

  /** Storing `x` under `id` in bin `b` of chromosome `c` changes that entry
      and nothing else. */
  lemma PutShape(m1: Master, c: string, b: int, id: string, x: Exon)
    requires c in m1 && b in m1[c]
    ensures
      var m' := m1[c := m1[c][b := m1[c][b][id := x]]];
      && m'.Keys == m1.Keys
      && (forall c' | c' in m1 && c' != c :: m'[c'] == m1[c'])
      && m'[c].Keys == m1[c].Keys
      && (forall b' | b' in m'[c] && b' != b :: m'[c][b'] == m1[c][b'])
      && m'[c][b] == m1[c][b][id := x]
  {
  }

  lemma RegisterWellFormed(m: Master, rec: ExonRecord, maxCoord: int, interval: int)
    requires interval > 0 && WellFormed(m, maxCoord, interval)
    requires Registered(m, rec, maxCoord, interval).Success?
    ensures WellFormed(Registered(m, rec, maxCoord, interval).value, maxCoord, interval)
  {
    var c := rec.chromosome;
    var m1 := WithChromosome(m, c, maxCoord, interval);
    WithChromosomeWellFormed(m, c, maxCoord, interval);
    PutWellFormed(m1, c, Bin(rec.start, interval), ExonId(rec.transcript, rec.exonNumber), NewExon(rec), maxCoord, interval);
  }

  lemma WithChromosomeWellFormed(m: Master, c: string, maxCoord: int, interval: int)
    requires interval > 0 && WellFormed(m, maxCoord, interval)
    ensures WellFormed(WithChromosome(m, c, maxCoord, interval), maxCoord, interval)
  {
  }

  /** Putting an exon into the bin of its start keeps the index well formed. */
  lemma PutWellFormed(m: Master, c: string, b: int, id: string, e: Exon, maxCoord: int, interval: int)
    requires interval > 0 && WellFormed(m, maxCoord, interval)
    requires c in m && b in m[c] && Bin(e.start, interval) == b
    ensures WellFormed(m[c := m[c][b := m[c][b][id := e]]], maxCoord, interval)
  {
  }

  /** One line of `store`'s loop. */
  function StoreLine(m: Master, line: string, maxCoord: int, interval: int): Result<Master, StoreError>
    requires interval > 0
  {
    match ParseAnnotationLine(line)
    case Failure(e) => Failure(e)
    case Success(Ignored) => Success(m)
    case Success(ExonLine(rec)) => Registered(m, rec, maxCoord, interval)
  }

  /** `store`'s loop over all lines; the first failing line ends it. */
  function StoreAll(m: Master, lines: seq<string>, maxCoord: int, interval: int): Result<Master, StoreError>
    requires interval > 0
    decreases |lines|
  {
    if lines == [] then Success(m)
    else match StoreLine(m, lines[0], maxCoord, interval)
      case Failure(e) => Failure(e)
      case Success(m') => StoreAll(m', lines[1..], maxCoord, interval)
  }

  /** The index `store` builds keeps the slot and start-bin invariant, and no
      exon has samples yet. */
  lemma {:induction false} StoreAllWellFormed(m: Master, lines: seq<string>, maxCoord: int, interval: int)
    requires interval > 0 && WellFormed(m, maxCoord, interval) && Unsampled(m)
    ensures StoreAll(m, lines, maxCoord, interval).Success? ==>
      WellFormed(StoreAll(m, lines, maxCoord, interval).value, maxCoord, interval) &&
      Unsampled(StoreAll(m, lines, maxCoord, interval).value)
    decreases |lines|
  {
    if lines != [] {
      var r := StoreLine(m, lines[0], maxCoord, interval);
      if r.Success? {
        StoreLineWellFormed(m, lines[0], maxCoord, interval);
        assert StoreAll(m, lines, maxCoord, interval) == StoreAll(r.value, lines[1..], maxCoord, interval);
        StoreAllWellFormed(r.value, lines[1..], maxCoord, interval);
      }
    }
  }

  lemma StoreLineWellFormed(m: Master, line: string, maxCoord: int, interval: int)
    requires interval > 0 && WellFormed(m, maxCoord, interval) && Unsampled(m)
    requires StoreLine(m, line, maxCoord, interval).Success?
    ensures WellFormed(StoreLine(m, line, maxCoord, interval).value, maxCoord, interval)
    ensures Unsampled(StoreLine(m, line, maxCoord, interval).value)
  {
    match ParseAnnotationLine(line) {
      case Success(ExonLine(rec)) =>
        RegisterWellFormed(m, rec, maxCoord, interval);
        RegisterUnsampled(m, rec, maxCoord, interval);
      case _ =>
    }
  }

  lemma RegisterUnsampled(m: Master, rec: ExonRecord, maxCoord: int, interval: int)
    requires interval > 0 && Unsampled(m)
    requires Registered(m, rec, maxCoord, interval).Success?
    ensures Unsampled(Registered(m, rec, maxCoord, interval).value)
  {
  }

  /** A comment line, or a line whose feature column is not `exon`. */
  predicate IgnoredLine(line: string) {
    |line| > 0 &&
    (line[0] == '#' || (|Split(line, "\t")| >= 3 && Split(line, "\t")[2] != "exon"))
  }

  /** Comment and non-exon lines leave the index as it is. */
  lemma {:induction false} IgnoredLinesKeepIndex(m: Master, lines: seq<string>, maxCoord: int, interval: int)
    requires interval > 0
    requires forall i :: 0 <= i < |lines| ==> IgnoredLine(lines[i])
    ensures StoreAll(m, lines, maxCoord, interval) == Success(m)
    decreases |lines|
  {
    if lines != [] {
      IgnoredLinesKeepIndex(m, lines[1..], maxCoord, interval);
    }
  }
}
