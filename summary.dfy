/** The per-exon row that `build_sample_db` writes to the coverage table:
    transcript and exon number recovered from the exon id, and the mean
    coverage over the exon's length. */
module Summary {
  import opened Wrappers
  import opened Text
  import opened Annotation
  import opened Coverage

  /** One row of the `coverage` table, columns in table order. */
  datatype Row = Row(
    gene: string, transcript: string, exon: string, coverage: real,
    chromosome: string, start: int, stop: int, strand: string)

  /** ValueError from unpacking `exon_id.split('__')` into two names, and
      ZeroDivisionError when `1 + stop - start` is zero. */
  datatype SummaryError = IdNotSplittable(id: string) | ZeroLength(id: string)

  /** Python's `sum`, adding from the left. */
  function Sum(s: seq<real>): real
    decreases |s|
  {
    if s == [] then 0.0 else Sum(s[..|s| - 1]) + s[|s| - 1]
  }

  lemma {:induction false} SumConcat(a: seq<real>, b: seq<real>)
    ensures Sum(a + b) == Sum(a) + Sum(b)
    decreases |b|
  {
    if b == [] {
      assert a + b == a;
    } else {
      assert (a + b)[..|a + b| - 1] == a + b[..|b| - 1];
      SumConcat(a, b[..|b| - 1]);
    }
  }

  /** The total does not depend on the order in which samples arrived. */
  lemma {:induction false} SumPermutation(s: seq<real>, t: seq<real>)
    requires multiset(s) == multiset(t)
    ensures Sum(s) == Sum(t)
    decreases |s|
  {
    if s == [] {
      assert |t| == |multiset(t)| == 0;
    } else {
      var x := s[|s| - 1];
      var s' := s[..|s| - 1];
      assert s == s' + [x];
      assert x in multiset(t);
      var j :| 0 <= j < |t| && t[j] == x;
      var t' := t[..j] + t[j + 1..];
      assert t == t[..j] + [x] + t[j + 1..];
      assert multiset(t) == multiset(t[..j]) + multiset{x} + multiset(t[j + 1..]);
      assert multiset(t') == multiset(t) - multiset{x};
      assert multiset(s') == multiset(s) - multiset{x};
      SumPermutation(s', t');
      SumConcat(t[..j] + [x], t[j + 1..]);
      SumConcat(t[..j], [x]);
      SumConcat(t[..j], t[j + 1..]);
      assert Sum([x]) == Sum([]) + x;
    }
  }

  /** The row for one exon stored under `id` on `chromosome`. It exists exactly
      when the id splits into two names and the exon's length is not zero;
      then the names joined back give the id, the coverage times the length
      is the sum of the samples, and the other columns are the exon's own. */
  function RowFor(chromosome: string, id: string, e: Exon): (r: Result<Row, SummaryError>)
    ensures r.Success? <==> |Split(id, "__")| == 2 && 1 + e.stop - e.start != 0
    ensures r.Failure? ==>
      r.error == if |Split(id, "__")| != 2 then IdNotSplittable(id) else ZeroLength(id)
    ensures r.Success? ==>
      && [r.value.transcript, r.value.exon] == Split(id, "__")
      && ExonId(r.value.transcript, r.value.exon) == id
      && r.value.coverage * (1 + e.stop - e.start) as real == Sum(e.samples)
      && r.value.gene == e.gene && r.value.chromosome == chromosome
      && r.value.start == e.start && r.value.stop == e.stop && r.value.strand == e.strand
  {
    var parts := Split(id, "__");
    if |parts| != 2 then Failure(IdNotSplittable(id))
    else if 1 + e.stop - e.start == 0 then Failure(ZeroLength(id))
    else
      JoinSplit(id, "__");
      assert Join(parts, "__") == Join([parts[0], parts[1]], "__") by {
        assert parts == [parts[0], parts[1]];
      }
      Success(Row(e.gene, parts[0], parts[1], Sum(e.samples) / (1 + e.stop - e.start) as real,
                  chromosome, e.start, e.stop, e.strand))
  }

  lemma ExonIdText(t: string, e: string)
    ensures ExonId(t, e) == t + "__" + e
  {
    assert [t, e][1..] == [e];
    assert Join([e], "__") == e;
  }

  /** Splitting an id gives back the transcript and exon number it was built
      from, provided neither contains `__` and the transcript does not end in
      `_` (an exon number may start with one). */
  lemma IdRoundTrip(t: string, e: string)
    requires Absent(t, "__") && Absent(e, "__")
    requires t == [] || t[|t| - 1] != '_'
    ensures Split(ExonId(t, e), "__") == [t, e]
  {
    var s := t + "__" + e;
    ExonIdText(t, e);
    var k := |t|;
    assert s[k..k + 2] == "__";
    forall i: nat | i < k ensures !MatchAt(s, "__", i) {
      if i + 2 <= k {
        MatchInLeft(t, "__" + e, "__", i);
        assert s == t + ("__" + e);
      } else {
        assert s[i..i + 2] == [t[k - 1], '_'];
      }
    }
    SplitFirstMatch(s, "__", k);
    assert s[..k] == t;
    assert s[k + 2..] == e;
    SplitAbsent(e, "__");
  }

  /** A transcript id ending in `_` does not survive: `"a_"` and `"1"` make
      the key `a___1`, which splits into `a` and `_1`. */
  lemma TrailingUnderscoreMisread()
    ensures Split(ExonId("a_", "1"), "__") == ["a", "_1"]
  {
    var s := ExonId("a_", "1");
    ExonIdText("a_", "1");
    assert s == "a___1";
    assert s[1..3] == "__";
    assert !MatchAt(s, "__", 0) by {
      assert s[0..2] == "a_";
    }
    SplitFirstMatch(s, "__", 1);
    assert s[..1] == "a" && s[3..] == "_1";
    var rest := Split("1", "__");
    assert rest == ["1"];
    assert !MatchAt("_1", "__", 0) by {
      assert "_1"[0..2] == "_1";
    }
    assert "_1"[1..] == "1";
    assert Split("_1", "__") == [['_'] + rest[0]] + rest[1..];
    assert ['_'] + "1" == "_1";
  }

  /** A worked example: an exon over positions 1000 to 1099 on the plus strand
      receives unfiltered signal 2.0, 4.0 and 6.0 at positions 1000, 1050 and
      1099 (with bins of width 10000); its row reports a mean coverage of 12
      over its 100 bases, 0.12, whenever its id splits into two names. */
  lemma ThreePointExample(m: Master, m1: Master, m2: Master, m3: Master, c: string, id: string)
    requires c in m && 0 in m[c] && id in m[c][0]
    requires m[c][0][id] == Exon(1000, 1099, "+", [], "GENEA")
    requires m1 == FedPoint(m, c, 1000, 2.0, None, 10000)
    requires m2 == FedPoint(m1, c, 1050, 4.0, None, 10000)
    requires m3 == FedPoint(m2, c, 1099, 6.0, None, 10000)
    ensures c in m3 && 0 in m3[c] && id in m3[c][0]
    ensures m3[c][0][id].samples == [2.0, 4.0, 6.0]
    ensures RowFor(c, id, m3[c][0][id]).Success? <==> |Split(id, "__")| == 2
    ensures RowFor(c, id, m3[c][0][id]).Success? ==> RowFor(c, id, m3[c][0][id]).value.coverage == 0.12
  {
    PointInStartBin(m, c, id, 1000, 2.0);
    PointInStartBin(m1, c, id, 1050, 4.0);
    PointInStartBin(m2, c, id, 1099, 6.0);
    var e := m3[c][0][id];
    assert e.start == 1000 && e.stop == 1099;
    assert e.samples == [] + [2.0] + [4.0] + [6.0];
    SumOfThree();
    MeanRow(c, id, e);
  }

  lemma SumOfThree()
    ensures Sum([] + [2.0] + [4.0] + [6.0]) == 12.0
  {
    assert [] + [2.0] + [4.0] + [6.0] == [2.0, 4.0, 6.0];
    assert [2.0, 4.0, 6.0][..2] == [2.0, 4.0];
    assert [2.0, 4.0][..1] == [2.0];
    assert [2.0][..0] == [];
  }

  /** An exon of 100 bases whose samples add up to 12 has mean coverage 0.12. */
  lemma MeanRow(c: string, id: string, e: Exon)
    requires e.start == 1000 && e.stop == 1099 && Sum(e.samples) == 12.0
    ensures RowFor(c, id, e).Success? <==> |Split(id, "__")| == 2
    ensures RowFor(c, id, e).Success? ==> RowFor(c, id, e).value.coverage == 0.12
  {
    var r := RowFor(c, id, e);
    if r.Success? {
      MeanOf(r.value.coverage, 100.0, 12.0);
    }
  }

  lemma MeanOf(x: real, n: real, total: real)
    requires n > 0.0 && x * n == total
    ensures x == total / n
  {
  }

  /** One unfiltered point inside an exon of bin 0 (width 10000) is appended to it. */
  lemma PointInStartBin(m: Master, c: string, id: string, pos: int, v: real)
    requires c in m && 0 in m[c] && id in m[c][0]
    requires 0 <= pos < 10000 && m[c][0][id].start <= pos <= m[c][0][id].stop
    ensures var m' := FedPoint(m, c, pos, v, None, 10000);
      c in m' && 0 in m'[c] && id in m'[c][0] &&
      m'[c][0][id] == m[c][0][id].(samples := m[c][0][id].samples + [v])
  {
    BinUnique(pos, 0, 10000);
    FedPointAt(m, c, 0, id, pos, v, None, 10000);
  }
}
