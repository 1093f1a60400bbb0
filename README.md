# build_db: exon index, coverage aggregation and junction rows

`build_db.py` prepares the database behind a transcript-plotting tool. It
reads a GTF annotation into a nested dictionary `master`, keyed by chromosome,
then by a fixed-width bin of the exon's start coordinate, then by the exon id
`<transcript>__<exon number>`. Each entry holds the exon's start, stop, strand,
a list of signal samples, and the gene name.

The script then streams one or two wig signal files through that index. Each
signal point is appended to every exon of the point's own bin that contains it
and, for stranded files, lies on the matching strand. Finally, each exon
becomes a table row with coverage `sum(samples) / (1 + stop - start)`, and each
line of a BED junction file becomes a row with 1-based coordinates.

The project models these steps in Dafny, in seven modules:

- `Wrappers`: `Option`, `Result` and `Outcome`. An exception raised on the
  modelled lines (build_db.py:57-80, 96-118, 137-142 and 158-160) that ends
  the script is a `Failure` or `Fail` value naming the exception. Exceptions
  from file handling and SQLite are outside the model (see "Left out").
- `Text`: the Python string operations the script relies on, written out and
  proved:
  - `str.split(sep)` and `'sep'.join`, with the round trip between them;
  - `str.split()` on whitespace;
  - `strip`;
  - `replace(c, '')`;
  - `int()` on decimal text, with its own whitespace set, and `str()` of an
    integer.
- `Annotation`: the GTF side of `store`:
  - the bin formula and the pre-allocated bin slots;
  - the gene / transcript / exon-number extraction, including the `gene_name`
    to `gene_id` fallback;
  - line parsing, exon registration, and the fold over all lines.
- `Coverage`: `build_coverage_dict`:
  - the effect of one point;
  - the wig line format;
  - the line-by-line state machine with its current chromosome;
  - what a whole file can and cannot change.
- `Summary`: the per-exon row. This covers splitting the id back, the mean
  coverage, and a worked example.
- `Junction`: `build_junction_table`, from line to row and over a whole file.
- `Index`: the parts the script runs imperatively, as a class `ExonIndex`
  whose `master` field the methods update in place:
  - `Register` and `FeedPoint`;
  - `AddCoverage`, the wig loop;
  - `Summarise`, the row loop;
  - `Store`, the GTF loop;
  - `BuildSampleDb`, which chooses the signal files as the script does.

  Each method is proved against the functions of the modules above.

Three behaviours of the script are kept exactly as written:

- An exon is registered only in the bin of its start. A point is looked up
  only in the bin of its position. So a point inside an exon but past the
  end of the exon's start bin is never counted
  (`Coverage.CountedOnlyInStartBin`).
- A missing chromosome or bin during signal reading is skipped, because the
  script catches `KeyError` there. Every other malformed line raises and ends
  the run.
- The strand filter follows Python truthiness: an empty strand filters
  nothing.

The constants `max_coord = 400000000` and `interval = 10000` (build_db.py
lines 178-179) are parameters `maxCoord` and `interval`, with `interval > 0`.

## Model

| member | source | states |
|---|---|---|
| Text.Split | build_db.py:58 | `str.split(sep)` for a non-empty separator always yields at least one piece |
| Text.JoinSplit | build_db.py:140 | joining the pieces of `s.split(sep)` with `sep` gives back `s` |
| Text.SplitAbsent | build_db.py:140 | a string without the separator splits into itself alone |
| Text.SplitFirstMatch | build_db.py:72 | the first piece ends at the leftmost occurrence of the separator; the remaining pieces are those of the text after it |
| Text.DropLeadingEnds | build_db.py:158 | stripping the front removes only characters of the stripped class, and what is left does not start with one |
| Text.DropTrailingEnds | build_db.py:97 | stripping the back removes only characters of the stripped class, and what is left does not end with one |
| Text.SplitJoinChar | build_db.py:58 | splitting on a one-character separator undoes joining with it, when no part contains that character |
| Text.Words | build_db.py:158 | `str.split()` yields only non-empty, whitespace-free fields |
| Text.WordsOfJoin | build_db.py:158 | words joined by one whitespace character, followed by any whitespace, split back into exactly those words |
| Text.RemoveChar | build_db.py:77 | `replace('"', '')` leaves no quote, keeps every other character with its multiplicity, and changes a quote-free string not at all |
| Text.RemoveCharSingle | build_db.py:77 | a single character is kept exactly when it is not the removed one |
| Text.RemoveCharConcat | build_db.py:77 | removal works piece by piece, so the kept characters stay in their order |
| Text.ParseIntRejectsSeparator | build_db.py:67-68 | a U+001C separator before a digit makes `int()` fail, although `str.split()` and `str.strip()` treat it as whitespace |
| Text.ParseIntToString | build_db.py:67-68 | `int(str(n)) == n` for every integer `n` |
| Annotation.Bin | build_db.py:79 | the bin of `p` is a multiple of `interval`, at most `p`, and less than `interval` below `p` |
| Annotation.BinUnique | build_db.py:104 | the only multiple of `interval` within `interval` below or at `p` is the bin of `p`, so registration and lookup use the same bin |
| Annotation.RangeMembers | build_db.py:65 | `range(lo, hi, step)` holds exactly the values `lo + k*step` below `hi` |
| Annotation.EmptyBins | build_db.py:64-65 | a new chromosome gets exactly the slots `0, interval, …` below `max_coord`, each empty |
| Annotation.ExtractExonNumber | build_db.py:77 | the exon number never contains a quote |
| Annotation.GeneNamePreferred | build_db.py:72 | with a quoted `gene_name` value present, the gene is that value |
| Annotation.GeneIdFallback | build_db.py:71-74 | without `gene_name`, the gene is the quoted `gene_id` value |
| Annotation.GeneMissing | build_db.py:71-74 | with neither `gene_name` nor `gene_id` present, no gene is read |
| Annotation.TranscriptRead | build_db.py:76 | the transcript is the quoted value after the first `transcript_id` |
| Annotation.ExonNumberRead | build_db.py:77 | the exon number is the text between `exon_number ` and the next `;`, with quotes removed |
| Annotation.ExonLineRead | build_db.py:57-77 | a tab-separated exon line with integer start and stop parses to the record of its chromosome, coordinates, strand, gene, transcript and exon number |
| Annotation.OtherFeatureIgnored | build_db.py:61-62 | a line whose feature column is not `exon` is skipped |
| Annotation.IgnoredLinesKeepIndex | build_db.py:57-62 | comment lines and non-exon lines leave the index unchanged |
| Annotation.RegisterEffect | build_db.py:64-80 | registration succeeds exactly when the start bin lies in `[0, max_coord)`. On success: only the exon's chromosome may be added; other chromosomes and other bins are untouched; existing bins are never reset; the exon with no samples is stored under `transcript__exon` in its start bin, replacing an earlier entry with that id; the result is well formed |
| Annotation.StoreAllWellFormed | build_db.py:50-82 | the index built from any lines has the pre-allocated slots for each chromosome, has every exon in its start bin, and has no samples |
| Coverage.FedPointEffect | build_db.py:104-118 | one point keeps every chromosome, bin and id; it appends `v` to exactly the exons of the point's chromosome and bin that contain the position and pass the strand filter; every other exon is unchanged; a missing chromosome or bin changes nothing |
| Coverage.CountedOnlyInStartBin | build_db.py:104-114 | in a well-formed index, an unfiltered point inside an exon's span is counted for it exactly when the point lies within `interval` of the exon's start bin |
| Coverage.ExtendsWellFormed | build_db.py:104-114 | appending samples keeps the index well formed |
| Coverage.HeaderNameRead | build_db.py:96-97 | a line `p=name` followed by a newline names `name` as the current chromosome |
| Coverage.PointLineRead | build_db.py:100-103 | a line `position<TAB>value` with an integer position as `str` writes it and a value `float` accepts is read as that point |
| Coverage.FeedLinesExtends | build_db.py:90-118 | reading a signal file never removes a chromosome, bin or exon, never changes an exon's coordinates, strand or gene, and only appends samples |
| Coverage.CurrentIsLastHeader | build_db.py:96-97 | after a file read without error, the current chromosome is the one named by the last header line |
| Coverage.FeedHeaderStep | build_db.py:96-97 | a header line read without error makes the chromosome it names current and hands the index unchanged to the lines after it |
| Coverage.UnknownChromosomeIgnored | build_db.py:116-118 | points under a chromosome absent from the index change nothing |
| Coverage.OtherStrandUntouched | build_db.py:107-110 | a strand-filtered file never changes an exon of another strand |
| Summary.SumPermutation | build_db.py:142 | the summed coverage does not depend on the order in which samples arrived |
| Summary.RowFor | build_db.py:140-142 | a row exists exactly when the id splits into two names and `1 + stop - start` is not zero; otherwise the error names which exception. On success: the names joined by `__` give back the id; coverage times length equals the sample sum; the other columns are the exon's |
| Summary.IdRoundTrip | build_db.py:140 | splitting `transcript__exon` gives back both names when neither contains `__` and the transcript does not end in `_` |
| Summary.TrailingUnderscoreMisread | build_db.py:140 | a transcript ending in `_` is not recovered: `a_` and `1` come back as `a` and `_1` |
| Summary.ThreePointExample | build_db.py:137-143 | an exon at 1000-1099 receiving 2.0, 4.0 and 6.0 inside its bin gets coverage 0.12 whenever its id splits |
| Junction.WordsStrip | build_db.py:158 | `line.strip().split()` gives the same fields as `line.split()` |
| Junction.RowOfFieldsRead | build_db.py:158-160 | five or more fields with integer second and third give the row with both coordinates plus one; extra fields are ignored |
| Junction.JunctionLineRead | build_db.py:158-160 | a whitespace-separated BED line with integer coordinates reads back as its row, with start and stop each moved up by one |
| Junction.Collect | build_db.py:156-161 | the file yields all rows in line order exactly when every line converts; otherwise it yields the error of the first line that fails, all earlier lines having converted |
| Junction.LoadJunctions | build_db.py:156-161 | the loop over the lines yields exactly `ParseJunctions(lines)` |
| Index.ExonIndex.constructor | build_db.py:50 | a new index is empty and valid |
| Index.ExonIndex.Register | build_db.py:64-80 | the index afterwards is the registered one. On a missing start bin the error is returned and the newly allocated chromosome is kept. Validity is preserved |
| Index.AppendMatching | build_db.py:108-114 | the loop over a bin appends `v` to the matching exons only |
| Index.ExonIndex.FeedPoint | build_db.py:104-118 | the index afterwards is the one-point update of the old index; validity is preserved |
| Index.ExonIndex.AddCoverage | build_db.py:89-118 | the index and the error afterwards are those of reading the file from no current chromosome; points before a failing line stay applied |
| Index.Store | build_db.py:28-82 | a fresh valid index with no samples holding exactly the fold over all lines, or the error of the first failing line |
| Index.ExonIndex.Summarise | build_db.py:137-143 | on success, one row per stored exon, each listed once, each the row for its exon; on failure, some exon's row fails with that error |
| Index.TableSize | build_db.py:137-143 | a table has exactly as many rows as the index has exons |
| Index.CoveredExtends | build_db.py:125-130 | whichever signal files are given, reading them only appends samples to the stored exons |
| Index.UnstrandedExonUncovered | build_db.py:128-130 | with the stranded pair, an exon whose strand is neither `-` nor `+` receives no signal |
| Index.BuildSampleDb | build_db.py:121-146 | the first exception from `store`, the signal files or the summary ends the run with that error; otherwise the rows are a table of the index after reading the selected signal |

## Left out

- Argument parsing (build_db.py:9-25) is not modelled. Inputs are given as sequences of lines; an absent file argument is `None`.
- SQLite is not modelled: connecting, creating tables, inserting, committing, and the database-open check (build_db.py:132-135, 143-146, 152-154, 161-164, 171-176). Rows are returned as sequences. The `exon int` and `counts int` column affinities are not modelled either.
- File opening, line iteration and the progress and diagnostic `print`s are not modelled.
- Wig values are read by a parameter `parseValue` that stands for `float()` (build_db.py:103). Values are exact reals, so floating-point rounding in `sum` and in the division is not modelled.
- Text.ParseInt: handles ASCII decimal digits with an optional sign and surrounding whitespace. It skips the whitespace `int()` skips: ASCII space, tab, newline, vertical tab, form feed and carriage return, and the non-ASCII characters `str.isspace` accepts, but not U+001C to U+001F. It does not model `int()`'s acceptance of underscores between digits or of non-ASCII decimal digits. It does not model the limit of 4300 digits that CPython 3.11 and later put on `int()` and `str()`.
- Text.ParseIntToString: holds for every integer in the model. Under CPython 3.11 and later, `str(n)` raises ValueError for integers of more than 4300 digits, so the round trip exists there only below that size.
- Index.Store: a line that fails to parse after its chromosome was first seen does not leave that chromosome's empty bins behind. The script allocates them at lines 64-65 before reading the coordinates, but the exception then discards the whole dictionary, so the difference is not observable.
- Index.ExonIndex.Summarise: rows are produced in an order the method chooses, not in the dictionary's insertion order, and by one loop over all (chromosome, bin, id) entries instead of three nested loops. The table has no order.
- Index.BuildSampleDb: a file argument given as the empty string counts as given. In the script it is falsy and treated as absent.
- The two `build_junction_table` calls at build_db.py:185-186 are not modelled. For each given file they run `Junction.LoadJunctions`. When `-sj` or `-c` is absent, `open(None)` at build_db.py:156 raises TypeError and ends the script; the model has no such failure.
- An existing `coverage`, `canonical` or `circle` table makes `CREATE TABLE` (build_db.py:135, 154) raise `sqlite3.OperationalError`; with SQLite left out, the model has no such failure.
