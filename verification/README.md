# MetaPhinder core, modelled in Dafny

MetaPhinder classifies the contigs of a metagenomic assembly as phage or
not. It first indexes the contig lengths of a FASTA file. It then aligns
the contigs against a phage database with BLAST. From the tabular BLAST
output it computes each contig's genome-wide identity: the length-weighted
mean percent identity of the significant hits, times the fraction of the
contig covered by their merged query spans. Finally it writes one report row
per contig: "phage" when the rounded identity exceeds 1.7 %, "negative"
otherwise, and "not processed" below 500 bp.

The model covers all of this except the I/O, one module per step:

| file | module | models |
|---|---|---|
| `fasta.dfy` | `FastaIndex` | `get_contig_size`: the line-by-line scan with the sentinel counter `s` |
| `identity.dfy` | `Identity` | `calc_a_id`: the length-weighted mean identity |
| `coverage.dfy` | `Coverage` | `calc_rel_mcov`: sort by start, sweep and merge, divide by the contig length |
| `hits.dfy` | `HitStream` | the BLAST record loop of `main`: e-value filter, grouping by query, flushing into `res` |
| `report.dfy` | `Report` | the classification loop of `main`: rounding, threshold, one row per contig id |

The source works by stepwise mutation, so each piece is a `method` with a
loop. The loop is proved against a pure recursive specification function:
- `GetContigSize` against `ContigSizes`;
- `CalcAId` against `ANI`;
- `CalcRelMcov` and `Sweep` against the size of `Covered`, the union of the half-open ranges `[lo, hi)`;
- `AggregateHits` against `Scores`;
- `BuildReport` against `ReportOf`.

Lemmas then state what those functions mean:
- merged coverage is the size of a union, so it does not depend on order;
- the identity is a weighted mean;
- the groups partition the significant part of the stream;
- the last group with a query wins;
- the phage test is a threshold on the exact value.

Error exits are modelled as outcomes, not preconditions:
- a FASTA file with no residue line (`NoContigs`, exit status 2);
- residues before the first header (`MissingHeader`);
- a BLAST query without a recorded length (`UnknownQuery`, a KeyError);
- a query of length 0 (`ZeroLength`, a division by zero);
- a contig id without a length in the report (`Report.Failed`, a KeyError).

Some behaviour of the code as written is easy to miss. The model follows the code in each case:
- **Empty leading contigs.** Headers before the first residue line are listed in `contigID` but get no length. The sentinel `s` is still -1 when the next header arrives, so nothing is written. The report then stops with a KeyError at such an id (`FastaIndex.LeadingEmptyContigUnsized`, `Report.LeadingEmptyContigStopsReport`). An empty contig after the first residue line is recorded with length 0.
- **The last group.** The last group of the BLAST stream is written only when the stream ends with a comment line. The final check compares `old_id` with the first field of the last line (`HitStream.TrailingCommentFlushes`).
- **Subject counting.** The count rises whenever a hit's subject differs from the previous hit's subject. A subject that comes back is counted again, so the count is at least the number of distinct subjects (`HitStream.SubjectCountBounds`, `HitStream.SubjectCountRevisit`).
- **Span lengths.** Coverage counts `end - start` per merged run. A hit over positions 1..800 of a 1000 bp contig therefore covers 799 positions, and the fraction stays below 1 (`Coverage.RelMcovBounded`).
- **Groups without significant hits.** Once a first significant hit has been seen, a query whose hits all fail the e-value test still opens a group. Its entry is written with zero identity, zero coverage and zero subjects (`HitStream.InsignificantGroupScoresZero`).
- **Repeated queries.** A query that reappears after another query overwrites its earlier entry (`HitStream.CollectLastWins`).

## Model

| member | source | states |
|---|---|---|
| `FastaIndex.GetContigSize` | MetaPhinder.py:46-78 | The scan returns exactly `ContigSizes(lines)`. That is `NoContigs` when no residue line is seen, `MissingHeader` when residues come before the first header, and otherwise the header ids in order with the residue count of each recorded block. |
| `FastaIndex.HeaderIdShape` | MetaPhinder.py:62-63 | A contig id is the first space-separated token with '>' stripped from both ends: it holds no space and neither starts nor ends with '>'. |
| `FastaIndex.FirstTokenSplit` | MetaPhinder.py:62 | The token is a prefix of the line without a space, and it is followed by a space unless it is the whole line. |
| `FastaIndex.TrimStartShape` | MetaPhinder.py:63 | Stripping a character from the front (as `strip(">")` does) leaves a suffix of the input that does not start with it. |
| `FastaIndex.TrimStartRemovesOnly` | MetaPhinder.py:63 | Only copies of that character are removed from the front. |
| `FastaIndex.TrimEndShape` | MetaPhinder.py:63 | Stripping a character from the back leaves a prefix of the input that does not end with it. |
| `FastaIndex.TrimEndRemovesOnly` | MetaPhinder.py:63 | Only copies of that character are removed from the back. |
| `FastaIndex.SkipUnsized` | MetaPhinder.py:58-60 | The recorded blocks are a suffix of all blocks. |
| `FastaIndex.SkipUnsizedDropsEmpty` | MetaPhinder.py:58-60 | The sentinel drops exactly the leading empty blocks: every dropped block is empty and the first recorded block is not. |
| `FastaIndex.ScanHeader` | MetaPhinder.py:55-63 | A header line after residues records the current contig's size and opens a new one with size 0. |
| `FastaIndex.ScanFirstHeaders` | MetaPhinder.py:55-63 | A header line while `s` is -1 only appends its id, and no size is written. |
| `FastaIndex.ScanFirstResidue` | MetaPhinder.py:64-68 | The first residue line moves `s` from -1 to its length. |
| `FastaIndex.ScanResidue` | MetaPhinder.py:64-68 | A later residue line adds its length to `s`. |
| `FastaIndex.ScanAbort` | MetaPhinder.py:53-59 | Residues before the first header make the outcome `MissingHeader`, whatever follows. |
| `FastaIndex.ScanEnd` | MetaPhinder.py:71-78 | After the last line: `NoContigs` if `s` is -1, `MissingHeader` if there is no id, else the sizes with the last contig written. |
| `FastaIndex.BlockIds` | MetaPhinder.py:61-63 | There is one block per header, in header order, carrying that header's id. |
| `FastaIndex.IndexSound` | MetaPhinder.py:53-76 | Every recorded size is non-negative and belongs to a listed id. |
| `FastaIndex.SizeMapNonNegative` | MetaPhinder.py:58-68 | Every recorded contig length is a count of residues, so it is never negative. |
| `FastaIndex.SizeMapLastWins` | MetaPhinder.py:59 | A later header with the same id overwrites the earlier size. |
| `FastaIndex.SizeMapKeys` | MetaPhinder.py:59 | Every recorded id comes from some recorded block. |
| `FastaIndex.AllHeadersUnsized` | MetaPhinder.py:66-74 | A file of headers only has empty blocks and records no size. |
| `FastaIndex.LeadingEmptyContigUnsized` | MetaPhinder.py:53-68 | For header, header, residues only the second id gets a size: both ids are listed, one size is recorded. |
| `FastaIndex.EmptyContigAfterSequence` | MetaPhinder.py:57-60 | For header, residues, header both ids get a size, the second being 0. |
| `Identity.CalcAId` | MetaPhinder.py:82-93 | The loop returns `ANI`: the weighted sum over the total length over 100 when both are positive, otherwise the weighted sum itself. |
| `Identity.WeightedSumBounds` | MetaPhinder.py:87-89 | With identities in [lo, hi] and positive lengths, the weighted sum lies between lo and hi times the total length. |
| `Identity.ANIIsWeightedMean` | MetaPhinder.py:85-93 | For at least one hit with positive lengths the result is the weighted mean over 100, and it lies between min/100 and max/100. |
| `Identity.PercentMeanBounds` | MetaPhinder.py:91-92 | When the weighted sum lies between lo and hi times a positive total, the guarded division is the mean over 100 and lies between lo/100 and hi/100. |
| `Identity.ANIEmptyAndSingle` | MetaPhinder.py:85-93 | No hits give 0; one hit gives its own identity over 100. |
| `Coverage.CalcRelMcov` | MetaPhinder.py:97-125 | The result is the number of positions in the union of the ranges `[start, end)` divided by the contig length. That covers no hits (0), one hit (`end - start`) and the sorted sweep. |
| `Coverage.Sweep` | MetaPhinder.py:107-118 | Over intervals ordered by start, the merged length computed by the sweep equals the size of their union. |
| `Coverage.SortByStart` | MetaPhinder.py:105 | The sorted positions are ordered by start and are a permutation of the input. |
| `Coverage.Insert` | MetaPhinder.py:105 | Insertion keeps the order by start and adds exactly one element. |
| `Coverage.SortedPermutation` | MetaPhinder.py:105 | A sorted permutation of normalised intervals is still normalised. |
| `Coverage.CloseRun` | MetaPhinder.py:110-113 | Closing a run adds `end - start` positions disjoint from the earlier runs. |
| `Coverage.MergeRun` | MetaPhinder.py:114-116 | An interval starting inside the current run extends it to the larger end and covers nothing else. |
| `Coverage.CoveredMembers` | MetaPhinder.py:104-118 | A position is covered exactly when some hit's range contains it. |
| `Coverage.CoveredPermutation` | MetaPhinder.py:104-118 | The merged coverage does not depend on the order of the hits or on how ties are ordered. |
| `Coverage.MergedAtMostSum` | MetaPhinder.py:104-118 | The merged length is at most the sum of the single lengths. |
| `Coverage.MergedAtLeastEach` | MetaPhinder.py:104-118 | The merged length is at least any single hit's `end - start`. |
| `Coverage.RelMcovBounded` | MetaPhinder.py:123 | With every position in 1..gsize the fraction lies in [0, 1), and the merged length is at most gsize - 1. |
| `Coverage.SingleHit` | MetaPhinder.py:120-121 | One hit covers `end - start` positions. |
| `Coverage.OverlappingPair` | MetaPhinder.py:110-116 | Two overlapping hits merge into one run from the first start to the larger end. |
| `Coverage.DisjointPair` | MetaPhinder.py:110-113 | Two disjoint hits cover the sum of their lengths. |
| `Coverage.MergeExamples` | MetaPhinder.py:104-118 | [10,50] and [40,90] cover 80 positions; [10,20] and [30,40] cover 20. |
| `HitStream.AggregateHits` | MetaPhinder.py:191-257 | The record loop returns exactly `Scores(records, size)`: the groups it flushes, written in order, or the first missing or zero size. |
| `HitStream.Normalise` | MetaPhinder.py:241-244 | The stored interval has its ends in increasing order and is the same pair of positions. |
| `HitStream.SigMembers` | MetaPhinder.py:233 | A hit is kept exactly when it is one of the group's hits with e-value at most 0.05. |
| `HitStream.SigConcat` | MetaPhinder.py:224-245 | The filter keeps the hits in record order: filtering a concatenation concatenates the filtered parts. |
| `HitStream.AddHit` | MetaPhinder.py:232-245 | After a record, the accumulators hold the significant hits of the extended group: identities, lengths, normalised spans, last subject and subject count. |
| `HitStream.ScoreGroup` | MetaPhinder.py:213-221 | The flushed entry is `a_id * rel_mcov`, `rel_mcov` and `n_s_id` of the accumulated hits. |
| `HitStream.FlushGroup` | MetaPhinder.py:211-221 | Flushing fails on a query without a size (KeyError) or with size 0 (division by zero); otherwise it writes the group's entry under `old_id`. |
| `HitStream.SummaryBounds` | MetaPhinder.py:214-217 | With identities in [0, 100] and spans inside the contig, 0 <= g_id <= rel_mcov < 1. |
| `HitStream.ScoreMonotone` | MetaPhinder.py:214-217 | The genome identity of a summary grows with its identity fraction `a_id` and with its coverage `rel_mcov`. |
| `HitStream.CombineMonotone` | MetaPhinder.py:217 | `g_id = a_id * rel_mcov` is monotone in both non-negative factors. |
| `HitStream.Flush` | MetaPhinder.py:211-221 | The step case of the fold: writing the open group after the closed ones. |
| `HitStream.ScoresAtEnd` | MetaPhinder.py:247-257 | After the loop, the open group is written exactly when `old_id` is set and differs from the last line's first field. |
| `HitStream.FailureSticks` | MetaPhinder.py:211-221 | A failing flush inside the loop decides the outcome of the whole stream. |
| `HitStream.CollectFailureSticks` | MetaPhinder.py:215 | Once a group fails, no later group changes the outcome. |
| `HitStream.GroupsFlatten` | MetaPhinder.py:205-245 | Concatenated, the groups give back every tabular hit from the first significant one on, in order. |
| `HitStream.FlattenExtend` | MetaPhinder.py:211-245 | One more tabular hit is appended to the concatenated groups once a group is open; before that, only a significant hit starts them. |
| `HitStream.GroupsRuns` | MetaPhinder.py:211-230 | Each group is a non-empty run of one query, and neighbouring groups have different queries. |
| `HitStream.TrailingCommentFlushes` | MetaPhinder.py:247-257 | Without a trailing comment the last group is not written; a trailing comment writes it. |
| `HitStream.NoSignificantHits` | MetaPhinder.py:211-245 | A stream without a significant hit writes nothing. |
| `HitStream.CollectKeys` | MetaPhinder.py:220 | When nothing fails, the keys of `res` are exactly the queries of the written groups. |
| `HitStream.CollectSizes` | MetaPhinder.py:215 | When nothing fails, every written query has a positive size. |
| `HitStream.CollectLastWins` | MetaPhinder.py:220 | Each key holds the entry of the last group with that query. |
| `HitStream.InsignificantGroupScoresZero` | MetaPhinder.py:224-245 | A group without significant hits is written as 0, 0, 0. |
| `HitStream.SubjectCountBounds` | MetaPhinder.py:235-237 | The subject count lies between the number of distinct non-empty subjects and the number of hits. |
| `HitStream.SubjectCountRevisit` | MetaPhinder.py:235-237 | Subjects s1, s2, s1 are counted as three hits on two subjects. |
| `Report.Round3Units` | MetaPhinder.py:220-221 | `round(x, 3)` in thousandths lies within half a unit of 1000 x. |
| `Report.Round3` | MetaPhinder.py:220-221 | `round(x, 3)` lies within 0.0005 of x. |
| `Report.Round3Monotone` | MetaPhinder.py:220-221 | Rounding keeps the order of its arguments. |
| `Report.Round3Exact` | MetaPhinder.py:220-221 | Rounding is idempotent on multiples of 0.001: a value that already has three decimals rounds to itself. |
| `Report.ThresholdCut` | MetaPhinder.py:271-281 | The rounded value exceeds 1.7 exactly when the exact value exceeds 1.7005. |
| `Report.Stored` | MetaPhinder.py:220-221 | The stored figures are the subject count and both fractions in percent, each within 0.0005 of the exact value. |
| `Report.Classify` | MetaPhinder.py:275-289 | A row keeps the id and size. It is "not processed" exactly when its figures are, and a row with zero figures is negative. |
| `Report.ClassifyPolicy` | MetaPhinder.py:271-289 | Below 500 bp a contig is not processed, even with hits. It is a phage exactly when it is long enough, has an entry and its identity in percent exceeds 1.7005. A long enough contig without an entry is negative with 0, 0, 0. |
| `Report.ClassifyMonotone` | MetaPhinder.py:280-283 | Raising a phage's genome identity keeps it a phage. |
| `Report.BuildReport` | MetaPhinder.py:273-289 | The loop returns exactly `ReportOf(ids, size, res)`. |
| `Report.OneRowPerId` | MetaPhinder.py:273-289 | When every id has a length, there is exactly one row per id, in order, each the classification of that id. |
| `Report.FailsOnFirstMissing` | MetaPhinder.py:275 | The report fails exactly when some id has no length, and it names the first such id. |
| `Report.FailedSticks` | MetaPhinder.py:273-275 | A failure on a prefix of the ids is the outcome of the whole report. |
| `Report.LeadingEmptyContigStopsReport` | MetaPhinder.py:275 | For a FASTA file of header, header, residues, the report stops at the first id, which has no length. |

## Left out

- Command-line parsing, the database and BLAST path handling, and the BLAST run itself (`os.system`). The BLAST output enters the model as a sequence of `Record` values.
- File reading and writing, `print` and the stderr messages. Lines enter as already-stripped strings, and the report is a sequence of `Row` values instead of text.
- Parsing numbers from text (`float`, `int` on BLAST fields). Fields are given as reals and integers.
- Floating point. Identities, fractions and products are exact reals. Round3 is round-half-to-even on the exact value. Python's `round` works on the binary double nearest to the decimal, so results can differ at exact ties.
- The text form of `res` (`str(round(...))` joined by tabs). Entries are `Score` values, and the report renders them with `Stored`.
- `Report.Round3Exact`: the model takes `float(str(round(x, 3)))` at lines 220 and 281 to return `round(x, 3)` itself. No text is stored or parsed, and the lemma proves only that rounding a value with three decimals changes nothing.
- `FastaIndex.GetContigSize`: blank lines crash the source at `l[0]`. The model requires non-blank lines (`NonBlank`) instead of modelling that crash.
- `HitStream.AggregateHits`: blank lines in the BLAST output crash the source at `l[0]`. The model requires well-formed records (`WellFormed`). An empty BLAST output makes the final check read an unbound `l`; the model returns `Failed(NoRecords)`.
- A contig header whose id is empty after stripping is modelled like any other id.
- The `count` variable of `main` is never read.
- The rows written before a KeyError stops the report are not part of the `Failed` outcome.
