/**
 * The report written at the end of main (MetaPhinder.py:267-289): one row
 * per contig id, in the order of the FASTA index, labelled "phage",
 * "negative" or "not processed".
 *
 * The scores in res are kept by the source as text holding the genome
 * identity and the merged coverage times 100, each rounded to three decimals
 * by Python's round, and the classification reads the first of them back.
 * Here rounding is Round3, round-half-to-even on exact reals.
 */
module Report {
  import HitStream
  import FastaIndex

  /** Contigs shorter than this are not classified. */
  const MinContigLength: int := 500

  /** A contig is a phage when its rounded genome identity, in percent, exceeds this. */
  const Threshold: real := 1.7

  // ---------------------------------------------------------------------------
  // round(x, 3)

  /** round(x, 3) in thousandths: the nearest integer to 1000 x, ties to the even one. */
  function Round3Units(x: real): (n: int)
    ensures -0.5 <= n as real - x * 1000.0 <= 0.5
  {
    var y := x * 1000.0;
    var f := y.Floor;
    var d := y - f as real;
    if d > 0.5 then f + 1
    else if d < 0.5 then f
    else if f % 2 == 0 then f
    else f + 1
  }

  function Round3(x: real): (r: real)
    ensures -0.0005 <= r - x <= 0.0005
  {
    Round3Units(x) as real / 1000.0
  }

  /** Rounding keeps the order of its arguments. */
  lemma Round3Monotone(x: real, y: real)
    requires x <= y
    ensures Round3Units(x) <= Round3Units(y)
    ensures Round3(x) <= Round3(y)
  {
    var fx, fy := (x * 1000.0).Floor, (y * 1000.0).Floor;
    assert fx <= fy;
  }

  /** A value with at most three decimals is its own rounding. */
  lemma Round3Exact(k: int)
    ensures Round3Units(k as real / 1000.0) == k
    ensures Round3(k as real / 1000.0) == k as real / 1000.0
  {
    var x := k as real / 1000.0;
    assert x * 1000.0 == k as real;
    assert (x * 1000.0).Floor == k;
  }

  /**
   * The threshold on the rounded value is a threshold on the exact value:
   * 1.7005 itself rounds to 1.7 (ties go to the even thousandth), anything
   * above it to at least 1.701.
   */
  lemma ThresholdCut(y: real)
    ensures Round3(y) > Threshold <==> y > 1.7005
  {
    var f := (y * 1000.0).Floor;
    var n := Round3Units(y);
    if y > 1.7005 {
      assert y * 1000.0 > 1700.5;
      assert n >= 1701;
    } else {
      assert y * 1000.0 <= 1700.5;
      assert f <= 1700;
      assert n <= 1700 by {
        if f == 1700 {
          assert f % 2 == 0;
        }
      }
    }
  }

  // ---------------------------------------------------------------------------
  // Rows

  datatype Label = Phage | Negative | NotProcessed

  /** The three middle columns of a row. */
  datatype Figures =
    | Unprocessed                                            // "not processed" in each column
    | Zeros                                                  // 0 0 0: no group was written for the contig
    | Reported(identityPct: real, coveragePct: real, hits: nat)

  datatype Row = Row(id: string, verdict: Label, figures: Figures, size: int)

  /** The score as the source stores it: both fractions in percent, rounded to three decimals. */
  function Stored(s: HitStream.Score): (f: Figures)
    ensures f.Reported? && f.hits == s.hits
    ensures -0.0005 <= f.identityPct - s.gId * 100.0 <= 0.0005
    ensures -0.0005 <= f.coveragePct - s.relMcov * 100.0 <= 0.0005
  {
    Reported(Round3(s.gId * 100.0), Round3(s.relMcov * 100.0), s.hits)
  }

  /** The row of one contig of known length. */
  function Classify(id: string, size: int, res: map<string, HitStream.Score>): (row: Row)
    ensures row.id == id && row.size == size
    ensures row.verdict == NotProcessed <==> row.figures == Unprocessed
    ensures row.figures == Zeros ==> row.verdict == Negative
  {
    if size < MinContigLength then Row(id, NotProcessed, Unprocessed, size)
    else if id in res then
      var figures := Stored(res[id]);
      Row(id, if figures.identityPct > Threshold then Phage else Negative, figures, size)
    else Row(id, Negative, Zeros, size)
  }

  /**
   * The classification policy: short contigs are not processed whatever
   * their hits; a contig is a phage exactly when it has a score whose genome
   * identity in percent exceeds 1.7005; a contig of sufficient length without
   * a score is negative with zero figures.
   */
  lemma ClassifyPolicy(id: string, size: int, res: map<string, HitStream.Score>)
    ensures Classify(id, size, res).verdict == NotProcessed <==> size < MinContigLength
    ensures Classify(id, size, res).verdict == Phage <==>
      size >= MinContigLength && id in res && res[id].gId * 100.0 > 1.7005
    ensures Classify(id, size, res).figures == Zeros <==> size >= MinContigLength && id !in res
    ensures size >= MinContigLength && id in res ==> Classify(id, size, res).figures == Stored(res[id])
  {
    if size >= MinContigLength && id in res {
      ThresholdCut(res[id].gId * 100.0);
    }
  }

  /** A better genome identity never turns a phage into a negative. */
  lemma ClassifyMonotone(id: string, size: int, res: map<string, HitStream.Score>, s: HitStream.Score)
    requires id in res && res[id].gId <= s.gId
    requires Classify(id, size, res).verdict == Phage
    ensures Classify(id, size, res[id := s]).verdict == Phage
  {
    ClassifyPolicy(id, size, res);
    ClassifyPolicy(id, size, res[id := s]);
  }

  // ---------------------------------------------------------------------------
  // The report

  datatype Outcome =
    | Written(rows: seq<Row>)
    | Failed(missing: string)   // size[i] raises KeyError: the id has no recorded length

  /** The rows written for ids, or the first id without a recorded length. */
  function ReportOf(ids: seq<string>, size: map<string, int>, res: map<string, HitStream.Score>): Outcome
  {
    if ids == [] then Written([])
    else
      var prev := ReportOf(ids[..|ids| - 1], size, res);
      var id := ids[|ids| - 1];
      if prev.Failed? then prev
      else if id !in size then Failed(id)
      else Written(prev.rows + [Classify(id, size[id], res)])
  }

  /** The classification loop of main. */
  method BuildReport(ids: seq<string>, size: map<string, int>, res: map<string, HitStream.Score>)
    returns (out: Outcome)
    ensures out == ReportOf(ids, size, res)
  {
    var rows: seq<Row> := [];
    var i := 0;
    while i < |ids|
      invariant 0 <= i <= |ids|
      invariant ReportOf(ids[..i], size, res) == Written(rows)
    {
      assert ids[..i + 1][..i] == ids[..i];
      var id := ids[i];
      if id !in size {
        out := Failed(id);
        FailedSticks(ids, i + 1, size, res);
        return;
      }
      rows := rows + [Classify(id, size[id], res)];
      i := i + 1;
    }
    assert ids[..i] == ids;
    out := Written(rows);
  }

  /** Once the report has failed on a prefix, it fails the same way on the whole list. */
  lemma {:induction false} FailedSticks(ids: seq<string>, i: int, size: map<string, int>, res: map<string, HitStream.Score>)
    requires 0 <= i <= |ids| && ReportOf(ids[..i], size, res).Failed?
    ensures ReportOf(ids, size, res) == ReportOf(ids[..i], size, res)
    decreases |ids| - i
  {
    if i < |ids| {
      assert ids[..i + 1][..i] == ids[..i];
      FailedSticks(ids, i + 1, size, res);
    } else {
      assert ids[..i] == ids;
    }
  }

  /**
   * When every id has a length, the report has exactly one row per id, in
   * order, each the classification of that id.
   */
  lemma {:induction false} OneRowPerId(ids: seq<string>, size: map<string, int>, res: map<string, HitStream.Score>)
    requires forall k :: 0 <= k < |ids| ==> ids[k] in size
    ensures ReportOf(ids, size, res).Written?
    ensures |ReportOf(ids, size, res).rows| == |ids|
    ensures forall k :: 0 <= k < |ids| ==> ReportOf(ids, size, res).rows[k] == Classify(ids[k], size[ids[k]], res)
  {
    if ids != [] {
      var init := ids[..|ids| - 1];
      forall k | 0 <= k < |init| ensures init[k] in size {
        assert init[k] == ids[k];
      }
      OneRowPerId(init, size, res);
      var rows := ReportOf(ids, size, res).rows;
      forall k | 0 <= k < |ids| ensures rows[k] == Classify(ids[k], size[ids[k]], res) {
        if k < |init| {
          assert init[k] == ids[k];
        }
      }
    }
  }

  /** The report fails exactly when some id has no length, and then names the first such id. */
  lemma {:induction false} FailsOnFirstMissing(ids: seq<string>, size: map<string, int>, res: map<string, HitStream.Score>)
    ensures ReportOf(ids, size, res).Failed? <==> exists k :: 0 <= k < |ids| && ids[k] !in size
    ensures ReportOf(ids, size, res).Failed? ==>
      exists k :: 0 <= k < |ids| && ids[k] == ReportOf(ids, size, res).missing && ids[k] !in size &&
        forall j :: 0 <= j < k ==> ids[j] in size
  {
    if ids != [] {
      var init := ids[..|ids| - 1];
      FailsOnFirstMissing(init, size, res);
      if ReportOf(init, size, res).Failed? {
        var k :| 0 <= k < |init| && init[k] == ReportOf(init, size, res).missing && init[k] !in size &&
          forall j :: 0 <= j < k ==> init[j] in size;
        assert ids[k] == init[k];
        forall j | 0 <= j < k ensures ids[j] in size {
          assert ids[j] == init[j];
        }
      } else {
        forall j | 0 <= j < |init| ensures ids[j] in size {
          assert ids[j] == init[j];
        }
      }
    }
  }

  /**
   * A header before the first residue line is listed but has no length, so
   * the report stops at it: for h1, h2, r the first id is missing from size.
   */
  lemma LeadingEmptyContigStopsReport(h1: string, h2: string, r: string, ids: seq<string>, size: map<string, int>,
                                      res: map<string, HitStream.Score>)
    requires FastaIndex.IsHeader(h1) && FastaIndex.IsHeader(h2) && r != [] && !FastaIndex.IsHeader(r)
    requires FastaIndex.HeaderId(h1) != FastaIndex.HeaderId(h2)
    requires FastaIndex.ContigSizes([h1, h2, r]) == FastaIndex.Indexed(FastaIndex.Index(ids, size))
    ensures ReportOf(ids, size, res) == Failed(FastaIndex.HeaderId(h1))
  {
    FastaIndex.LeadingEmptyContigUnsized(h1, h2, r);
    assert ids[0] !in size;
    FailsOnFirstMissing(ids, size, res);
  }
}
