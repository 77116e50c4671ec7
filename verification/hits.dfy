/**
 * The BLAST tabular stream and its per-query aggregation (the parsing loop of
 * main). Records arrive already split into fields; comment lines are skipped.
 * After the first significant hit, adjacent records with the same query form
 * a group; when the query changes the pending group is scored and written
 * into res under its query id.
 */
module HitStream {
  import opened Coverage
  import opened Identity

  /** Hits with an e-value above this are not aggregated. */
  const EvalueCutoff: real := 0.05

  /** The fields of a tabular line that are read: 0, 1, 2, 3, 6, 7 and 10. */
  datatype Hit = Hit(query: string, subject: string, pid: real, alnLen: int, qStart: int, qEnd: int, evalue: real)

  datatype Record = Comment | Tabular(hit: Hit)

  /**
   * A tabular line is stripped and does not start with '#', so its first
   * field is non-empty and does not start with '#' either.
   */
  predicate WellFormed(records: seq<Record>)
  {
    forall i :: 0 <= i < |records| && records[i].Tabular? ==>
      records[i].hit.query != [] && records[i].hit.query[0] != '#'
  }

  predicate Significant(h: Hit)
  {
    h.evalue <= EvalueCutoff
  }

  /** The query span of a hit with its ends in increasing order. */
  function Normalise(h: Hit): (iv: Interval)
    ensures iv.lo <= iv.hi
    ensures multiset{iv.lo, iv.hi} == multiset{h.qStart, h.qEnd}
  {
    if h.qStart < h.qEnd then Interval(h.qStart, h.qEnd) else Interval(h.qEnd, h.qStart)
  }

  // ---------------------------------------------------------------------------
  // The significant hits of a group and what the accumulators hold for them

  function Sig(hs: seq<Hit>): (r: seq<Hit>)
    ensures |r| <= |hs|
    ensures forall k :: 0 <= k < |r| ==> Significant(r[k])
  {
    if hs == [] then []
    else Sig(hs[..|hs| - 1]) + (if Significant(hs[|hs| - 1]) then [hs[|hs| - 1]] else [])
  }

  /** A hit survives the filter exactly when it is significant. */
  lemma {:induction false} SigMembers(hs: seq<Hit>)
    ensures forall h :: h in Sig(hs) <==> h in hs && Significant(h)
  {
    if hs != [] {
      var init := hs[..|hs| - 1];
      SigMembers(init);
      assert hs == init + [hs[|hs| - 1]];
    }
  }

  /** The filter keeps the order of the hits: it distributes over concatenation. */
  lemma {:induction false} SigConcat(a: seq<Hit>, b: seq<Hit>)
    ensures Sig(a + b) == Sig(a) + Sig(b)
  {
    if b != [] {
      var init := b[..|b| - 1];
      SigConcat(a, init);
      assert (a + b)[..|a + b| - 1] == a + init;
    } else {
      assert a + b == a;
    }
  }

  function Pids(hs: seq<Hit>): (r: seq<real>)
    ensures |r| == |hs|
  {
    if hs == [] then [] else Pids(hs[..|hs| - 1]) + [hs[|hs| - 1].pid]
  }

  function Lens(hs: seq<Hit>): (r: seq<int>)
    ensures |r| == |hs|
  {
    if hs == [] then [] else Lens(hs[..|hs| - 1]) + [hs[|hs| - 1].alnLen]
  }

  function Spans(hs: seq<Hit>): (r: seq<Interval>)
    ensures |r| == |hs| && Normalised(r)
  {
    if hs == [] then [] else Spans(hs[..|hs| - 1]) + [Normalise(hs[|hs| - 1])]
  }

  /** s_id: the subject of the last significant hit, "" before any. */
  function LastSubject(hs: seq<Hit>): string
  {
    if hs == [] then "" else hs[|hs| - 1].subject
  }

  /** n_s_id: how often the subject differs from that of the previous hit ("" before the first). */
  function SubjectCount(hs: seq<Hit>): nat
  {
    if hs == [] then 0
    else SubjectCount(hs[..|hs| - 1]) + (if hs[|hs| - 1].subject != LastSubject(hs[..|hs| - 1]) then 1 else 0)
  }

  // ---------------------------------------------------------------------------
  // Scores

  /**
   * One entry of res: the genome identity g_id = a_id * rel_mcov, the
   * relative merged coverage rel_mcov and the subject count n_s_id. The
   * source stores them as text with both fractions times 100 rounded to 3
   * decimals; that rendering belongs to the report.
   */
  datatype Score = Score(gId: real, relMcov: real, hits: nat)

  /** The entry written for accumulated identities, lengths, spans and subject count. */
  function Summary(pId: seq<real>, alnL: seq<int>, positions: seq<Interval>, n: nat, gsize: int): Score
    requires |pId| == |alnL| && Normalised(positions) && gsize > 0
  {
    Combine(ANI(pId, alnL), RelMcov(positions, gsize), n)
  }

  /** The genome identity is the mean identity scaled by the coverage fraction. */
  function Combine(aId: real, relMcov: real, n: nat): Score
  {
    Score(aId * relMcov, relMcov, n)
  }

  /**
   * With identities in [0, 100], positive lengths and spans inside the
   * contig, the genome identity lies in [0, 1) and never exceeds the merged
   * coverage.
   */
  lemma SummaryBounds(pId: seq<real>, alnL: seq<int>, positions: seq<Interval>, n: nat, gsize: int)
    requires |pId| == |alnL| && Normalised(positions) && gsize > 0
    requires forall p :: p in positions ==> 1 <= p.lo && p.hi <= gsize
    requires forall i :: 0 <= i < |pId| ==> 0.0 <= pId[i] <= 100.0 && alnL[i] > 0
    ensures var s := Summary(pId, alnL, positions, n, gsize); 0.0 <= s.gId <= s.relMcov < 1.0
  {
    FractionsBounded(pId, alnL, positions, gsize);
    CombineBounds(ANI(pId, alnL), RelMcov(positions, gsize), n);
  }

  lemma FractionsBounded(pId: seq<real>, alnL: seq<int>, positions: seq<Interval>, gsize: int)
    requires |pId| == |alnL| && Normalised(positions) && gsize > 0
    requires forall p :: p in positions ==> 1 <= p.lo && p.hi <= gsize
    requires forall i :: 0 <= i < |pId| ==> 0.0 <= pId[i] <= 100.0 && alnL[i] > 0
    ensures 0.0 <= RelMcov(positions, gsize) < 1.0
    ensures 0.0 <= ANI(pId, alnL) <= 1.0
  {
    RelMcovBounded(positions, gsize);
    if pId != [] {
      ANIIsWeightedMean(pId, alnL, 0.0, 100.0);
    } else {
      ANIEmptyAndSingle(0.0, 1);
    }
  }

  /** Multiplying the coverage by an identity fraction in [0, 1] gives a genome identity in [0, coverage]. */
  lemma CombineBounds(a: real, c: real, n: nat)
    requires 0.0 <= a <= 1.0 && 0.0 <= c < 1.0
    ensures var s := Combine(a, c, n); 0.0 <= s.gId <= s.relMcov < 1.0
  {
    assert a * c <= 1.0 * c;
  }

  /**
   * The genome identity of a group grows with its weighted identity and with
   * its merged coverage: a_id * rel_mcov is monotone in both factors.
   */
  lemma ScoreMonotone(pId1: seq<real>, alnL1: seq<int>, pos1: seq<Interval>,
                      pId2: seq<real>, alnL2: seq<int>, pos2: seq<Interval>, n: nat, gsize: int)
    requires |pId1| == |alnL1| && |pId2| == |alnL2| && Normalised(pos1) && Normalised(pos2) && gsize > 0
    requires 0.0 <= ANI(pId1, alnL1) <= ANI(pId2, alnL2)
    requires 0.0 <= RelMcov(pos1, gsize) <= RelMcov(pos2, gsize)
    ensures Summary(pId1, alnL1, pos1, n, gsize).gId <= Summary(pId2, alnL2, pos2, n, gsize).gId
  {
    CombineMonotone(ANI(pId1, alnL1), RelMcov(pos1, gsize), ANI(pId2, alnL2), RelMcov(pos2, gsize), n);
  }

  /** The combined genome identity is monotone in the identity fraction and in the coverage. */
  lemma CombineMonotone(a1: real, c1: real, a2: real, c2: real, n: nat)
    requires 0.0 <= a1 <= a2 && 0.0 <= c1 <= c2
    ensures Combine(a1, c1, n).gId <= Combine(a2, c2, n).gId
  {
    assert a1 * c1 <= a2 * c1;
    assert a2 * c1 <= a2 * c2;
  }

  /** A query id and its records, from the group's first record up to the next query change. */
  datatype Group = Group(query: string, hits: seq<Hit>)

  /** The entry written for a group: its significant hits, summarised. */
  function GroupScore(g: Group, gsize: int): Score
    requires gsize > 0
  {
    var sig := Sig(g.hits);
    Summary(Pids(sig), Lens(sig), Spans(sig), SubjectCount(sig), gsize)
  }

  /** Scores the accumulated hits of one group (the flush at a query change and after the loop). */
  method ScoreGroup(pId: seq<real>, alnL: seq<int>, positions: seq<Interval>, nSId: nat, gsize: int)
    returns (score: Score)
    requires |pId| == |alnL| && Normalised(positions) && gsize > 0
    ensures score == Summary(pId, alnL, positions, nSId, gsize)
  {
    var aId := CalcAId(pId, alnL);
    var relMcov := CalcRelMcov(positions, gsize);
    var gId := aId * relMcov;
    score := Score(gId, relMcov, nSId);
  }

  /**
   * Writes the score of the accumulated group into res under oldId; a
   * missing size is a KeyError and a zero size a division by zero.
   */
  method FlushGroup(res: map<string, Score>, oldId: string, pId: seq<real>, alnL: seq<int>,
                    positions: seq<Interval>, nSId: nat, size: map<string, int>) returns (out: Outcome)
    requires |pId| == |alnL| && Normalised(positions) && NonNegative(size)
    ensures out ==
      if oldId !in size then Failed(UnknownQuery(oldId))
      else if size[oldId] == 0 then Failed(ZeroLength(oldId))
      else Scored(res[oldId := Summary(pId, alnL, positions, nSId, size[oldId])])
  {
    if oldId !in size {
      return Failed(UnknownQuery(oldId));
    }
    if size[oldId] == 0 {
      return Failed(ZeroLength(oldId));
    }
    var score := ScoreGroup(pId, alnL, positions, nSId, size[oldId]);
    out := Scored(res[oldId := score]);
  }

  // ---------------------------------------------------------------------------
  // Grouping

  /**
   * The groups of a record stream. Comments are skipped; tabular records
   * before the first significant hit are ignored; after it, a record with
   * the query of the last group joins it and any other record opens a new
   * group, significant or not.
   */
  function Groups(records: seq<Record>): seq<Group>
  {
    if records == [] then [] else Extend(Groups(records[..|records| - 1]), records[|records| - 1])
  }

  /** How one record changes the groups. */
  function Extend(gs: seq<Group>, r: Record): seq<Group>
  {
    match r
    case Comment => gs
    case Tabular(h) =>
      if gs == [] then (if Significant(h) then [Group(h.query, [h])] else [])
      else if gs[|gs| - 1].query == h.query then gs[..|gs| - 1] + [Group(h.query, gs[|gs| - 1].hits + [h])]
      else gs + [Group(h.query, [h])]
  }

  lemma GroupsAt(records: seq<Record>, i: int)
    requires 0 <= i < |records|
    ensures Groups(records[..i + 1]) == Extend(Groups(records[..i]), records[i])
  {
    assert records[..i + 1][..i] == records[..i];
  }

  /** The groups that are written into res: the last one only when the stream ends with a comment. */
  function Flushed(records: seq<Record>): seq<Group>
  {
    var gs := Groups(records);
    if gs == [] then []
    else if records[|records| - 1] == Comment then gs
    else gs[..|gs| - 1]
  }

  /** Why the aggregation stops. */
  datatype Failure =
    | NoRecords             // an empty stream: the final check reads l, which was never bound
    | UnknownQuery(id: string) // size[old_id] is missing
    | ZeroLength(id: string)   // size[old_id] is 0, a division by zero

  datatype Outcome = Scored(res: map<string, Score>) | Failed(failure: Failure)

  predicate NonNegative(size: map<string, int>)
  {
    forall k :: k in size ==> size[k] >= 0
  }

  /** Writes the groups into res in order, stopping at the first one whose size is missing or zero. */
  function Collect(gs: seq<Group>, size: map<string, int>): Outcome
    requires NonNegative(size)
  {
    if gs == [] then Scored(map[])
    else
      var prev := Collect(gs[..|gs| - 1], size);
      var g := gs[|gs| - 1];
      if prev.Failed? then prev
      else if g.query !in size then Failed(UnknownQuery(g.query))
      else if size[g.query] == 0 then Failed(ZeroLength(g.query))
      else Scored(prev.res[g.query := GroupScore(g, size[g.query])])
  }

  /** What the parsing loop of main leaves in res, or why it stops. */
  function Scores(records: seq<Record>, size: map<string, int>): Outcome
    requires NonNegative(size)
  {
    if records == [] then Failed(NoRecords) else Collect(Flushed(records), size)
  }

  // ---------------------------------------------------------------------------
  // The parsing loop

  /** The accumulators hold the significant hits of the group g. */
  ghost predicate Holds(g: Group, pId: seq<real>, alnL: seq<int>, positions: seq<Interval>, sId: string, nSId: nat)
  {
    var sig := Sig(g.hits);
    && pId == Pids(sig) && alnL == Lens(sig) && positions == Spans(sig)
    && sId == LastSubject(sig) && nSId == SubjectCount(sig)
  }

  /** The loop state after the records p: res holds the closed groups, the accumulators the open one. */
  ghost predicate Accumulated(gs: seq<Group>, size: map<string, int>, res: map<string, Score>, oldId: string,
                              pId: seq<real>, alnL: seq<int>, positions: seq<Interval>, sId: string, nSId: nat)
    requires NonNegative(size)
  {
    if gs == [] then
      oldId == "" && pId == [] && alnL == [] && positions == [] && sId == "" && nSId == 0 && res == map[]
    else
      && oldId == gs[|gs| - 1].query && oldId != "" && oldId[0] != '#'
      && Holds(gs[|gs| - 1], pId, alnL, positions, sId, nSId)
      && Collect(gs[..|gs| - 1], size) == Scored(res)
  }

  /** The first field of a record as the final check sees it: l[0] is '#' for a comment line. */
  function FirstField(r: Record): string
  {
    match r
    case Comment => "#"
    case Tabular(h) => h.query
  }

  /** Reads the records once, flushing the accumulated group whenever the query changes. */
  method AggregateHits(records: seq<Record>, size: map<string, int>) returns (out: Outcome)
    requires WellFormed(records) && NonNegative(size)
    ensures out == Scores(records, size)
  {
    var res: map<string, Score> := map[];
    var pId: seq<real> := [];
    var alnL: seq<int> := [];
    var positions: seq<Interval> := [];
    var oldId := "";
    var sId := "";
    var nSId: nat := 0;
    ghost var groups: seq<Group> := [];
    for i := 0 to |records|
      invariant groups == Groups(records[..i])
      invariant Accumulated(groups, size, res, oldId, pId, alnL, positions, sId, nSId)
    {
      GroupsAt(records, i);
      match records[i]
      case Comment =>
      case Tabular(h) =>
        ghost var gs := groups;
        ghost var closed: seq<Group> := if gs == [] then [] else gs[..|gs| - 1];
        ghost var open := if gs == [] then Group(h.query, []) else gs[|gs| - 1];
        if oldId != h.query && oldId != "" {
          Flush(gs, size, res, pId, alnL, positions, sId, nSId);
          var flushed := FlushGroup(res, oldId, pId, alnL, positions, nSId, size);
          if flushed.Failed? {
            FailureSticks(records, i, size);
            return flushed;
          }
          res := flushed.res;
          pId, alnL, positions := [], [], [];
          oldId := h.query;
          sId := "";
          nSId := 0;
          closed, open := gs, Group(h.query, []);
        }
        pId, alnL, positions, sId, nSId := AddHit(open, h, pId, alnL, positions, sId, nSId);
        if Significant(h) {
          oldId := h.query;
        }
        if gs != [] || Significant(h) {
          Reopen(closed, open, h, size, res, pId, alnL, positions, sId, nSId);
          groups := closed + [Group(h.query, open.hits + [h])];
        }
    }
    if records == [] {
      return Failed(NoRecords);
    }
    assert records[..|records|] == records;
    ScoresAtEnd(records, groups, size, res, oldId, pId, alnL, positions, sId, nSId);
    if oldId != FirstField(records[|records| - 1]) && oldId != "" {
      out := FlushGroup(res, oldId, pId, alnL, positions, nSId, size);
    } else {
      out := Scored(res);
    }
  }

  /** The state after a record that joins or opens the last group. */
  lemma Reopen(closed: seq<Group>, open: Group, h: Hit, size: map<string, int>, res: map<string, Score>,
               pId: seq<real>, alnL: seq<int>, positions: seq<Interval>, sId: string, nSId: nat)
    requires NonNegative(size) && Collect(closed, size) == Scored(res)
    requires h.query != "" && h.query[0] != '#'
    requires Holds(Group(h.query, open.hits + [h]), pId, alnL, positions, sId, nSId)
    ensures Accumulated(closed + [Group(h.query, open.hits + [h])], size, res, h.query, pId, alnL, positions, sId, nSId)
  {
    var gs := closed + [Group(h.query, open.hits + [h])];
    assert gs[..|gs| - 1] == closed;
  }

  /** Flushing the open group: it fails on a missing or zero size, else its score is written. */
  lemma Flush(gs: seq<Group>, size: map<string, int>, res: map<string, Score>,
              pId: seq<real>, alnL: seq<int>, positions: seq<Interval>, sId: string, nSId: nat)
    requires NonNegative(size) && gs != []
    requires Collect(gs[..|gs| - 1], size) == Scored(res)
    requires Holds(gs[|gs| - 1], pId, alnL, positions, sId, nSId)
    ensures var q := gs[|gs| - 1].query;
      Collect(gs, size) ==
        if q !in size then Failed(UnknownQuery(q))
        else if size[q] == 0 then Failed(ZeroLength(q))
        else Scored(res[q := Summary(pId, alnL, positions, nSId, size[q])])
  {
  }

  /** After the last record: the open group is written only when the last first field is not its query. */
  lemma ScoresAtEnd(records: seq<Record>, gs: seq<Group>, size: map<string, int>, res: map<string, Score>,
                    oldId: string, pId: seq<real>, alnL: seq<int>, positions: seq<Interval>, sId: string, nSId: nat)
    requires NonNegative(size) && records != [] && gs == Groups(records)
    requires Accumulated(gs, size, res, oldId, pId, alnL, positions, sId, nSId)
    ensures |pId| == |alnL| && Normalised(positions)
    ensures oldId != FirstField(records[|records| - 1]) && oldId != "" ==>
      Scores(records, size) ==
        if oldId !in size then Failed(UnknownQuery(oldId))
        else if size[oldId] == 0 then Failed(ZeroLength(oldId))
        else Scored(res[oldId := Summary(pId, alnL, positions, nSId, size[oldId])])
    ensures !(oldId != FirstField(records[|records| - 1]) && oldId != "") ==> Scores(records, size) == Scored(res)
  {
    var r := records[|records| - 1];
    if gs != [] {
      if r.Tabular? {
        LastGroupQuery(records);
      }
      Flush(gs, size, res, pId, alnL, positions, sId, nSId);
    }
  }

  /** A stream ending in a tabular record ends in a group of that record's query, if in any group. */
  lemma LastGroupQuery(records: seq<Record>)
    requires records != [] && records[|records| - 1].Tabular?
    ensures var gs := Groups(records);
      gs != [] ==> gs[|gs| - 1].query == records[|records| - 1].hit.query
  {
    assert Groups(records) == Extend(Groups(records[..|records| - 1]), records[|records| - 1]);
  }

  /**
   * The e-value test and the accumulation of a significant hit: its identity,
   * length and normalised span are appended, and the subject count rises when
   * its subject differs from the previous one.
   */
  method AddHit(ghost g: Group, h: Hit, pId: seq<real>, alnL: seq<int>, positions: seq<Interval>, sId: string, nSId: nat)
    returns (pId': seq<real>, alnL': seq<int>, positions': seq<Interval>, sId': string, nSId': nat)
    requires Holds(g, pId, alnL, positions, sId, nSId)
    ensures Holds(Group(g.query, g.hits + [h]), pId', alnL', positions', sId', nSId')
    ensures !Significant(h) ==> pId' == pId && alnL' == alnL && positions' == positions && sId' == sId && nSId' == nSId
  {
    pId', alnL', positions', sId', nSId' := pId, alnL, positions, sId, nSId;
    var hs := g.hits + [h];
    assert hs[..|hs| - 1] == g.hits;
    if h.evalue <= EvalueCutoff {
      if sId != h.subject {
        sId' := h.subject;
        nSId' := nSId + 1;
      }
      pId' := pId + [h.pid];
      alnL' := alnL + [h.alnLen];
      positions' := positions + [Normalise(h)];
      ghost var sig := Sig(hs);
      assert sig == Sig(g.hits) + [h];
      assert sig[..|sig| - 1] == Sig(g.hits);
    } else {
      assert Sig(hs) == Sig(g.hits);
    }
  }

  /** The groups closed by a prefix of the stream. */
  function Closed(records: seq<Record>): seq<Group>
  {
    var gs := Groups(records);
    if gs == [] then [] else gs[..|gs| - 1]
  }

  lemma ClosedSnoc(p: seq<Record>, r: Record)
    ensures Closed(p) <= Closed(p + [r])
  {
    var q := p + [r];
    assert q[..|q| - 1] == p;
    var gs := Groups(p);
    if gs != [] {
      assert gs[..|gs| - 1] == (gs[..|gs| - 1] + [gs[|gs| - 1]])[..|gs| - 1];
    }
  }

  lemma {:induction false} ClosedGrows(records: seq<Record>, i: int)
    requires 0 <= i <= |records|
    ensures Closed(records[..i]) <= Closed(records)
    decreases |records| - i
  {
    if i < |records| {
      ClosedSnoc(records[..i], records[i]);
      assert records[..i] + [records[i]] == records[..i + 1];
      ClosedGrows(records, i + 1);
    } else {
      assert records[..i] == records;
    }
  }

  /** Once a group fails, no later group is written. */
  lemma {:induction false} CollectFailureSticks(xs: seq<Group>, ys: seq<Group>, size: map<string, int>)
    requires NonNegative(size) && xs <= ys && Collect(xs, size).Failed?
    ensures Collect(ys, size) == Collect(xs, size)
    decreases |ys|
  {
    if |ys| > |xs| {
      assert xs <= ys[..|ys| - 1];
      CollectFailureSticks(xs, ys[..|ys| - 1], size);
    } else {
      assert xs == ys;
    }
  }

  /** A record with a new query closes the open group. */
  lemma ClosedByNewQuery(p: seq<Record>, h: Hit)
    requires var gs := Groups(p); gs != [] && gs[|gs| - 1].query != h.query
    ensures Closed(p + [Tabular(h)]) == Groups(p)
  {
    var q := p + [Tabular(h)];
    assert q[..|q| - 1] == p;
    assert Groups(q) == Groups(p) + [Group(h.query, [h])];
  }

  lemma ClosedFlushed(records: seq<Record>)
    ensures Closed(records) <= Flushed(records)
  {
  }

  /** A failing flush inside the loop decides the outcome of the whole stream. */
  lemma FailureSticks(records: seq<Record>, i: int, size: map<string, int>)
    requires NonNegative(size) && 0 <= i < |records| && records[i].Tabular?
    requires var gs := Groups(records[..i]);
      gs != [] && gs[|gs| - 1].query != records[i].hit.query && Collect(gs, size).Failed?
    ensures Scores(records, size) == Collect(Groups(records[..i]), size)
  {
    var gs := Groups(records[..i]);
    assert Closed(records[..i + 1]) == gs by {
      assert records[..i + 1] == records[..i] + [Tabular(records[i].hit)];
      ClosedByNewQuery(records[..i], records[i].hit);
    }
    assert gs <= Flushed(records) by {
      ClosedGrows(records, i + 1);
      ClosedFlushed(records);
    }
    CollectFailureSticks(gs, Flushed(records), size);
  }

  // ---------------------------------------------------------------------------
  // Facts about the grouping

  /** The hits of the tabular records, in order. */
  function Tab(records: seq<Record>): seq<Hit>
  {
    if records == [] then []
    else Tab(records[..|records| - 1]) + match records[|records| - 1] case Comment => [] case Tabular(h) => [h]
  }

  /** The hits from the first significant one on: old_id stays "" until a hit passes the e-value test. */
  function Active(hs: seq<Hit>): (r: seq<Hit>)
    ensures |r| <= |hs| && r == hs[|hs| - |r|..]
  {
    if hs == [] || Significant(hs[0]) then hs else Active(hs[1..])
  }

  function Flatten(gs: seq<Group>): seq<Hit>
  {
    if gs == [] then [] else Flatten(gs[..|gs| - 1]) + gs[|gs| - 1].hits
  }

  /** The groups cut the active hits into maximal runs of one query. */
  predicate Runs(gs: seq<Group>)
  {
    && (forall k :: 0 <= k < |gs| ==> gs[k].hits != [])
    && (forall k, h :: 0 <= k < |gs| && h in gs[k].hits ==> h.query == gs[k].query)
    && (forall k :: 0 < k < |gs| ==> gs[k - 1].query != gs[k].query)
  }

  lemma {:induction false} ActiveSnoc(hs: seq<Hit>, h: Hit)
    ensures Active(hs + [h]) == if Active(hs) == [] then (if Significant(h) then [h] else []) else Active(hs) + [h]
  {
    if hs == [] {
    } else {
      assert (hs + [h])[1..] == hs[1..] + [h];
      if !Significant(hs[0]) {
        ActiveSnoc(hs[1..], h);
      }
    }
  }

  /**
   * The groups partition the active hits: concatenated they give back every
   * tabular hit from the first significant one on.
   */
  lemma {:induction false} GroupsFlatten(records: seq<Record>)
    ensures Flatten(Groups(records)) == Active(Tab(records))
  {
    if records != [] {
      var p, r := records[..|records| - 1], records[|records| - 1];
      GroupsFlatten(p);
      match r
      case Comment =>
        assert Tab(records) == Tab(p);
      case Tabular(h) =>
        ActiveSnoc(Tab(p), h);
        GroupsRuns(p);
        FlattenExtend(Groups(p), h);
    }
  }

  /** One more tabular hit extends the flattened groups exactly as it extends the active hits. */
  lemma FlattenExtend(gs: seq<Group>, h: Hit)
    requires Runs(gs)
    ensures Flatten(Extend(gs, Tabular(h))) ==
      if Flatten(gs) == [] then (if Significant(h) then [h] else []) else Flatten(gs) + [h]
  {
    if gs == [] {
      var ns := [Group(h.query, [h])];
      assert ns[..0] == [];
    } else {
      var init, last := gs[..|gs| - 1], gs[|gs| - 1];
      assert last.hits != [];
      if last.query == h.query {
        var ms := init + [Group(h.query, last.hits + [h])];
        assert ms[..|ms| - 1] == init;
      } else {
        var ns := gs + [Group(h.query, [h])];
        assert ns[..|ns| - 1] == gs;
      }
    }
  }

  /** Each group is a non-empty run of one query, and neighbouring groups have different queries. */
  lemma {:induction false} GroupsRuns(records: seq<Record>)
    ensures Runs(Groups(records))
  {
    if records != [] {
      var p, r := records[..|records| - 1], records[|records| - 1];
      GroupsRuns(p);
      RunsExtend(Groups(p), r);
    }
  }

  lemma RunsExtend(gs: seq<Group>, r: Record)
    requires Runs(gs)
    ensures Runs(Extend(gs, r))
  {
    if r.Tabular? && gs != [] && gs[|gs| - 1].query == r.hit.query {
      var h := r.hit;
      var ns := gs[..|gs| - 1] + [Group(h.query, gs[|gs| - 1].hits + [h])];
      forall k, x | 0 <= k < |ns| && x in ns[k].hits ensures x.query == ns[k].query {
        if k < |gs| - 1 { assert ns[k] == gs[k]; }
      }
      forall k | 0 < k < |ns| ensures ns[k - 1].query != ns[k].query {
        assert ns[k - 1] == gs[k - 1];
        if k < |gs| - 1 { assert ns[k] == gs[k]; }
      }
    }
  }

  /** Without a trailing comment the open group is lost; a comment line after it writes it. */
  lemma TrailingCommentFlushes(records: seq<Record>)
    requires records != [] && records[|records| - 1].Tabular?
    ensures var gs := Groups(records);
      && Flushed(records) == (if gs == [] then [] else gs[..|gs| - 1])
      && Flushed(records + [Comment]) == gs
  {
    assert (records + [Comment])[..|records|] == records;
  }

  /** No significant hit anywhere: nothing is written. */
  lemma NoSignificantHits(records: seq<Record>, size: map<string, int>)
    requires NonNegative(size) && records != []
    requires forall i :: 0 <= i < |records| && records[i].Tabular? ==> !Significant(records[i].hit)
    ensures Scores(records, size) == Scored(map[])
  {
    NoSignificantNoGroups(records);
  }

  lemma {:induction false} NoSignificantNoGroups(records: seq<Record>)
    requires forall i :: 0 <= i < |records| && records[i].Tabular? ==> !Significant(records[i].hit)
    ensures Groups(records) == []
  {
    if records != [] {
      var p := records[..|records| - 1];
      assert forall i :: 0 <= i < |p| ==> p[i] == records[i];
      NoSignificantNoGroups(p);
    }
  }

  // ---------------------------------------------------------------------------
  // Facts about res

  /** When nothing fails, res has exactly the group queries as keys. */
  lemma {:induction false} CollectKeys(gs: seq<Group>, size: map<string, int>, res: map<string, Score>)
    requires NonNegative(size) && Collect(gs, size) == Scored(res)
    ensures forall q :: q in res <==> exists k :: 0 <= k < |gs| && gs[k].query == q
  {
    if gs != [] {
      var prev := CollectStep(gs, size, res);
      CollectKeys(gs[..|gs| - 1], size, prev);
      KeysSnoc(gs, gs[..|gs| - 1], prev.Keys, res.Keys);
    }
  }

  /** Adding the last group's query to the key set of the prefix gives the key set of the whole list. */
  lemma KeysSnoc(gs: seq<Group>, init: seq<Group>, prevKeys: set<string>, keys: set<string>)
    requires gs != [] && init == gs[..|gs| - 1]
    requires forall q :: q in prevKeys <==> exists k :: 0 <= k < |init| && init[k].query == q
    requires keys == prevKeys + {gs[|gs| - 1].query}
    ensures forall q :: q in keys <==> exists k :: 0 <= k < |gs| && gs[k].query == q
  {
    forall q ensures q in keys <==> exists k :: 0 <= k < |gs| && gs[k].query == q {
      if q in prevKeys {
        var k :| 0 <= k < |init| && init[k].query == q;
        assert gs[k] == init[k];
      }
      if exists k :: 0 <= k < |gs| && gs[k].query == q {
        var k :| 0 <= k < |gs| && gs[k].query == q;
        if k < |init| { assert init[k] == gs[k]; }
      }
    }
  }

  /** When nothing fails, every group's query has a positive size. */
  lemma {:induction false} CollectSizes(gs: seq<Group>, size: map<string, int>, res: map<string, Score>)
    requires NonNegative(size) && Collect(gs, size) == Scored(res)
    ensures forall k :: 0 <= k < |gs| ==> gs[k].query in size && size[gs[k].query] > 0
  {
    if gs != [] {
      var init := gs[..|gs| - 1];
      var prev := CollectStep(gs, size, res);
      CollectSizes(init, size, prev);
      forall k | 0 <= k < |init| ensures gs[k].query in size && size[gs[k].query] > 0 {
        assert init[k] == gs[k];
      }
    }
  }

  /** A successful fold over a non-empty list succeeded on its prefix and added the last query. */
  lemma CollectStep(gs: seq<Group>, size: map<string, int>, res: map<string, Score>) returns (prev: map<string, Score>)
    requires NonNegative(size) && gs != [] && Collect(gs, size) == Scored(res)
    ensures Collect(gs[..|gs| - 1], size) == Scored(prev)
    ensures gs[|gs| - 1].query in size && size[gs[|gs| - 1].query] > 0
    ensures res.Keys == prev.Keys + {gs[|gs| - 1].query}
  {
    prev := Collect(gs[..|gs| - 1], size).res;
  }

  /** Each key holds the score of the LAST group with that query: a later group overwrites an earlier one. */
  lemma {:induction false} CollectLastWins(gs: seq<Group>, size: map<string, int>, res: map<string, Score>, k: int)
    requires NonNegative(size) && Collect(gs, size) == Scored(res)
    requires 0 <= k < |gs| && forall j :: k < j < |gs| ==> gs[j].query != gs[k].query
    ensures gs[k].query in size && size[gs[k].query] > 0
    ensures gs[k].query in res && res[gs[k].query] == GroupScore(gs[k], size[gs[k].query])
  {
    var init := gs[..|gs| - 1];
    var prev := Collect(init, size);
    if k < |init| {
      assert init[k] == gs[k];
      forall j | k < j < |init| ensures init[j].query != init[k].query {
        assert init[j] == gs[j];
      }
      CollectLastWins(init, size, prev.res, k);
    }
  }

  /** A group without a significant hit is written as zero score, zero coverage and no subjects. */
  lemma InsignificantGroupScoresZero(g: Group, gsize: int)
    requires gsize > 0
    requires forall h :: h in g.hits ==> !Significant(h)
    ensures GroupScore(g, gsize) == Score(0.0, 0.0, 0)
  {
    SigNone(g.hits);
  }

  lemma {:induction false} SigNone(hs: seq<Hit>)
    requires forall h :: h in hs ==> !Significant(h)
    ensures Sig(hs) == []
  {
    if hs != [] {
      SigNone(hs[..|hs| - 1]);
    }
  }

  /** The non-empty subjects among the hits. */
  function Subjects(hs: seq<Hit>): set<string>
  {
    if hs == [] then {}
    else Subjects(hs[..|hs| - 1]) + (if hs[|hs| - 1].subject != "" then {hs[|hs| - 1].subject} else {})
  }

  /**
   * Counting subject changes never counts fewer subjects than there are
   * distinct non-empty ones, nor more than there are hits.
   */
  lemma {:induction false} SubjectCountBounds(hs: seq<Hit>)
    ensures |Subjects(hs)| <= SubjectCount(hs) <= |hs|
    ensures hs != [] ==> LastSubject(hs) == "" || LastSubject(hs) in Subjects(hs)
  {
    if hs != [] {
      var init, h := hs[..|hs| - 1], hs[|hs| - 1];
      SubjectCountBounds(init);
      if h.subject != "" && h.subject !in Subjects(init) {
        assert h.subject != LastSubject(init);
      }
    }
  }

  /** Subject s1 again after s2 is counted twice: three hits on two subjects count as three. */
  lemma SubjectCountRevisit(a: Hit, b: Hit, c: Hit)
    requires a.subject == c.subject != b.subject && a.subject != "" && b.subject != ""
    ensures SubjectCount([a, b, c]) == 3 && |Subjects([a, b, c])| == 2
  {
    assert [a, b, c][..2] == [a, b] && [a, b][..1] == [a] && [a][..0] == [];
    assert SubjectCount([a]) == 1 && Subjects([a]) == {a.subject};
    assert SubjectCount([a, b]) == 2 && Subjects([a, b]) == {a.subject, b.subject};
    assert LastSubject([a, b]) == b.subject;
    assert Subjects([a, b, c]) == {a.subject, b.subject};
  }
}
