/**
 * The online matcher: score the query's windows against every database row, average
 * the scores per song, rank the songs by descending average and decide between a
 * certain answer and a list of candidates.
 */
module Recognize {
  import opened Wrappers
  import opened Vectors
  import opened Segments
  import BuildDb

  /** Window length, in seconds. */
  const SEGMENT_DURATION: nat := 6
  /** Query windows (about 48 seconds). */
  const SEGMENT_COUNT: nat := 8
  /** Lowest averaged score of a certain answer (inclusive). */
  const CONFIDENCE_THRESHOLD: real := 0.75
  /** Lowest gap between the best and the runner-up of a certain answer (inclusive). */
  const MARGIN_THRESHOLD: real := 0.03
  /** What fitting the standardisation raises on a database without rows. */
  const SCALER_ERROR: string := "found array with 0 samples"
  /** What reading the first or second ranked song raises when the database is too small. */
  const INDEX_ERROR: string := "index out of bounds"

  /** One ranked song: its row, its file name and its averaged score. */
  datatype Candidate = Candidate(idx: nat, filename: string, score: real)

  /** The outcome of one recognition, in place of the printed report. */
  datatype Report =
    | QueryNotFound
    | NoFeature
    | Certain(best: Candidate, margin: real)
    | Ambiguous(candidates: seq<Candidate>)

  /** The window feature extractor for the query clip. */
  type QueryExtractor = Window -> Extraction

  /** Similarity of a query vector to one database row (standardisation and cosine included). */
  type Similarity = (Vector, Vector) -> real

  // ----- per-window scores and their average -----

  /** One window's similarity to every database row, in row order. */
  function Similarities(query: Vector, rows: seq<Vector>, sim: Similarity): (sims: Vector)
    ensures |sims| == |rows|
  {
    seq(|rows|, j requires 0 <= j < |rows| => sim(query, rows[j]))
  }

  function SimilarityRows(feats: seq<Vector>, rows: seq<Vector>, sim: Similarity): (m: seq<Vector>)
    ensures |m| == |feats| && Uniform(m)
    ensures forall k :: 0 <= k < |m| ==> |m[k]| == |rows|
  {
    seq(|feats|, k requires 0 <= k < |feats| => Similarities(feats[k], rows, sim))
  }

  /** `score_avg`: for every song, its similarity averaged over the surviving windows. */
  function AveragedScores(feats: seq<Vector>, rows: seq<Vector>, sim: Similarity): (avg: Vector)
    requires feats != []
    ensures |avg| == |rows|
  {
    Mean(SimilarityRows(feats, rows, sim))
  }

  /** Song j's averaged score is the mean of the windows' similarities to row j. */
  lemma AveragedScoreAt(feats: seq<Vector>, rows: seq<Vector>, sim: Similarity, j: nat)
    requires feats != [] && j < |rows|
    ensures AveragedScores(feats, rows, sim)[j]
      == ColumnSum(SimilarityRows(feats, rows, sim), j) / (|feats| as real)
    ensures forall k :: 0 <= k < |feats| ==> SimilarityRows(feats, rows, sim)[k][j] == sim(feats[k], rows[j])
  {
  }

  /** Similarities within [lo, hi] (cosine: [-1, 1]) give averaged scores within [lo, hi]. */
  lemma AveragedScoresBounds(feats: seq<Vector>, rows: seq<Vector>, sim: Similarity, lo: real, hi: real)
    requires feats != []
    requires forall k, j :: 0 <= k < |feats| && 0 <= j < |rows| ==> lo <= sim(feats[k], rows[j]) <= hi
    ensures forall j :: 0 <= j < |rows| ==> lo <= AveragedScores(feats, rows, sim)[j] <= hi
  {
    MeanBounds(SimilarityRows(feats, rows, sim), lo, hi);
  }

  // ----- ranking (`np.argsort(-score_avg)`) -----

  /** r lists each of the rows 0..n-1 once, by non-increasing score. */
  ghost predicate RankingOf(scores: seq<real>, r: seq<nat>, n: nat)
  {
    && |r| == n
    && (forall k :: 0 <= k < |r| ==> r[k] < n && r[k] < |scores|)
    && (forall a, b :: 0 <= a < b < |r| ==> r[a] != r[b])
    && (forall j :: 0 <= j < n ==> j in r)
    && (forall a, b :: 0 <= a < b < |r| ==> scores[r[a]] >= scores[r[b]])
  }

  ghost predicate IsRanking(scores: seq<real>, r: seq<nat>)
  {
    RankingOf(scores, r, |scores|)
  }

  /** Where a song scoring x goes: after every song scoring at least x. */
  function InsertPos(scores: seq<real>, x: real, s: seq<nat>): (p: nat)
    requires forall k :: 0 <= k < |s| ==> s[k] < |scores|
    ensures p <= |s|
    ensures forall k :: 0 <= k < p ==> scores[s[k]] >= x
    ensures p < |s| ==> scores[s[p]] < x
    decreases |s|
  {
    if s == [] || scores[s[0]] < x then 0 else 1 + InsertPos(scores, x, s[1..])
  }

  /** r is s with x inserted at position p. */
  ghost predicate InsertedAt(r: seq<nat>, s: seq<nat>, p: nat, x: nat)
  {
    && p <= |s| && |r| == |s| + 1 && r[p] == x
    && (forall k :: 0 <= k < p ==> r[k] == s[k])
    && (forall k :: p < k < |r| ==> r[k] == s[k - 1])
  }

  lemma InsertedAtSplice(s: seq<nat>, p: nat, x: nat)
    requires p <= |s|
    ensures InsertedAt(s[..p] + [x] + s[p..], s, p, x)
  {
  }

  lemma InsertedDescending(scores: seq<real>, r: seq<nat>, s: seq<nat>, p: nat, x: nat)
    requires InsertedAt(r, s, p, x) && x < |scores|
    requires forall k :: 0 <= k < |s| ==> s[k] < |scores|
    requires forall a, b :: 0 <= a < b < |s| ==> scores[s[a]] >= scores[s[b]]
    requires forall k :: 0 <= k < p ==> scores[s[k]] >= scores[x]
    requires p < |s| ==> scores[s[p]] < scores[x]
    ensures forall a, b :: 0 <= a < b < |r| ==> scores[r[a]] >= scores[r[b]]
  {
    forall a, b | 0 <= a < b < |r|
      ensures scores[r[a]] >= scores[r[b]]
    {
      if a == p {
        assert scores[s[b - 1]] <= scores[s[p]];
      } else if a < p && b > p {
        assert scores[r[b]] == scores[s[b - 1]];
      }
    }
  }

  lemma InsertedDistinct(r: seq<nat>, s: seq<nat>, p: nat, x: nat)
    requires InsertedAt(r, s, p, x) && x !in s
    requires forall a, b :: 0 <= a < b < |s| ==> s[a] != s[b]
    ensures forall a, b :: 0 <= a < b < |r| ==> r[a] != r[b]
  {
    forall a, b | 0 <= a < b < |r|
      ensures r[a] != r[b]
    {
      if a == p {
        assert r[b] == s[b - 1];
      } else if b == p {
        assert r[a] == s[a];
      } else if a > p {
        assert r[a] == s[a - 1] && r[b] == s[b - 1];
      } else if b > p {
        assert r[a] == s[a] && r[b] == s[b - 1];
      }
    }
  }

  lemma InsertedMembers(r: seq<nat>, s: seq<nat>, p: nat, x: nat)
    requires InsertedAt(r, s, p, x)
    ensures forall y :: y in r <==> y in s || y == x
  {
    forall y | y in s
      ensures y in r
    {
      var q :| 0 <= q < |s| && s[q] == y;
      if q < p {
        assert r[q] == y;
      } else {
        assert r[q + 1] == y;
      }
    }
    forall y | y in r
      ensures y in s || y == x
    {
      var q :| 0 <= q < |r| && r[q] == y;
      if q < p {
        assert s[q] == y;
      } else if q > p {
        assert s[q - 1] == y;
      }
    }
  }

  lemma InsertKeepsRanking(scores: seq<real>, s: seq<nat>, n: nat, p: nat)
    requires 0 < n <= |scores| && RankingOf(scores, s, n - 1) && p <= |s|
    requires forall k :: 0 <= k < p ==> scores[s[k]] >= scores[n - 1]
    requires p < |s| ==> scores[s[p]] < scores[n - 1]
    ensures RankingOf(scores, s[..p] + [n - 1] + s[p..], n)
  {
    var r := s[..p] + [n - 1] + s[p..];
    InsertedAtSplice(s, p, n - 1);
    InsertedDescending(scores, r, s, p, n - 1);
    InsertedDistinct(r, s, p, n - 1);
    InsertedMembers(r, s, p, n - 1);
    assert forall k :: 0 <= k < |r| ==> r[k] in r;
  }

  /** The first n rows, ranked. */
  function RankPrefix(scores: seq<real>, n: nat): (r: seq<nat>)
    requires n <= |scores|
    ensures RankingOf(scores, r, n)
  {
    if n == 0 then []
    else
      var s := RankPrefix(scores, n - 1);
      var p := InsertPos(scores, scores[n - 1], s);
      InsertKeepsRanking(scores, s, n, p);
      s[..p] + [n - 1] + s[p..]
  }

  /** `idx_sorted`; among equal scores the lower row comes first. */
  function Rank(scores: seq<real>): (r: seq<nat>)
    ensures IsRanking(scores, r)
  {
    RankPrefix(scores, |scores|)
  }

  /** The first ranked song has the highest score and the second is no better than it. */
  lemma RankedFirstIsBest(scores: seq<real>, r: seq<nat>)
    requires IsRanking(scores, r) && |scores| > 0
    ensures forall j :: 0 <= j < |scores| ==> scores[j] <= scores[r[0]]
    ensures |scores| > 1 ==> scores[r[0]] - scores[r[1]] >= 0.0
  {
    forall j | 0 <= j < |scores|
      ensures scores[j] <= scores[r[0]]
    {
      assert j in r;
      var q :| 0 <= q < |r| && r[q] == j;
    }
  }

  // ----- the verdict -----

  /** Python's `range(min(top_k, n))` has this many elements. */
  function Listed(topK: int, n: nat): (m: nat)
    ensures m <= n
    ensures topK >= 0 ==> m == if topK < n then topK else n
  {
    var bound := if topK < n then topK else n;
    if bound < 0 then 0 else bound
  }

  /** Lines 90-110 of the matcher, given the averaged scores and their ranking. */
  function Decide(scores: seq<real>, r: seq<nat>, meta: seq<BuildDb.SongRecord>, topK: int): (rep: Report)
    requires IsRanking(scores, r) && |scores| >= 2 && |meta| == |scores|
    ensures rep.Certain? || rep.Ambiguous?
  {
    var best, second := r[0], r[1];
    var bestScore, secondScore := scores[best], scores[second];
    var margin := bestScore - secondScore;
    if bestScore >= CONFIDENCE_THRESHOLD && margin >= MARGIN_THRESHOLD then
      Certain(Candidate(best, meta[best].filename, bestScore), margin)
    else
      var count := Listed(topK, |r|);
      Ambiguous(seq(count, k requires 0 <= k < count => Candidate(r[k], meta[r[k]].filename, scores[r[k]])))
  }

  /** Song b is confidently recognised: high enough, and clear of every other song by the margin. */
  ghost predicate Winner(scores: seq<real>, b: nat)
  {
    && b < |scores|
    && scores[b] >= CONFIDENCE_THRESHOLD
    && forall j :: 0 <= j < |scores| && j != b ==> scores[b] - scores[j] >= MARGIN_THRESHOLD
  }

  /**
   * The verdict is certain exactly when some song is a winner, whatever the ranking's order
   * among equal scores; it then names that song, its score, and as margin the smallest gap
   * between it and any other song.
   */
  lemma CertainIff(scores: seq<real>, r: seq<nat>, meta: seq<BuildDb.SongRecord>, topK: int)
    requires IsRanking(scores, r) && |scores| >= 2 && |meta| == |scores|
    ensures Decide(scores, r, meta, topK).Certain? <==> exists b :: Winner(scores, b)
    ensures Decide(scores, r, meta, topK).Certain? ==>
      var rep := Decide(scores, r, meta, topK);
      && Winner(scores, rep.best.idx)
      && rep.best.filename == meta[rep.best.idx].filename
      && rep.best.score == scores[rep.best.idx]
      && (forall j :: 0 <= j < |scores| && j != rep.best.idx ==> rep.margin <= scores[rep.best.idx] - scores[j])
      && (exists j :: 0 <= j < |scores| && j != rep.best.idx && rep.margin == scores[rep.best.idx] - scores[j])
  {
    var best, second := r[0], r[1];
    var margin := scores[best] - scores[second];
    assert forall j :: 0 <= j < |scores| && j != best ==> scores[best] - scores[j] >= margin by {
      forall j | 0 <= j < |scores| && j != best
        ensures scores[j] <= scores[second]
      {
        assert j in r;
        var q :| 0 <= q < |r| && r[q] == j;
      }
    }
    if b: nat :| Winner(scores, b) {
      assert b == best by {
        RankedFirstIsBest(scores, r);
      }
      assert scores[best] - scores[second] >= MARGIN_THRESHOLD;
    }
    if Decide(scores, r, meta, topK).Certain? {
      assert Winner(scores, best);
    }
  }

  /** Two rankings of the same scores, differing only among ties, give the same certain verdict. */
  lemma CertainIgnoresTieOrder(scores: seq<real>, r1: seq<nat>, r2: seq<nat>, meta: seq<BuildDb.SongRecord>, topK: int)
    requires IsRanking(scores, r1) && IsRanking(scores, r2) && |scores| >= 2 && |meta| == |scores|
    ensures Decide(scores, r1, meta, topK).Certain? <==> Decide(scores, r2, meta, topK).Certain?
    ensures Decide(scores, r1, meta, topK).Certain? ==> Decide(scores, r1, meta, topK) == Decide(scores, r2, meta, topK)
  {
    CertainIff(scores, r1, meta, topK);
    CertainIff(scores, r2, meta, topK);
    var d1, d2 := Decide(scores, r1, meta, topK), Decide(scores, r2, meta, topK);
    if d1.Certain? {
      var b1, b2 := d1.best.idx, d2.best.idx;
      assert b1 == b2;
      var j1 :| 0 <= j1 < |scores| && j1 != b1 && d1.margin == scores[b1] - scores[j1];
      var j2 :| 0 <= j2 < |scores| && j2 != b1 && d2.margin == scores[b1] - scores[j2];
    }
  }

  /**
   * An uncertain verdict lists max(0, min(top_k, n)) distinct songs in ranking order, so by
   * non-increasing score, and every listed song scores at least as high as every unlisted one.
   */
  lemma AmbiguousListing(scores: seq<real>, r: seq<nat>, meta: seq<BuildDb.SongRecord>, topK: int)
    requires IsRanking(scores, r) && |scores| >= 2 && |meta| == |scores|
    requires Decide(scores, r, meta, topK).Ambiguous?
    ensures !exists b :: Winner(scores, b)
    ensures var cs := Decide(scores, r, meta, topK).candidates;
      && |cs| == (if topK <= 0 then 0 else if topK < |scores| then topK else |scores|)
      && (forall k :: 0 <= k < |cs| ==> cs[k].idx == r[k])
      && (forall k :: 0 <= k < |cs| ==>
            cs[k].idx < |scores| && cs[k].filename == meta[cs[k].idx].filename && cs[k].score == scores[cs[k].idx])
      && (forall a, b :: 0 <= a < b < |cs| ==> cs[a].idx != cs[b].idx && cs[a].score >= cs[b].score)
      && (forall k, j :: 0 <= k < |cs| && 0 <= j < |scores| && (forall k' :: 0 <= k' < |cs| ==> cs[k'].idx != j)
            ==> cs[k].score >= scores[j])
  {
    CertainIff(scores, r, meta, topK);
    var cs := Decide(scores, r, meta, topK).candidates;
    forall k, j | 0 <= k < |cs| && 0 <= j < |scores| && (forall k' :: 0 <= k' < |cs| ==> cs[k'].idx != j)
      ensures cs[k].score >= scores[j]
    {
      assert j in r;
      var q :| 0 <= q < |r| && r[q] == j;
      assert q >= |cs| by {
        assert forall k' :: 0 <= k' < |cs| ==> cs[k'].idx == r[k'];
      }
    }
  }

  /** Both thresholds are inclusive: best 0.75 with margin 0.03 is certain. */
  lemma BoundaryIsCertain(r: seq<nat>, meta: seq<BuildDb.SongRecord>, topK: int)
    requires IsRanking([0.75, 0.72], r) && |meta| == 2
    ensures Decide([0.75, 0.72], r, meta, topK) == Certain(Candidate(0, meta[0].filename, 0.75), 0.03)
  {
    assert Winner([0.75, 0.72], 0);
    CertainIff([0.75, 0.72], r, meta, topK);
  }

  /** A best score of 0.7499 is never certain, however far ahead of the rest it is. */
  lemma BelowConfidenceIsAmbiguous(scores: seq<real>, r: seq<nat>, meta: seq<BuildDb.SongRecord>, topK: int)
    requires IsRanking(scores, r) && |scores| >= 2 && |meta| == |scores|
    requires forall j :: 0 <= j < |scores| ==> scores[j] <= 0.7499
    ensures Decide(scores, r, meta, topK).Ambiguous?
  {
  }

  // ----- the whole recognition -----

  function QueryExtractions(extract: QueryExtractor): (rs: seq<Extraction>)
    ensures |rs| == SEGMENT_COUNT
  {
    Extractions(Windows(SEGMENT_COUNT, SEGMENT_DURATION), extract)
  }

  /** What `recognize` reports, or raises, for one query clip against a loaded database. */
  function Recognition(queryExists: bool, db: BuildDb.Database, extract: QueryExtractor,
                       sim: Similarity, topK: int): Result<Report>
    requires |db.meta| == |db.features|
  {
    if !queryExists then Ok(QueryNotFound)
    else if |db.features| == 0 then Err(SCALER_ERROR)
    else
      match Collect(QueryExtractions(extract))
      case Err(e) => Err(e)
      case Ok(feats) =>
        if feats == [] then Ok(NoFeature)
        else
          var avg := AveragedScores(feats, db.features, sim);
          if |avg| < 2 then Err(INDEX_ERROR)
          else Ok(Decide(avg, Rank(avg), db.meta, topK))
  }

  /**
   * A missing clip is reported and an empty database raises before any window is read.
   * Otherwise no verdict is produced exactly when every query window had no samples; a
   * window that raises makes the recognition raise the first such error; and when no
   * window raises and some window produced a feature, a single-song database raises,
   * while a database of two or more songs gets the verdict of `Decide` on the scores
   * averaged over exactly the windows that produced a feature, which is certain exactly
   * when some song is a winner on those scores.
   */
  lemma RecognitionSpec(queryExists: bool, db: BuildDb.Database, extract: QueryExtractor,
                        sim: Similarity, topK: int) returns (pos: seq<nat>)
    requires |db.meta| == |db.features|
    ensures !queryExists ==> Recognition(queryExists, db, extract, sim, topK) == Ok(QueryNotFound)
    ensures queryExists && |db.features| == 0 ==>
      Recognition(queryExists, db, extract, sim, topK) == Err(SCALER_ERROR)
    ensures var rs := QueryExtractions(extract);
      var none := forall i :: 0 <= i < |rs| ==> rs[i] == Ok(None);
      queryExists && |db.features| > 0 ==>
        (Recognition(queryExists, db, extract, sim, topK) == Ok(NoFeature) <==> none)
    ensures var rs := QueryExtractions(extract);
      queryExists && |db.features| > 0 && (exists i :: 0 <= i < |rs| && rs[i].Err?) ==>
        exists i :: (0 <= i < |rs| && rs[i].Err?
          && Recognition(queryExists, db, extract, sim, topK) == Err(rs[i].error)
          && forall i' :: 0 <= i' < i ==> rs[i'].Ok?)
    ensures var rs := QueryExtractions(extract);
      queryExists && |db.features| > 0 && (forall i :: 0 <= i < |rs| ==> rs[i].Ok?) ==>
      && Positions(pos, |rs|)
      && (forall i :: 0 <= i < |rs| ==> (i in pos <==> rs[i].value.Some?))
      && var feats := seq(|pos|, k requires 0 <= k < |pos| => rs[pos[k]].value.value);
         feats != [] ==>
           var avg := AveragedScores(feats, db.features, sim);
           && Recognition(queryExists, db, extract, sim, topK)
                == (if |db.features| < 2 then Err(INDEX_ERROR) else Ok(Decide(avg, Rank(avg), db.meta, topK)))
           && (|db.features| >= 2 ==>
                 (Recognition(queryExists, db, extract, sim, topK).value.Certain? <==> exists b :: Winner(avg, b)))
  {
    var rs := QueryExtractions(extract);
    pos := CollectSpec(rs);
    CollectEmpty(rs);
    if Collect(rs).Ok? && Collect(rs).value != [] {
      var feats := Collect(rs).value;
      assert feats == seq(|pos|, k requires 0 <= k < |pos| => rs[pos[k]].value.value);
      var avg := AveragedScores(feats, db.features, sim);
      if |avg| >= 2 {
        CertainIff(avg, Rank(avg), db.meta, topK);
      }
    }
  }

  /** `recognize`: scan the eight query windows, average the scores, rank, decide. */
  method Recognize(queryExists: bool, db: BuildDb.Database, extract: QueryExtractor,
                   sim: Similarity, topK: int) returns (out: Result<Report>)
    requires |db.meta| == |db.features|
    ensures out == Recognition(queryExists, db, extract, sim, topK)
  {
    if !queryExists {
      return Ok(QueryNotFound);
    }
    if |db.features| == 0 {
      // `scaler.fit_transform(db)` raises before any window is read
      return Err(SCALER_ERROR);
    }
    ghost var rs := QueryExtractions(extract);
    ghost var feats: seq<Vector> := [];
    var scoresAll: seq<Vector> := [];
    for i := 0 to SEGMENT_COUNT
      invariant Collect(rs[..i]) == Ok(feats)
      invariant scoresAll == SimilarityRows(feats, db.features, sim)
    {
      var offset := i * SEGMENT_DURATION;
      var feat := extract(Window(offset, SEGMENT_DURATION));
      CollectStep(rs, i);
      match feat {
        case Err(e) =>
          CollectErrSticks(rs, i + 1);
          return Err(e);
        case Ok(None) =>
        case Ok(Some(v)) =>
          var sims := Similarities(v, db.features, sim);
          scoresAll := scoresAll + [sims];
          feats := feats + [v];
      }
    }
    assert rs[..SEGMENT_COUNT] == rs;
    if scoresAll == [] {
      return Ok(NoFeature);
    }
    var scoreAvg := Mean(scoresAll);
    var idxSorted := Rank(scoreAvg);
    if |idxSorted| < 2 {
      return Err(INDEX_ERROR);
    }
    return Ok(Decide(scoreAvg, idxSorted, db.meta, topK));
  }
}
