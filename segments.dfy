/**
 * The segment sampler shared by the indexer and the recognizer: window i starts at
 * `i * duration` seconds and lasts `duration` seconds; every window is handed to the
 * feature extractor, absent results are skipped and a raised error stops the scan.
 */
module Segments {
  import opened Wrappers
  import opened Vectors

  /** One audio window, in whole seconds from the start of the file. */
  datatype Window = Window(offset: nat, duration: nat)

  /** What the extractor gives for one window: a vector, no samples, or a raised error. */
  type Extraction = Result<Option<Vector>>

  /** The windows of a scan of `count` windows, each `duration` seconds long. */
  function Windows(count: nat, duration: nat): (ws: seq<Window>)
    ensures |ws| == count
  {
    seq(count, i requires 0 <= i < count => Window(i * duration, duration))
  }

  /** The windows tile [0, count * duration) from time 0: back to back, without overlap. */
  lemma WindowsTile(count: nat, duration: nat)
    ensures count > 0 ==> Windows(count, duration)[0].offset == 0
    ensures forall i :: 0 <= i < count ==> Windows(count, duration)[i].duration == duration
    ensures forall i :: 0 <= i < count - 1 ==>
      Windows(count, duration)[i + 1].offset
        == Windows(count, duration)[i].offset + Windows(count, duration)[i].duration
    ensures forall i, j :: 0 <= i < j < count ==>
      Windows(count, duration)[i].offset + duration <= Windows(count, duration)[j].offset
  {
    var ws := Windows(count, duration);
    forall i, j | 0 <= i < j < count
      ensures ws[i].offset + duration <= ws[j].offset
    {
      EarlierEndsFirst(i, j, duration);
    }
  }

  /** A window that starts earlier ends no later than a window that starts later begins. */
  lemma {:induction false} EarlierEndsFirst(a: nat, b: nat, duration: nat)
    requires a < b
    ensures a * duration + duration <= b * duration
    decreases b - a
  {
    if a + 1 < b {
      EarlierEndsFirst(a + 1, b, duration);
    }
  }

  /** Every instant of [0, count * duration) lies in exactly one window. */
  lemma WindowsCover(count: nat, duration: nat, t: nat)
    requires duration > 0 && t < count * duration
    ensures var i := t / duration;
      && i < count
      && Windows(count, duration)[i].offset <= t
      && t < Windows(count, duration)[i].offset + duration
    ensures forall i ::
      (0 <= i < count && Windows(count, duration)[i].offset <= t
        && t < Windows(count, duration)[i].offset + duration) ==> i == t / duration
  {
    var ws := Windows(count, duration);
    var q, r := t / duration, t % duration;
    assert t == q * duration + r && 0 <= r < duration;
    if q >= count {
      if count < q {
        EarlierEndsFirst(count, q, duration);
      }
      assert false;
    }
    forall i | 0 <= i < count && ws[i].offset <= t < ws[i].offset + duration
      ensures i == q
    {
      if i < q {
        EarlierEndsFirst(i, q, duration);
      } else if i > q {
        EarlierEndsFirst(q, i, duration);
      }
    }
  }

  /** The extractor's answers for the given windows, in window order. */
  function Extractions(ws: seq<Window>, extract: Window -> Extraction): (rs: seq<Extraction>)
    ensures |rs| == |ws|
  {
    seq(|ws|, i requires 0 <= i < |ws| => extract(ws[i]))
  }

  /**
   * The scan loop over the answers: the first raised error propagates, absent results are
   * skipped and the vectors that were produced are kept in window order.
   */
  function Collect(rs: seq<Extraction>): Result<seq<Vector>>
    decreases |rs|
  {
    if rs == [] then Ok([])
    else
      match Collect(rs[..|rs| - 1])
      case Err(e) => Err(e)
      case Ok(feats) =>
        match rs[|rs| - 1]
        case Err(e) => Err(e)
        case Ok(None) => Ok(feats)
        case Ok(Some(v)) => Ok(feats + [v])
  }

  /** Stepping the scan by one answer. */
  lemma CollectStep(rs: seq<Extraction>, i: nat)
    requires i < |rs|
    ensures Collect(rs[..i + 1]) ==
      match Collect(rs[..i])
      case Err(e) => Err(e)
      case Ok(feats) =>
        match rs[i]
        case Err(e) => Err(e)
        case Ok(None) => Ok(feats)
        case Ok(Some(v)) => Ok(feats + [v])
  {
    assert rs[..i + 1][..i] == rs[..i];
  }

  /** Once the scan has raised, later answers do not change the outcome. */
  lemma {:induction false} CollectErrSticks(rs: seq<Extraction>, i: nat)
    requires i <= |rs| && Collect(rs[..i]).Err?
    ensures Collect(rs) == Collect(rs[..i])
    decreases |rs| - i
  {
    if i < |rs| {
      CollectStep(rs, i);
      CollectErrSticks(rs, i + 1);
    } else {
      assert rs[..i] == rs;
    }
  }

  /** Strictly increasing positions below `n`. */
  ghost predicate Positions(pos: seq<nat>, n: nat)
  {
    && (forall k :: 0 <= k < |pos| ==> pos[k] < n)
    && (forall a, b :: 0 <= a < b < |pos| ==> pos[a] < pos[b])
  }

  /**
   * The scan succeeds exactly when no window raised; then the kept vectors are those of
   * exactly the windows that produced one, in window order; otherwise the error is that
   * of the first window that raised.
   */
  lemma {:induction false} CollectSpec(rs: seq<Extraction>) returns (pos: seq<nat>)
    ensures Collect(rs).Ok? <==> forall i :: 0 <= i < |rs| ==> rs[i].Ok?
    ensures Collect(rs).Ok? ==>
      && Positions(pos, |rs|)
      && |pos| == |Collect(rs).value|
      && (forall k :: 0 <= k < |pos| ==> rs[pos[k]] == Ok(Some(Collect(rs).value[k])))
      && (forall i :: 0 <= i < |rs| && rs[i].Ok? && rs[i].value.Some? ==> i in pos)
    ensures Collect(rs).Err? ==> exists i :: (0 <= i < |rs|
      && rs[i] == Err(Collect(rs).error)
      && forall i' :: 0 <= i' < i ==> rs[i'].Ok?)
    decreases |rs|
  {
    if rs == [] {
      pos := [];
    } else {
      var init := rs[..|rs| - 1];
      var last := |rs| - 1;
      pos := CollectSpec(init);
      assert forall i :: 0 <= i < last ==> init[i] == rs[i];
      match Collect(init)
      case Err(e) =>
        var i :| 0 <= i < |init| && init[i] == Err(e) && forall i' :: 0 <= i' < i ==> init[i'].Ok?;
        assert rs[i] == Err(e);
      case Ok(feats) =>
        match rs[last]
        case Err(e) =>
        case Ok(None) =>
          forall i | 0 <= i < |rs| && rs[i].Ok? && rs[i].value.Some?
            ensures i in pos
          {
            assert i < last;
          }
        case Ok(Some(v)) =>
          pos := pos + [last];
          forall i | 0 <= i < |rs| && rs[i].Ok? && rs[i].value.Some?
            ensures i in pos
          {
            if i < last {
              assert i in pos[..|pos| - 1];
            }
          }
    }
  }

  /** The scan yields nothing at all exactly when every window had no samples. */
  lemma CollectEmpty(rs: seq<Extraction>)
    ensures Collect(rs) == Ok([]) <==> forall i :: 0 <= i < |rs| ==> rs[i] == Ok(None)
  {
    var pos := CollectSpec(rs);
    if Collect(rs) == Ok([]) {
      assert pos == [];
    }
  }
}
