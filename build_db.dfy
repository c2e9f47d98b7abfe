/**
 * The offline indexer: keep the audio files of a directory listing, sort them by name,
 * reduce each song to the mean of its window features and number the songs that
 * produced a feature densely from 0, in processing order.
 */
module BuildDb {
  import opened Wrappers
  import opened Vectors
  import opened Segments

  /** Window length, in seconds. */
  const SEGMENT_DURATION: nat := 6
  /** Windows per song (about one minute). */
  const SEGMENT_COUNT: nat := 10
  /** Recognised extensions, compared against the lower-cased file name. */
  const AUDIO_EXTENSIONS: seq<string> := [".mp3", ".wav", ".flac", ".m4a", ".ogg"]
  /** What `np.mean` raises when the window vectors differ in length. */
  const INHOMOGENEOUS: string := "inhomogeneous shape"

  /** One metadata record: `idx` is the row of the song's vector in the feature matrix. */
  datatype SongRecord = SongRecord(idx: nat, filename: string)

  /** The feature matrix and its metadata, row k belonging to record k. */
  datatype Database = Database(features: seq<Vector>, meta: seq<SongRecord>)
  {
    /** As many records as rows, and record k carries id k. */
    predicate Valid()
    {
      |meta| == |features| && forall k :: 0 <= k < |meta| ==> meta[k].idx == k
    }
  }

  /** What `np.vstack` raises when the songs' vectors differ in length. */
  const VSTACK_ERROR: string := "input array dimensions must match"

  /**
   * How a build ends: the three early returns, the uncaught error of stacking the rows,
   * or the database written to disk.
   */
  datatype BuildOutcome = MissingSongsDir | NoAudioFiles | NoFeatures | Raised(error: string) | Built(db: Database)

  /** The window feature extractor, given the song's file name and the window. */
  type SongExtractor = (string, Window) -> Extraction

  // ----- file selection -----

  /** ASCII lower-casing of one character. */
  function LowerChar(c: char): char
  {
    if 'A' <= c <= 'Z' then (c as int + 32) as char else c
  }

  /** ASCII upper-casing of one character. */
  function UpperChar(c: char): char
  {
    if 'a' <= c <= 'z' then (c as int - 32) as char else c
  }

  function Lower(s: string): (r: string)
    ensures |r| == |s|
  {
    seq(|s|, i requires 0 <= i < |s| => LowerChar(s[i]))
  }

  function Upper(s: string): (r: string)
    ensures |r| == |s|
  {
    seq(|s|, i requires 0 <= i < |s| => UpperChar(s[i]))
  }

  predicate EndsWith(s: string, suffix: string)
  {
    |suffix| <= |s| && s[|s| - |suffix|..] == suffix
  }

  /** The name's lower-cased form ends in one of the recognised extensions. */
  predicate IsAudioFile(name: string)
  {
    exists e :: e in AUDIO_EXTENSIONS && EndsWith(Lower(name), e)
  }

  /** Character by character: the last |e| characters of the name, lower-cased, spell e. */
  lemma IsAudioFileCharwise(name: string)
    ensures IsAudioFile(name) <==> exists e :: (e in AUDIO_EXTENSIONS && |e| <= |name|
      && forall k :: 0 <= k < |e| ==> LowerChar(name[|name| - |e| + k]) == e[k])
  {
    var low := Lower(name);
    forall e | e in AUDIO_EXTENSIONS && |e| <= |name|
      ensures EndsWith(low, e) <==> forall k :: 0 <= k < |e| ==> LowerChar(name[|name| - |e| + k]) == e[k]
    {
      var tail := low[|low| - |e|..];
      assert |tail| == |e|;
      assert forall k :: 0 <= k < |e| ==> tail[k] == LowerChar(name[|name| - |e| + k]);
    }
  }

  lemma LowerAfterUpper(s: string)
    ensures Lower(Upper(s)) == Lower(s) && Lower(Lower(s)) == Lower(s)
  {
    assert forall i :: 0 <= i < |s| ==> LowerChar(UpperChar(s[i])) == LowerChar(s[i]);
  }

  /** The extension test ignores case: "SONG.MP3" is selected exactly when "song.mp3" is. */
  lemma IsAudioFileIgnoresCase(name: string)
    ensures IsAudioFile(Upper(name)) <==> IsAudioFile(name)
    ensures IsAudioFile(Lower(name)) <==> IsAudioFile(name)
  {
    LowerAfterUpper(name);
  }

  /** The listing's audio files, in listing order, each as often as it is listed. */
  function AudioFiles(listing: seq<string>): (files: seq<string>)
    ensures forall f :: multiset(files)[f] == if IsAudioFile(f) then multiset(listing)[f] else 0
    decreases |listing|
  {
    if listing == [] then []
    else
      var init, last := listing[..|listing| - 1], listing[|listing| - 1];
      assert listing == init + [last];
      AudioFiles(init) + if IsAudioFile(last) then [last] else []
  }

  // ----- name order (Python compares strings by code point, shorter prefix first) -----

  predicate StrLe(a: string, b: string)
    decreases |a|
  {
    a == [] || (b != [] && (a[0] < b[0] || (a[0] == b[0] && StrLe(a[1..], b[1..]))))
  }

  lemma {:induction false} StrLeTotal(a: string, b: string)
    ensures StrLe(a, b) || StrLe(b, a)
    decreases |a|
  {
    if a != [] && b != [] && a[0] == b[0] {
      StrLeTotal(a[1..], b[1..]);
    }
  }

  lemma {:induction false} StrLeTrans(a: string, b: string, c: string)
    requires StrLe(a, b) && StrLe(b, c)
    ensures StrLe(a, c)
    decreases |a|
  {
    if a != [] && a[0] == b[0] && b[0] == c[0] {
      StrLeTrans(a[1..], b[1..], c[1..]);
    }
  }

  ghost predicate Ascending(s: seq<string>)
  {
    forall a, b :: 0 <= a < b < |s| ==> StrLe(s[a], s[b])
  }

  /** Insert one name into an ascending list, before the first name it does not exceed. */
  function InsertName(x: string, s: seq<string>): (r: seq<string>)
    requires Ascending(s)
    ensures multiset(r) == multiset(s) + multiset{x}
    ensures Ascending(r)
    decreases |s|
  {
    if s == [] then [x]
    else if StrLe(x, s[0]) then
      InsertNameFront(x, s);
      [x] + s
    else
      var rest := InsertName(x, s[1..]);
      InsertNameBehind(x, s, rest);
      assert s == [s[0]] + s[1..];
      [s[0]] + rest
  }

  lemma InsertNameFront(x: string, s: seq<string>)
    requires s != [] && Ascending(s) && StrLe(x, s[0])
    ensures Ascending([x] + s)
  {
    forall b | 0 < b < |s| + 1
      ensures StrLe(([x] + s)[0], ([x] + s)[b])
    {
      if b > 1 {
        StrLeTrans(x, s[0], s[b - 1]);
      }
    }
  }

  lemma InsertNameBehind(x: string, s: seq<string>, rest: seq<string>)
    requires s != [] && Ascending(s) && !StrLe(x, s[0])
    requires Ascending(rest) && multiset(rest) == multiset(s[1..]) + multiset{x}
    ensures Ascending([s[0]] + rest)
  {
    StrLeTotal(x, s[0]);
    forall b | 0 <= b < |rest|
      ensures StrLe(s[0], rest[b])
    {
      assert rest[b] in multiset(rest);
      if rest[b] != x {
        assert rest[b] in s[1..];
      }
    }
  }

  /** `files.sort()`: the same names, in ascending order. */
  function SortNames(names: seq<string>): (r: seq<string>)
    ensures multiset(r) == multiset(names)
    ensures Ascending(r)
    decreases |names|
  {
    if names == [] then []
    else
      var init := names[..|names| - 1];
      assert names == init + [names[|names| - 1]];
      InsertName(names[|names| - 1], SortNames(init))
  }

  /** The files the indexer processes, in processing order. */
  function Candidates(listing: seq<string>): seq<string>
  {
    SortNames(AudioFiles(listing))
  }

  /** Exactly the audio files of the listing, with their multiplicity, in ascending name order. */
  lemma CandidatesSpec(listing: seq<string>)
    ensures Ascending(Candidates(listing))
    ensures forall f :: f in Candidates(listing) <==> f in listing && IsAudioFile(f)
    ensures forall f ::
      multiset(Candidates(listing))[f] == if IsAudioFile(f) then multiset(listing)[f] else 0
  {
    var c := Candidates(listing);
    forall f
      ensures f in c <==> f in listing && IsAudioFile(f)
    {
      assert f in c <==> f in multiset(c);
      assert f in listing <==> f in multiset(listing);
    }
  }

  // ----- one song: window tiling, skip absent windows, mean -----

  function SongExtractions(fname: string, seg: SongExtractor): (rs: seq<Extraction>)
    ensures |rs| == SEGMENT_COUNT
  {
    Extractions(Windows(SEGMENT_COUNT, SEGMENT_DURATION), w => seg(fname, w))
  }

  /** What `extract_song_feature` returns, or raises, for one song. */
  function SongFeature(fname: string, seg: SongExtractor): Result<Option<Vector>>
  {
    match Collect(SongExtractions(fname, seg))
    case Err(e) => Err(e)
    case Ok(feats) =>
      if feats == [] then Ok(None)
      else if !Uniform(feats) then Err(INHOMOGENEOUS)
      else Ok(Some(Mean(feats)))
  }

  /** Window i of a song is the extractor's answer for the window at i * 6 s, 6 s long. */
  lemma SongExtractionsAt(fname: string, seg: SongExtractor, i: nat)
    requires i < SEGMENT_COUNT
    ensures SongExtractions(fname, seg)[i] == seg(fname, Window(i * SEGMENT_DURATION, SEGMENT_DURATION))
  {
  }

  /**
   * The song has no feature exactly when every one of its windows had no samples. If a
   * window raises, the song raises the error of the first window that raised. Otherwise
   * the kept vectors are those of exactly the windows that produced one, in window order,
   * and the song's feature is their elementwise mean, or the song raises because they
   * differ in length.
   */
  lemma SongFeatureSpec(fname: string, seg: SongExtractor) returns (pos: seq<nat>)
    ensures var rs := SongExtractions(fname, seg);
      SongFeature(fname, seg) == Ok(None) <==> forall i :: 0 <= i < |rs| ==> rs[i] == Ok(None)
    ensures var rs := SongExtractions(fname, seg);
      (exists i :: 0 <= i < |rs| && rs[i].Err?) ==>
        exists i :: (0 <= i < |rs| && rs[i].Err? && rs[i] == SongFeature(fname, seg)
          && forall i' :: 0 <= i' < i ==> rs[i'].Ok?)
    ensures var rs := SongExtractions(fname, seg);
      (forall i :: 0 <= i < |rs| ==> rs[i].Ok?) ==>
      && Positions(pos, |rs|)
      && (forall i :: 0 <= i < |rs| ==> (i in pos <==> rs[i].value.Some?))
      && var feats := seq(|pos|, k requires 0 <= k < |pos| => rs[pos[k]].value.value);
         SongFeature(fname, seg) ==
           if feats == [] then Ok(None)
           else if Uniform(feats) then Ok(Some(Mean(feats)))
           else Err(INHOMOGENEOUS)
  {
    var rs := SongExtractions(fname, seg);
    pos := CollectSpec(rs);
    CollectEmpty(rs);
    if Collect(rs).Ok? {
      var feats := Collect(rs).value;
      assert feats == seq(|pos|, k requires 0 <= k < |pos| => rs[pos[k]].value.value);
    }
  }

  /** `extract_song_feature`: scan the ten windows, keep the vectors, average them. */
  method ExtractSongFeature(fname: string, seg: SongExtractor) returns (r: Result<Option<Vector>>)
    ensures r == SongFeature(fname, seg)
  {
    ghost var rs := SongExtractions(fname, seg);
    var feats: seq<Vector> := [];
    for i := 0 to SEGMENT_COUNT
      invariant Collect(rs[..i]) == Ok(feats)
    {
      var offset := i * SEGMENT_DURATION;
      var feat := seg(fname, Window(offset, SEGMENT_DURATION));
      CollectStep(rs, i);
      match feat {
        case Err(e) =>
          CollectErrSticks(rs, i + 1);
          return Err(e);
        case Ok(None) =>
        case Ok(Some(v)) =>
          feats := feats + [v];
      }
    }
    assert rs[..SEGMENT_COUNT] == rs;
    if feats == [] {
      return Ok(None);
    }
    if !Uniform(feats) {
      return Err(INHOMOGENEOUS);
    }
    return Ok(Some(Mean(feats)));
  }

  // ----- the whole directory -----

  /** Each file's aggregation outcome, as `extract_song_feature` gives it. */
  type SongOutcomes = string -> Result<Option<Vector>>

  /** The database after processing `files` in order: a song that yields no feature or raises is skipped. */
  function Index(files: seq<string>, outcome: SongOutcomes): (db: Database)
    ensures db.Valid()
    decreases |files|
  {
    if files == [] then Database([], [])
    else
      var prev := Index(files[..|files| - 1], outcome);
      var fname := files[|files| - 1];
      match outcome(fname)
      case Ok(Some(v)) =>
        Database(prev.features + [v], prev.meta + [SongRecord(|prev.features|, fname)])
      case _ => prev
  }

  /** Processing one more file. */
  lemma IndexStep(files: seq<string>, i: nat, outcome: SongOutcomes)
    requires i < |files|
    ensures Index(files[..i + 1], outcome) ==
      var prev := Index(files[..i], outcome);
      match outcome(files[i])
      case Ok(Some(v)) => Database(prev.features + [v], prev.meta + [SongRecord(|prev.features|, files[i])])
      case _ => prev
  {
    assert files[..i + 1][..i] == files[..i];
  }

  /**
   * The records name exactly the files whose song feature was produced, in file order,
   * numbered 0, 1, 2, ... with no gap for a skipped file; row k is that file's feature.
   */
  lemma {:induction false} IndexSpec(files: seq<string>, outcome: SongOutcomes) returns (pos: seq<nat>)
    ensures Positions(pos, |files|)
    ensures |pos| == |Index(files, outcome).meta|
    ensures forall k :: 0 <= k < |pos| ==>
      && Index(files, outcome).meta[k] == SongRecord(k, files[pos[k]])
      && outcome(files[pos[k]]) == Ok(Some(Index(files, outcome).features[k]))
    ensures forall i :: 0 <= i < |files| ==>
      (i in pos <==> outcome(files[i]).Ok? && outcome(files[i]).value.Some?)
    decreases |files|
  {
    if files == [] {
      pos := [];
    } else {
      var init, last := files[..|files| - 1], |files| - 1;
      var prev, db := Index(init, outcome), Index(files, outcome);
      var prevPos := IndexSpec(init, outcome);
      assert forall i :: 0 <= i < last ==> init[i] == files[i];
      var r := outcome(files[last]);
      if r.Ok? && r.value.Some? {
        assert db.features == prev.features + [r.value.value];
        assert db.meta == prev.meta + [SongRecord(|prev.features|, files[last])];
        pos := prevPos + [last];
        forall k | 0 <= k < |pos|
          ensures db.meta[k] == SongRecord(k, files[pos[k]])
          ensures outcome(files[pos[k]]) == Ok(Some(db.features[k]))
        {
          if k < |prevPos| {
            assert pos[k] == prevPos[k];
          }
        }
        forall i | 0 <= i < |files|
          ensures i in pos <==> outcome(files[i]).Ok? && outcome(files[i]).value.Some?
        {
          assert i in pos <==> i in prevPos || i == last;
        }
      } else {
        assert db == prev;
        pos := prevPos;
        forall i | 0 <= i < |files|
          ensures i in pos <==> outcome(files[i]).Ok? && outcome(files[i]).value.Some?
        {
          if i == last {
            assert i !in pos;
          }
        }
      }
    }
  }

  /** Processed in ascending name order, the records are in ascending name order too. */
  lemma IndexAscending(files: seq<string>, outcome: SongOutcomes)
    requires Ascending(files)
    ensures var meta := Index(files, outcome).meta;
      forall a, b :: 0 <= a < b < |meta| ==> StrLe(meta[a].filename, meta[b].filename)
  {
    var pos := IndexSpec(files, outcome);
  }

  /** What `main` leaves behind, given whether the songs directory exists and its listing. */
  function Build(dirExists: bool, listing: seq<string>, seg: SongExtractor): BuildOutcome
  {
    if !dirExists then MissingSongsDir
    else if Candidates(listing) == [] then NoAudioFiles
    else
      var db := Index(Candidates(listing), fname => SongFeature(fname, seg));
      if db.features == [] then NoFeatures
      else if !Uniform(db.features) then Raised(VSTACK_ERROR)
      else Built(db)
  }

  /** An aggregation outcome that is a feature: `extract_song_feature` returned an array. */
  predicate Yields(r: Result<Option<Vector>>)
  {
    r.Ok? && r.value.Some?
  }

  /** The database gets a row exactly when some processed file yields a feature. */
  lemma IndexNonEmpty(files: seq<string>, outcome: SongOutcomes)
    ensures Index(files, outcome).features != [] <==>
      exists f :: f in files && Yields(outcome(f))
  {
    var pos := IndexSpec(files, outcome);
    if exists f :: f in files && Yields(outcome(f)) {
      var f :| f in files && Yields(outcome(f));
      var i :| 0 <= i < |files| && files[i] == f;
      assert i in pos;
    }
  }

  /**
   * When the indexer writes a database. A missing directory is reported; a listing without
   * audio files is reported; when no audio file yields a feature nothing is written;
   * otherwise the rows are stacked, which raises when they differ in length, and the
   * database is written exactly when they have one length.
   */
  lemma BuildSpec(dirExists: bool, listing: seq<string>, seg: SongExtractor)
    ensures !dirExists ==> Build(dirExists, listing, seg) == MissingSongsDir
    ensures dirExists ==>
      (Build(dirExists, listing, seg) == NoAudioFiles <==> forall f :: f in listing ==> !IsAudioFile(f))
    ensures dirExists ==>
      (Build(dirExists, listing, seg) == NoFeatures <==>
        && (exists f :: f in listing && IsAudioFile(f))
        && forall f :: f in listing && IsAudioFile(f) ==> !Yields(SongFeature(f, seg)))
    ensures var rows := Index(Candidates(listing), fname => SongFeature(fname, seg)).features;
      var some := exists f :: f in listing && IsAudioFile(f) && Yields(SongFeature(f, seg));
      dirExists ==>
      && (Build(dirExists, listing, seg).Built? <==> some && Uniform(rows))
      && (Build(dirExists, listing, seg) == Raised(VSTACK_ERROR) <==> some && !Uniform(rows))
  {
    var files := Candidates(listing);
    var outcome: SongOutcomes := fname => SongFeature(fname, seg);
    CandidatesSpec(listing);
    IndexNonEmpty(files, outcome);
    assert (exists f :: f in files && Yields(outcome(f))) <==>
           exists f :: f in listing && IsAudioFile(f) && Yields(SongFeature(f, seg));
    assert files == [] <==> forall f :: f in listing ==> !IsAudioFile(f) by {
      if files != [] {
        assert files[0] in files;
      }
    }
  }

  /** `main`: select and sort the files, index them one by one, skip failures. */
  method BuildDatabase(dirExists: bool, listing: seq<string>, seg: SongExtractor) returns (out: BuildOutcome)
    ensures out == Build(dirExists, listing, seg)
    ensures out.Built? ==> out.db.Valid() && out.db.features != [] && Uniform(out.db.features)
  {
    if !dirExists {
      return MissingSongsDir;
    }
    var files := SortNames(AudioFiles(listing));
    if files == [] {
      return NoAudioFiles;
    }
    ghost var outcome: SongOutcomes := fname => SongFeature(fname, seg);
    var features: seq<Vector> := [];
    var meta: seq<SongRecord> := [];
    for i := 0 to |files|
      invariant |meta| == |features|
      invariant forall k :: 0 <= k < |meta| ==> meta[k].idx == k
      invariant Database(features, meta) == Index(files[..i], outcome)
    {
      var fname := files[i];
      var feat := ExtractSongFeature(fname, seg);
      IndexStep(files, i, outcome);
      match feat {
        case Err(_) =>
          // the exception is reported and the next file is processed
        case Ok(None) =>
          // extraction failed: reported, skipped
        case Ok(Some(v)) =>
          features := features + [v];
          meta := meta + [SongRecord(|features| - 1, fname)];
      }
    }
    assert files[..|files|] == files;
    if features == [] {
      return NoFeatures;
    }
    if !Uniform(features) {
      // `np.vstack` raises outside the per-file `try`: the build aborts, nothing is saved
      return Raised(VSTACK_ERROR);
    }
    return Built(Database(features, meta));
  }
}
