# Song recognition core, modelled in Dafny

The repository identifies an audio clip by comparing it with a database of songs.
It has two programs. `build_db.py` indexes a folder of songs. `recognize.py` matches
one query clip against the index. This project models the logic around the numeric
library calls and proves what that logic promises:

- **Window tiling** (`Segments`): window i starts at `i * 6` seconds and lasts 6 seconds.
  The indexer uses 10 windows, the recognizer 8. Each window goes to a feature extractor.
  The extractor is a parameter that answers a vector, "no samples" or a raised error.
  Absent answers are skipped. A raised error stops the scan.
- **Per-song aggregation** (`BuildDb.ExtractSongFeature`): a loop over the ten windows.
  It gives no feature iff every window had no samples. A window that raises makes the song
  raise. If no window raises and the produced vectors have one length, it gives the
  elementwise mean (`Vectors.Mean`) of exactly those vectors; vectors of different lengths
  make it raise.
- **Indexing** (`BuildDb.BuildDatabase`): keep names whose lower-cased form ends in
  `.mp3`, `.wav`, `.flac`, `.m4a` or `.ogg`. Sort them. Aggregate each one. Skip failures.
  Each success appends a feature row and a record `{idx, filename}` with `idx` equal to
  the new row index. So `|meta| == |features|` and `meta[k].idx == k`, with no gap for
  skipped files. The rows are then stacked, which raises when their lengths differ.
- **Recognition** (`Recognize.Recognize`): a loop over the eight query windows. Each
  surviving window gives one similarity per database row. The similarities are averaged per
  song. Songs are ranked by descending average. The verdict is certain iff
  `best >= 0.75 && best - second >= 0.03`. Otherwise the first `min(top_k, n)` ranked songs
  are listed. `top_k` defaults to 3 in `recognize.py`; here it is a parameter.

The three loops are methods proved against specification functions:
`ExtractSongFeature` against `SongFeature`, `BuildDatabase` against `Build`/`Index`,
and `Recognize` against `Recognition`. The lemmas next to those functions state the
properties. Scores and features are `real`. The extractor and the similarity are
parameters.

Edge cases, as `recognize.py` and `build_db.py` handle them:
- An empty database makes `scaler.fit_transform(db)` raise (recognize.py:65-66) before
  any query window is read. The model returns `Err(SCALER_ERROR)` there.
- A database of one song passes the scaler, but `recognize.py` reads `idx_sorted[1]`
  unconditionally (recognize.py:91). Once a window has produced a feature it raises
  `IndexError`. The model returns `Err(INDEX_ERROR)` in that case and has no special
  single-song rule.
- A raised error from the query extractor is not caught in `recognize.py`. It is the
  outcome `Err` of `Recognition`. In `build_db.py` the same error is caught per file and
  the file is skipped.
- `np.mean` over window vectors of different lengths raises. `build_db.py` catches this
  per file, and the model does the same (`INHOMOGENEOUS`, file skipped).
- `np.vstack` of song features of different lengths raises (build_db.py:115). That call is
  outside the per-file `try`, so the build aborts and nothing is saved. The model's outcome
  is `Raised(VSTACK_ERROR)`, and a `Built` database always has rows of one length.
- A negative `top_k` lists nothing, because `range` of a negative number is empty.

## Model

| member | source | states |
|---|---|---|
| `Vectors.MeanBounds` | build_db.py:66 | every entry of the elementwise mean lies within any bounds that hold for all rows' entries |
| `Vectors.MeanOfCopies` | recognize.py:86 | averaging k > 0 copies of one vector gives that vector back |
| `Segments.WindowsTile` | build_db.py:57-59 | the first window starts at 0, every window lasts `duration`, window i+1 starts where window i ends, and earlier windows end before later ones start |
| `Segments.WindowsCover` | recognize.py:71-73 | every instant of [0, count*duration) lies in exactly one window, the one numbered t / duration |
| `Segments.CollectSpec` | build_db.py:57-64 | the scan succeeds iff no window raised; then it keeps the vectors of exactly the windows that produced one, in window order; otherwise the error is that of the first window that raised |
| `Segments.CollectEmpty` | build_db.py:60-64 | the scan keeps nothing iff every window answered "no samples" |
| `Segments.CollectErrSticks` | recognize.py:71-79 | once a window has raised, later windows do not change the outcome |
| `BuildDb.IsAudioFileCharwise` | build_db.py:77-80 | a name is selected iff its last \|e\| characters, lower-cased one by one, spell one of the five extensions e |
| `BuildDb.IsAudioFileIgnoresCase` | build_db.py:79 | upper-casing or lower-casing a name does not change whether it is selected |
| `BuildDb.AudioFiles` | build_db.py:77-80 | the kept names are exactly the listed audio files, each with its multiplicity in the listing |
| `BuildDb.InsertName` | build_db.py:81 | inserting into an ascending list gives an ascending list with the same names plus the new one |
| `BuildDb.SortNames` | build_db.py:81 | the sorted list is a permutation of the input in ascending code-point order |
| `BuildDb.CandidatesSpec` | build_db.py:77-81 | the processed files are exactly the audio files of the listing, with multiplicity, in ascending name order |
| `BuildDb.SongExtractionsAt` | build_db.py:57-59 | the song's window i is the extractor's answer for the window at i*6 s lasting 6 s |
| `BuildDb.SongFeatureSpec` | build_db.py:54-66 | no feature iff all ten windows had no samples; a raising window makes the song raise the error of the first raising window; when no window raises, the song raises only if the produced vectors differ in length, and otherwise its feature is the mean of exactly the vectors of the windows that produced one |
| `BuildDb.ExtractSongFeature` | build_db.py:54-66 | the window loop returns exactly `SongFeature`, including the raised error of the first failing window |
| `BuildDb.Index` | build_db.py:102-106 | after any number of files, there are as many records as rows and record k has idx k |
| `BuildDb.IndexStep` | build_db.py:96-109 | one more file appends one row and the record `{idx: old row count, filename}` on success, and changes nothing on "no feature" or a raised error |
| `BuildDb.IndexSpec` | build_db.py:92-109 | the records name exactly the files whose aggregation succeeded, in file order, numbered 0, 1, 2, ... with no gap, and row k is that file's feature |
| `BuildDb.IndexAscending` | build_db.py:81-106 | files processed in ascending name order give records in ascending name order |
| `BuildDb.IndexNonEmpty` | build_db.py:92-113 | the database gets a row exactly when some processed file yields a feature |
| `BuildDb.BuildSpec` | build_db.py:72-117 | with the directory present: nothing to process iff no listed name is an audio file; nothing written iff there are audio files and none yields a feature; otherwise the rows are stacked, raising iff they differ in length, and the database is written iff they have one length |
| `BuildDb.BuildDatabase` | build_db.py:72-115 | the build ends as `Build` says: missing directory, no audio files, no features, a raised stacking error when the rows differ in length, or a database with at least one row, all rows of one length, as many records as rows and record k with idx k |
| `Recognize.AveragedScoreAt` | recognize.py:78-86 | song j's averaged score is the sum of the windows' similarities to row j divided by the number of surviving windows |
| `Recognize.AveragedScoresBounds` | recognize.py:78-86 | similarities within [lo, hi], such as cosine's [-1, 1], give averaged scores within [lo, hi] |
| `Recognize.Rank` | recognize.py:88 | the ranking lists every row 0..n-1 exactly once, by non-increasing averaged score |
| `Recognize.RankPrefix` | recognize.py:88 | the rows 0..n-1 ranked: each once, by non-increasing score |
| `Recognize.InsertPos` | recognize.py:88 | a new song goes after every song scoring at least as much and before the first scoring less |
| `Recognize.InsertKeepsRanking` | recognize.py:88 | inserting the next row at that position keeps a ranking |
| `Recognize.RankedFirstIsBest` | recognize.py:90-95 | the first ranked song has the maximum score, and the margin to the second is not negative |
| `Recognize.Listed` | recognize.py:107 | `range(min(top_k, n))` has min(top_k, n) elements for a non-negative top_k, and never more than n |
| `Recognize.Decide` | recognize.py:90-110 | given a ranking of at least two songs the verdict is either certain or ambiguous |
| `Recognize.CertainIff` | recognize.py:93-103 | the verdict is certain iff some song scores at least 0.75 and beats every other song by at least 0.03; it then names that song and its score, and the margin is the smallest gap to any other song |
| `Recognize.CertainIgnoresTieOrder` | recognize.py:88-103 | two rankings of the same scores that differ among ties give the same certain-or-not decision and the same certain verdict |
| `Recognize.AmbiguousListing` | recognize.py:104-110 | an uncertain verdict has no winning song and lists max(0, min(top_k, n)) distinct songs, the first ones of the ranking in its order (so by non-increasing score), with their file names and scores; listed songs score at least as high as unlisted ones |
| `Recognize.BoundaryIsCertain` | recognize.py:26-27 | best 0.75 with margin exactly 0.03 is certain: both thresholds are inclusive |
| `Recognize.BelowConfidenceIsAmbiguous` | recognize.py:99 | a best score of 0.7499 is uncertain whatever the margin |
| `Recognize.RecognitionSpec` | recognize.py:54-110 | a missing clip is reported; an empty database raises in the scaler before any window; otherwise no verdict iff all eight windows had no samples; a raising window raises the error of the first raising window; when none raises and some window produced a feature, one song raises `IndexError`, and two or more get the verdict of `Decide` on the scores averaged over exactly the windows that produced a feature, certain iff some song wins on those scores |
| `Recognize.Recognize` | recognize.py:54-110 | the existence check, the scaler's empty-database error, the window loop, average, ranking and decision return exactly `Recognition` |

## Left out

- Audio decoding and feature computation (`librosa.load`, MFCC, chroma, build_db.py:28-48, recognize.py:33-48) are foreign numeric code. They are the extractor parameter, which answers a vector, "no samples" or a raised error per window. So the 32-entry length of a feature vector is not modelled.
- Standardisation and cosine similarity (`StandardScaler`, `cosine_similarity`, recognize.py:65-66, 77-78) are floating-point library routines. They are the `Similarity` parameter, which scores a query vector against one database row. So fitting the scaler once on the database, zero-variance columns, and query/database dimension mismatch are not modelled.
- float32 storage and rounding are not modelled: scores and features are `real`.
  `Recognize.BoundaryIsCertain` is about real scores. In float32, 0.72 is stored as
  0.72000003, so a margin of 0.75 - 0.72 falls just below 0.03.
- File-system and persistence work is not modelled. `os.path.exists` is a boolean parameter. `os.listdir` is the listing parameter. `np.save`/`json.dump` is the `Built` outcome. `np.load`/`json.load` is the database parameter. `os.path.join` is folded into the extractor, which is keyed by file name.
- Console output, the progress counter from `enumerate`, and the command-line entry points are presentation. Their outcome is the `BuildOutcome` and `Report` datatypes.
- Lower-casing covers ASCII letters only. The extension letters are ASCII; other Unicode case mappings are not modelled.
- `Recognize.Rank` puts the lower row first among equal scores. `np.argsort` with its default algorithm does not fix the tie order. `CertainIgnoresTieOrder` shows a certain verdict does not depend on tie order. The songs listed in an uncertain verdict may differ among equal scores.
- Recognize.Recognize: requires one metadata record per feature row, as `BuildDatabase` produces. With fewer records, `recognize.py` would raise `IndexError` when printing a file name, and that case is not modelled.
- Recognize.RecognitionSpec: other exceptions in `recognize.py` (a missing or corrupt database file) are not modelled.
