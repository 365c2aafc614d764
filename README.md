# video-sweep in Dafny

video-sweep scans a source directory and sorts the video files into a
series output and a movie output. A video is a series episode when its
file name contains a season/episode code (`S01E02`, `s1e2`, ...).
Optionally, it moves the remaining files into `source/Deleted`. It can
also look a film up in the OMDb web service and suggest a
`Title (Year)` name for it.

This project models the core of that program and proves properties of
the model:

- `text.dfy` (`Text`): ASCII helpers: `lower`, last index of a character,
  `" ".join`.
- `paths.dfy` (`Paths`): `os.path.basename` and `os.path.join` with POSIX
  semantics.
- `classifier.dfy` (`Classifier`): `classify_video`, with a matcher for
  `[Ss]\d+[Ee]\d+` proved equal to the regular expression's meaning.
- `finder.dfy` (`Finder`): `VIDEO_EXTENSIONS`, `splitext`, and
  `find_videos` as nested loops over an `os.walk` listing.
- `omdb.dfy` (`Omdb`): `query_omdb`, its inner `fuzzy_search`, and
  `get_suggested_name`.
  - The HTTP endpoint is a function `fetch` from query to response.
  - `SequenceMatcher.ratio` is a function `ratio`.
  - The methods also return the queries they send, in order.
- `filesystem.dfy` (`Fs`): a disk of files and directories, and a class
  `FileSystem` whose methods are `makedirs`, `exists` and a move.
- `renamer.dfy` (`Renamer`): `rename_and_move`.
- `cli.dfy` (`Cli`): the body of `main`:
  - routing each video and recording its reported target;
  - the `rename_and_move` calls;
  - the cleanup loop;
  - the exit status.

Each method is proved against a function on values (`...On`, `...Outcome`,
`VideoPaths`, `BestCandidate`). The lemmas state what those functions mean.

## Model

| member | source | states |
|---|---|---|
| Paths.BasenameIsSuffix | src/video_sweep/classifier.py:7 | `basename` is the final component: a suffix of the path with no `/` that is either the whole path or follows a `/` |
| Paths.BasenameOfJoin | src/video_sweep/renamer.py:6-8 | a name without separators comes back unchanged from `basename(join(dir, name))` |
| Paths.JoinExtends | src/video_sweep/cli.py:35-39 | `join(dir, name)` with a relative name starts with `dir` and ends with `name` |
| Classifier.SearchFrom | src/video_sweep/classifier.py:9 | the search returns the leftmost position where `[Ss]\d+[Ee]\d+` matches, and none when it matches nowhere |
| Classifier.SearchDecides | src/video_sweep/classifier.py:9 | the search succeeds iff the pattern occurs somewhere in the name |
| Classifier.ClassifyVideo | src/video_sweep/classifier.py:5-11 | the result is always "series" or "movie" |
| Classifier.ClassifyVideoDecides | src/video_sweep/classifier.py:5-11 | "series" iff the basename contains an episode code |
| Classifier.ClassifyIgnoresDirectory | src/video_sweep/classifier.py:7 | directory components never change the classification |
| Classifier.SeriesCodeAnywhere | src/video_sweep/classifier.py:9 | the code may sit anywhere in the name, with digit runs of any length |
| Classifier.NoDigitsIsMovie | src/video_sweep/classifier.py:9-11 | a name without digits is a movie |
| Classifier.ExampleShortCode | src/video_sweep/classifier.py:9 | `S1E2` is a series |
| Classifier.ExampleLongCode | src/video_sweep/classifier.py:9 | `S001E0123` is a series |
| Classifier.ExampleLettersOnly | src/video_sweep/classifier.py:9-11 | `Show SXXEYY.mkv` is a movie |
| Finder.NotAllDotsIff | src/video_sweep/finder.py:11 | the leading-dots test of `splitext` holds iff some character before the last dot is not a dot |
| Finder.ExtensionIsSuffix | src/video_sweep/finder.py:11 | the extension is a suffix of the name; when it is not empty, it is a dot followed by neither a dot nor a separator |
| Finder.IsVideoFileIff | src/video_sweep/finder.py:4-11 | a file is a video iff its name ends, case-insensitively, with `.mp4`, `.mkv` or `.avi` after a final component that has a non-dot character before that dot |
| Finder.ExampleUpperCase | src/video_sweep/finder.py:11 | `movie.MP4` is a video |
| Finder.ExampleMixedCase | src/video_sweep/finder.py:11 | `show.MkV` is a video |
| Finder.ExampleHiddenName | src/video_sweep/finder.py:11 | the hidden file `.avi` has no extension and is not a video |
| Finder.ExampleText | src/video_sweep/finder.py:11 | `doc.txt` is not a video |
| Finder.FindVideos | src/video_sweep/finder.py:6-13 | the nested loops return exactly `VideoPaths(walk)` |
| Finder.SelectedMember | src/video_sweep/finder.py:10-12 | a path is selected from a listing iff it is the join of the root with one of its passing files |
| Finder.SelectedInWalkMember | src/video_sweep/finder.py:9-12 | a path is returned iff it is the join of some walked root with one of its passing files |
| Finder.NothingSelected | src/video_sweep/finder.py:8-13 | the result is empty iff no walked file passes the test |
| Finder.SelectedAppend | src/video_sweep/finder.py:10-12 | files keep their listing order |
| Finder.SelectedInWalkAppend | src/video_sweep/finder.py:9-12 | roots keep the walk's order: the result for a concatenated walk is the concatenation of the results |
| Finder.SelectedCount | src/video_sweep/finder.py:10-12 | a listing yields one path per passing file |
| Finder.SelectedInWalkCount | src/video_sweep/finder.py:9-12 | the result has one path per passing file across the whole walk |
| Omdb.SuggestedName | src/video_sweep/omdb.py:103-113 | a name exists iff the data is present with non-empty `Title` and `Year`, and it is then `Title (Year)` |
| Omdb.SuggestedNameRoundTrip | src/video_sweep/omdb.py:111-112 | reading the name back yields the title and the year when the year has no `(` |
| Omdb.SuggestedNameExamples | src/video_sweep/omdb.py:107-113 | concrete results: a full record, a missing year, a missing title, an empty record, no record |
| Omdb.AcceptanceByYear | src/video_sweep/omdb.py:56-67 | without a year a candidate needs ratio 0.9; with a year, a same-year candidate passes above ratio 0.6 and fails below it, and another year's candidate fails below ratio 1 |
| Omdb.BestCandidateIsFirstMaximum | src/video_sweep/omdb.py:48-65 | the selected candidate has the greatest score, above 0, and no earlier candidate ties it; no candidate is selected when no score exceeds 0 |
| Omdb.SelectBest | src/video_sweep/omdb.py:48-65 | the scan returns `BestCandidate` of the scores |
| Omdb.FuzzySearch | src/video_sweep/omdb.py:42-78 | the method returns the result and queries of `FuzzyOutcome` |
| Omdb.FuzzyOutcomeMeaning | src/video_sweep/omdb.py:42-78 | a search is sent first; a record is returned only from an id lookup of a first best candidate that clears the threshold, has an `imdbID`, and is found |
| Omdb.FuzzyAcceptsFirstBest | src/video_sweep/omdb.py:63-77 | the converse: when the first best candidate clears the threshold, has an `imdbID` and its id lookup is found, that record is returned after exactly the search and the id lookup |
| Omdb.LettersEnd | src/video_sweep/omdb.py:87 | the letter run starting at `k` is maximal |
| Omdb.LetterRuns | src/video_sweep/omdb.py:87 | every word found is non-empty |
| Omdb.LettersOfLetterPrefix | src/video_sweep/omdb.py:87 | the letters of a string that starts with letters begin with that prefix |
| Omdb.RunSplitSkip | src/video_sweep/omdb.py:87 | a non-letter in front of the text adds no word |
| Omdb.RunSplitCons | src/video_sweep/omdb.py:87 | a maximal run of letters in front of the text adds exactly that run as the first word |
| Omdb.RunSplitFrom | src/video_sweep/omdb.py:87 | the words from any position on are the maximal letter runs of the rest of the text, in order |
| Omdb.LetterRunsAreMaximalRuns | src/video_sweep/omdb.py:87 | the words are exactly the maximal runs of ASCII letters, left to right: each a slice of the title with no letter just before or after it, the slices in order and apart, and every letter of the title in one |
| Omdb.LetterRunsSpellLetters | src/video_sweep/omdb.py:87 | the words spell exactly the ASCII letters of the title, in order |
| Omdb.NoLettersIff | src/video_sweep/omdb.py:87 | a string has no letters iff none of its characters is a letter |
| Omdb.NoLettersNoWords | src/video_sweep/omdb.py:87-88 | there are no words iff the title has no ASCII letter |
| Omdb.PrefixTitlesAt | src/video_sweep/omdb.py:95-96 | the shortened titles are the joins of the first i words, for i from n down to 2, and there are n - 1 of them |
| Omdb.SearchPlanStart | src/video_sweep/omdb.py:80-93 | the plan starts with the full title; a title without words is searched only once; next comes the simplified title when it differs |
| Omdb.SearchPlanPrefixes | src/video_sweep/omdb.py:88-99 | after those, the plan holds exactly the word prefixes, so its length is 1 or 2 plus max(0, words - 2) |
| Omdb.NonAlphabeticTitleExample | src/video_sweep/omdb.py:87-88 | `1234567890!@#$` is searched only as itself |
| Omdb.FirstHitMeaning | src/video_sweep/omdb.py:80-100 | nothing is found iff every planned search fails; otherwise the result is that of the first planned search that succeeds |
| Omdb.SearchShorterTitles | src/video_sweep/omdb.py:95-100 | the prefix loop returns `FirstHit` over the word prefixes |
| Omdb.QueryOmdb | src/video_sweep/omdb.py:22-100 | the method returns the result and queries of `QueryOutcome` |
| Omdb.NoKeyNoRequest | src/video_sweep/omdb.py:27-29 | without an API key nothing is sent and nothing is found |
| Omdb.DirectLookupFirst | src/video_sweep/omdb.py:30-44 | the title lookup goes first; a found record is returned with no other query; otherwise the next query is a search for the full title |
| Fs.ChainUpToMember | src/video_sweep/renamer.py:7 | the directories `makedirs` adds are exactly the path and its ancestors |
| Fs.FileInChainIff | src/video_sweep/renamer.py:7 | `makedirs` finds a file in the way iff a file sits at the path or at an ancestor |
| Fs.MakeDirsEffect | src/video_sweep/renamer.py:7 | `makedirs(p, exist_ok=True)` changes no file; it raises iff p is empty or a file is in the way, and then changes nothing; otherwise p and all its ancestors are directories and no directory is lost |
| Fs.MoveRelocates | src/video_sweep/renamer.py:13 | a move takes the content to the target, replacing whatever file was there, removes the source and leaves every other path alone |
| Fs.FileSystem.MakeDirs | src/video_sweep/renamer.py:7 | the new state and the raise flag are those of `MakeDirsOn` |
| Fs.FileSystem.Move | src/video_sweep/renamer.py:13 | the new state and the success flag are those of `MoveOn` |
| Renamer.TargetPathKeepsName | src/video_sweep/renamer.py:6-8 | the target keeps the file's basename |
| Renamer.RenameAndMove | src/video_sweep/renamer.py:4-16 | the new state and the report are those of `RenameAndMoveOn` |
| Renamer.TargetDirectoryMade | src/video_sweep/renamer.py:7 | the call raises iff `makedirs` does, changing nothing; otherwise the target directory exists afterwards, dry run included |
| Renamer.DryRunMovesNothing | src/video_sweep/renamer.py:9-11 | a dry run changes no file and reports the target it would use |
| Renamer.MoveOutcome | src/video_sweep/renamer.py:12-16 | the move succeeds iff the system allows it, the file exists and no directory is at the target; success moves the file; a failure is reported and changes no file |
| Renamer.MoveReplacesExistingTarget | src/video_sweep/renamer.py:12-13 | nothing checks the target first: a file already there is replaced by the moved one |
| Cli.RowMeaning | src/video_sweep/cli.py:29-44 | each entry keeps the video and its kind (series iff there is an episode code); its target is under the kind's output directory, named after the file, or after the suggested name for a movie that has one |
| Cli.ReportedMovieTargetDiffers | src/video_sweep/cli.py:32-45 | for a renamed movie the reported target differs from where `rename_and_move` puts the file, which keeps the original name |
| Cli.RunUntilRaiseRows | src/video_sweep/cli.py:28-45 | the loop records one entry per item reached, in order; all of them unless a step raises, which ends the loop after that item |
| Cli.RunUntilRaiseKeepsFiles | src/video_sweep/cli.py:28-45 | a loop whose steps keep the files keeps them |
| Cli.VideoPassRows | src/video_sweep/cli.py:28-45 | `results` has one entry per handled video, in scan order: all of them unless `rename_and_move` raised |
| Cli.DryRunVideoPassMovesNothing | src/video_sweep/cli.py:45 | in a dry run the video loop moves no file |
| Cli.CleanupKeepsOtherFiles | src/video_sweep/cli.py:52-65 | cleanup creates no directory and never overwrites: every other file stays, with its content |
| Cli.DeletedTargetFixed | src/video_sweep/cli.py:53 | a file already in the Deleted directory is its own target |
| Cli.CleanupPassAppend | src/video_sweep/cli.py:52-65 | the cleanup loop over two lists in turn is the loop over the first and then over the second |
| Cli.CleanupLeavesStuckFile | src/video_sweep/cli.py:55-65 | a file that cannot be moved (a dry run, an existing target that is skipped, or a refused rename whose error is caught) stays in place with its content, while the loop goes on |
| Cli.CleanupMovesFreeFile | src/video_sweep/cli.py:52-63 | outside a dry run, a file with a free, allowed and unshared target ends up at `Deleted/<basename>` with its content and is gone from its old path |
| Cli.CleanupOnlyFillsTargets | src/video_sweep/cli.py:52-65 | every file cleanup adds sits at the Deleted target of one of the cleaned-up files |
| Cli.DryRunCleanupMovesNothing | src/video_sweep/cli.py:55-56 | a dry-run cleanup changes nothing on disk |
| Cli.DeletedRowsMeaning | src/video_sweep/cli.py:52-54 | `deleted_results` has one entry per non-video file, in order, each targeting the same name inside the Deleted directory |
| Cli.SweepOutcome | src/video_sweep/cli.py:28-65 | status is 1 iff `rename_and_move` or creating the Deleted directory raised; without `--clean-up` nothing is cleaned; with it, the Deleted directory is made when there are non-video files, and every one of them gets an entry |
| Cli.DryRunSweepMovesNothing | src/video_sweep/cli.py:28-65 | a dry run moves no file at all |
| Cli.HandleVideo | src/video_sweep/cli.py:29-45 | one round records `RowFor` and has the effect of `VideoStep` |
| Cli.ProcessVideos | src/video_sweep/cli.py:28-45 | the loop's final state, results and raise flag are those of `VideoPass` |
| Cli.CleanUp | src/video_sweep/cli.py:52-65 | the loop's final state is `CleanupPass` and its entries are `DeletedRows` |
| Cli.Sweep | src/video_sweep/cli.py:28-65 | the final state, both lists and the status are those of `SweepOn` |

## Left out

- Only POSIX paths are covered. Joins and basenames follow `posixpath`, and
  no path is normalised, so `a/b` and `a//b` are different paths.
- Only ASCII is covered. `lower()`, `\d` and `[A-Za-z]` are modelled on ASCII
  characters; Unicode digits and case mappings are not.
- The classifier follows the code's `\d+`, which allows digit runs of any
  length.
- Floating point is modelled as exact reals. `AcceptanceByYear` stays clear
  of the thresholds themselves, where binary rounding decides.
- `SequenceMatcher.ratio` is the function parameter `ratio`; its algorithm
  is not modelled.
- The HTTP endpoint is the function parameter `fetch`, so the same query
  always gets the same response. Network errors and invalid JSON, which
  raise in the source, are not modelled.
- `get_api_key_from_config` (the environment variable and `config.toml`) is
  not modelled. The key is a parameter, with "" for a missing or empty key.
- An integer `year` is taken in its `str()` form.
- `find_files` is not part of this model: it is imported by `main` but not
  defined in `finder.py`. The scan reaches `main` as the lists `videos` and
  `nonVideos`.
- `movie_new_filename` is not part of this model. It is the parameter
  `newName`, with "" for a falsy result, and it is assumed not to raise.
- `os.walk` is the input `walk`. Its traversal order, unreadable
  directories and symbolic links are not modelled.
- Argument parsing, printed messages and the `rich` tables are not
  modelled. The tables only display `results` and `deleted_results`, which
  the model keeps.
- Whether the operating system permits a move (permissions, other devices,
  locks) is the oracle `osAllows` / `allows(src, dst)`.
- A move onto an existing directory counts as a failure. `shutil.move` would
  move into that directory instead.
- The model does not separate `os.rename` from `shutil.move`.
- `makedirs` fails only on an empty path or a file in the way; permission
  errors are not modelled.
- Renamer.RenameAndMove: its `kind` argument is accepted and ignored, as in
  the source.
- Cli.SweepOutcome: once `rename_and_move` raises, `main` prints the error
  and exits with status 1; the printing is not modelled. Exceptions other
  than those of `makedirs` are not modelled.
- File contents are opaque strings, and only the files and directories the
  program touches are modelled.
