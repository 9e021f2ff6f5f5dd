# musicbox site generator, modelled in Dafny

musicbox turns a directory of MP3 files into a static music site. Its one
script, `index.js`, does the following:

- It reads `key=value` settings from the command line and works out the
  template, output and music directories.
- It finds the MP3 files and hands each one to an ID3 tag decoder.
- For every decoded file, a success callback rewrites the tags into a
  track record:
  - lyrics become HTML with `<br>` line breaks;
  - the comment frame becomes its text;
  - the cover picture becomes a base 64 `data:` URI;
  - the file path loses the working directory.
- The callback files the track under its album and keeps the album's
  tracks sorted by track number. It then refreshes the album's page entry
  under `/albums/<tidy name>`.
- The `complete` counter counts the successful decodes only, because the
  error callback never calls `complete`. When that count reaches the
  number of files found, it:
  - replaces the albums by a list sorted by year, newest first;
  - writes one page per page path (names with the same tidy form share one);
  - writes the album index, plus an optional copy of it.

This project models that core. The modules are:

- `Helpers`: `tidyURL` and the `trimString` template helper.
- `Config`: the argument loop and the directory defaults.
- `Tracks`: the per-file rewriting of the decoded tags.
- `Aggregate`: the database as values, plus:
  - what one callback does to it;
  - the state after any sequence of callbacks;
  - the final album list;
  - the write plan of the final phase;
  - the counter arithmetic.
- `Callbacks`: the counter and final-phase bookkeeping as values.
- `Site`: the glob callback's state as a class, `Site.Database`. Its
  methods are the success callback and `complete`. `Site.Run` delivers one
  callback per file.

The JavaScript semantics the script depends on are modelled in modules of
their own:

- `JsStrings`: `indexOf`, `split`, `join` and `String(undefined)`.
- `JsNumber`: `parseInt` without a radix.
- `JsObject`: the key order of `Object.keys`.
- `StableSort`: `Array.prototype.sort` with a subtracting comparator.
- `Base64`: `btoa`, and a strict decoder of padded base 64 text that
  inverts it. A browser decodes a `data:` URI more leniently, but agrees
  with this decoder on everything `btoa` produces.
- `Collections`: small sequence and map facts.

Objects the script updates in place are modelled as follows:

- `database.albums` and `database.paths` are maps, each paired with its
  keys in creation order, because `Object.keys` depends on that order.
- The page entry of an album shares the album's `tracks` array in the
  script. In the model, the callback rewrites the page entry after every
  push, so the entry and the album always agree. `Aggregate.Consistent`
  states this and every callback keeps it.
- The files the final phase writes are recorded as a sequence of steps
  (`MakeDirectory`, `WriteFile` with the data the page is rendered from).

Environment values are parameters:

- the working directory (`process.cwd()`);
- the path separator (`path.sep`);
- the script's own directory (`__dirname`);
- the files found;
- the order the tag decoder calls back in.

## Model

| member | source | states |
|---|---|---|
| Helpers.TidyURL | index.js:15 | the tidy form has the length of the name |
| Helpers.TidyURLAt | index.js:15 | each position keeps a letter, digit, '-' or '_' and holds '_' otherwise |
| Helpers.TidyURLOfSafe | index.js:15 | a name made only of URL-safe characters is left unchanged |
| Helpers.TidyURLIdempotent | index.js:15 | tidying twice is the same as tidying once |
| Helpers.TrimString | index.js:45-49 | a string no longer than `count` is returned whole. A longer one is cut to its first `count` characters (0 when `count` is negative) followed by "..." |
| Helpers.TrimStringIdempotent | index.js:45-49 | trimming an already trimmed string changes nothing |
| Config.ParseArgs | index.js:22-29 | the argument loop builds exactly the configuration `ConfigOf` gives for the arguments, taken in order |
| Config.SettingOf | index.js:24-26 | an argument `k=v` or `k=v=...` sets key `k` to `v`, the text between the first and second '=' |
| Config.ApplyArgWithoutEquals | index.js:24 | an argument with no '=' leaves the configuration unchanged |
| Config.ApplyArgKey | index.js:22-29 | one argument sets key `k` exactly when it names it, and leaves every other key's value alone |
| Config.ConfigOfKey | index.js:22-29 | a key is set exactly when some argument names it. Its value is the one given by the last argument that names it |
| Config.ClearedKey | index.js:31-33 | a last argument `key=` leaves the key not given, because "" is falsy |
| Config.EmptyValueKeepsDefaults | index.js:31-33 | `output=`, `music=` and `templates=` fall back to the working directory, `<cwd>/music` and `<script dir>/templates` |
| Config.OutputGiven | index.js:32 | `output=<dir>` with a non-empty dir puts the output at `<cwd>/<dir>` |
| JsStrings.IndexOf | index.js:24 | a found position leaves room for the pattern |
| JsStrings.IndexOfSpec | index.js:24 | `indexOf` returns the first occurrence, and -1 exactly when there is none |
| JsStrings.IndexOfIs | index.js:24 | an occurrence with none before it is the one `indexOf` returns |
| JsStrings.Split | index.js:25 | a split gives one piece when the separator is absent and at least two when it is present |
| JsStrings.SplitAt | index.js:25 | the first piece of a split is the text before the first occurrence |
| JsStrings.JoinSplit | index.js:183 | joining the pieces of a split with the same separator gives the string back |
| JsStrings.SplitPiecesAreFree | index.js:25 | no piece of a split contains the separator |
| JsStrings.SplitLeading | index.js:185 | a string that starts with the separator and has no other occurrence splits into "" and the rest |
| JsNumber.DigitRun | index.js:74 | the digit run is the longest prefix made of digits of the radix |
| JsNumber.ParseIntOfIntToString | index.js:193 | `parseInt` reads back any integer written in decimal. Whatever follows it is ignored unless it starts with a digit or an 'x' (so "3/12" gives 3) |
| JsNumber.ParseIntSkipsWhiteSpace | index.js:74 | leading white space does not change what `parseInt` reads |
| JsNumber.ParseIntUndefined | index.js:74-76 | `parseInt` of "undefined" and of "" is NaN |
| JsObject.ArrayIndexOfDecimal | index.js:69 | the decimal text of an integer up to 2^32-2 is an array index with that value |
| JsObject.OwnKeysPermutation | index.js:69 | `Object.keys` lists every key exactly as often as it was created |
| JsObject.OwnKeysIndicesFirst | index.js:69 | array-index keys come first, in ascending numeric order |
| JsObject.OwnKeysInCreationOrder | index.js:92 | without array-index keys, `Object.keys` lists the keys in creation order |
| StableSort.Insert | index.js:191-195 | an insertion adds exactly the one element |
| StableSort.SortByKey | index.js:84-88 | the sort result is a permutation of its input |
| StableSort.InsertStable | index.js:191-195 | an insertion keeps the relative order of every class of equal keys, in the order the model chooses when a key is NaN |
| StableSort.SortByKeyStable | index.js:84-88 | the sort is stable: the elements with any one key keep their relative order. With a NaN key present this holds of the model's chosen order, not of every engine |
| StableSort.SortedTiesUnique | index.js:84-88 | two sequences ordered by numeric keys that list each class of equal keys in the same order are equal |
| StableSort.SortByKeyUnique | index.js:84-88 | when every key is a number, any sequence ordered by key that keeps equal keys in input order is this sort's result, so the model gives the one order every stable sort gives |
| StableSort.SortByKeySorted | index.js:84-88 | when every key is a number, the result is non-decreasing by key |
| StableSort.SortByKeyAscending | index.js:191-195 | when every key of the result is a number, it is sorted and its first element has the least key |
| StableSort.SortByKeyOfSorted | index.js:191-195 | a sequence already in order is left unchanged |
| StableSort.SortByKeySettled | index.js:191-195 | no element of a sort result is directly followed by one the comparator puts before it |
| StableSort.SortByKeyOfSettled | index.js:191-195 | a settled sequence is left unchanged |
| StableSort.ResortAppend | index.js:187-195 | sorting again after a push gives the same result as one sort of everything pushed, in push order |
| Base64.AlphabetRoundTrip | index.js:174-175 | each alphabet character decodes to the value it encodes |
| Base64.SextetRoundTrip | index.js:174-175 | each six-bit value's character decodes back to it |
| Base64.Encode | index.js:174-175 | the encoding has four characters per started group of three bytes |
| Base64.DecodeEncode | index.js:174-175 | decoding the encoding of any bytes gives the bytes back |
| Base64.BinaryString | index.js:170-173 | the binary string has one code unit per byte, each below 256 |
| Base64.BtoaRoundTrip | index.js:170-175 | decoding `btoa` of the binary string of any bytes gives the bytes back |
| Tracks.NewlinesToBrHasNoBreaks | index.js:153 | the rewritten lyrics hold no CR or LF |
| Tracks.NewlinesToBrOfPlain | index.js:153 | text without CR or LF is unchanged |
| Tracks.NewlinesToBrAtBreak | index.js:153 | the text before the first terminator is kept, and that terminator (CR LF, LF or a lone CR) becomes exactly one `<br>` |
| Tracks.NewlinesToBrOfBreak | index.js:153 | a leading CR LF, LF or lone CR becomes one `<br>` |
| Tracks.BinaryStringOf | index.js:170-173 | the character-by-character loop builds the binary string of the picture bytes |
| Tracks.DirnameSlash | index.js:183 | with '/' as the separator, the working directory is used unchanged |
| Tracks.StripDirRoundTrip | index.js:185 | a file below the working directory whose remaining path does not contain the directory text again keeps the part after it, and the directory followed by that part is the file again |
| Tracks.StripDirRepeated | index.js:185 | every occurrence of the directory text is removed, not only the leading one: a file `<dir><dir><rest>` is recorded as `<rest>`, so the round trip fails for it |
| Tracks.StripDirOutside | index.js:185 | a path in which the working directory does not occur is kept whole |
| Tracks.Prepare | index.js:132-185 | the rewritten record keeps the decoded album, artist, title, track number and year |
| Tracks.PreparedPictureDecodes | index.js:167-179 | the cover becomes "data:image/jpeg;base64," followed by text that decodes to exactly the picture bytes |
| Tracks.PreparedComment | index.js:159-163 | a comment frame is replaced by its text and a non-empty plain-string comment by undefined; an absent or empty comment stays. A non-empty text comment in the record always comes from a frame |
| Tracks.PreparedLyricsHaveNoBreaks | index.js:145-155 | a non-empty lyrics frame becomes its text with line breaks turned into `<br>`, so it holds no CR or LF |
| Aggregate.FiledAlbum | index.js:134-195 | the album holds its old tracks and the new one. It keeps its link, which is the tidied name when the album is new |
| Aggregate.FiledAlbumWellFormed | index.js:134-195 | a filed album is well formed: its link is the tidied name, it has tracks, all its tracks are its own, and they are settled by track number |
| Aggregate.AddTrackKeys | index.js:134-141 | a callback adds exactly its album's key and its page path's key |
| Aggregate.AddTrackEntry | index.js:134-203 | the album holds the old tracks plus the new one and keeps its link. Its page names it, lists its tracks, and takes its artist and its title (the album name, a bar, then the artist) from the track that just arrived |
| Aggregate.AddTrackPage | index.js:197-203 | a callback creates or rewrites only the page entry at its own page path, with its own track's album, artist and title |
| Aggregate.AddTrackOtherPage | index.js:197-203 | a callback leaves every other page entry unchanged |
| Aggregate.AddTrackOtherAlbum | index.js:134-195 | a callback leaves every other album unchanged |
| Aggregate.AddTrackKeepsConsistent | index.js:130-205 | every callback keeps the database consistent: key orders list each key once, albums are well formed, and pages belong to their albums |
| Aggregate.AggregatedConsistent | index.js:127-213 | the database is consistent after any sequence of callbacks |
| Aggregate.AddTrackAlbums | index.js:134-141 | a callback creates its own album when that album is missing, and no other |
| Aggregate.AddTrackTracks | index.js:187-195 | a callback pushes its track onto its own album, re-sorts that album, and touches no other album's tracks |
| Aggregate.AggregatedAlbums | index.js:134-141 | an album exists exactly when some decoded track names it |
| Aggregate.AggregatedTracks | index.js:187-195 | an album's track list is one stable sort by track number of all its tracks, in arrival order |
| Aggregate.AggregatedPage | index.js:197-203 | a page entry exists exactly when some track's album has that page path, and its album, artist and title are those of the last such track to arrive |
| Aggregate.AlbumTracksPermutation | index.js:187-195 | an album's track list holds exactly its tracks |
| Aggregate.AlbumTracksStable | index.js:191-195 | tracks with the same number, or with no number, keep their arrival order in the model's chosen order. When every number parses this is what any engine does (see AlbumTracksUnique) |
| Aggregate.AlbumTracksAscending | index.js:191-195 | when every track number parses, the list ascends by number and its first track has the lowest number |
| Aggregate.AlbumTracksUnique | index.js:187-195 | when every track number of an album parses, the album's list is the only order a stable sort can give: ascending by number, equal numbers in arrival order |
| Aggregate.CollidingAlbumsSharePage | index.js:197-203 | two names with one tidy form share a page path. The album whose track arrives last owns the page; the other album keeps its entry but has no page |
| Aggregate.Summaries | index.js:69-83 | the album list has one summary per key |
| Aggregate.Listing | index.js:69-83 | the listing has one entry per album key |
| Aggregate.Finalize | index.js:69-88 | the final list is a permutation of the listing |
| Aggregate.ConsistentListable | index.js:69-74 | in a consistent database, every listed album exists and has a first track |
| Aggregate.FinalizeNewestFirst | index.js:84-88 | the album list is ordered by year, newest first |
| Aggregate.FinalizeStable | index.js:84-88 | albums of the same year keep the order `Object.keys` gives them |
| Aggregate.FinalizeUnique | index.js:84-88 | every year is a number, so the album list is the only order a stable sort by year, newest first, can give |
| Aggregate.ListingSummaries | index.js:69-83 | each listing entry is the summary of the album it names |
| Aggregate.ListingCovers | index.js:69-83 | every album has its summary in the listing |
| Aggregate.FinalizeListsEveryAlbum | index.js:69-88 | every album appears exactly once, with its name, link, tracks and the year of its first track |
| Aggregate.DistinctCount | index.js:69 | a key order that lists each key once has one entry per key |
| Aggregate.AlbumYearOfText | index.js:74 | a year tag that starts with an integer ("2009", "2009-05-01") gives that year |
| Aggregate.AlbumYearMissing | index.js:74-80 | an album whose first track has no year tag gets the year 0 |
| Aggregate.PagesAreNotIndices | index.js:197 | page paths start with '/', so none is an array index |
| Aggregate.PagePathOfEmpty | index.js:104-118 | only the album "" has the page path "/albums/". Its page file is `<output>/albums//index.html`, which on disk is the album index file |
| Aggregate.PagesInCreationOrder | index.js:92 | `Object.keys(database.paths)` lists the pages in creation order |
| Aggregate.AlbumPageSteps | index.js:92-106 | there are two steps per page key |
| Aggregate.AlbumPageStepsAt | index.js:92-106 | for the k-th page key, step 2k makes its directory and step 2k+1 writes its `index.html` from the page entry |
| Aggregate.IndexSteps | index.js:108-121 | the index steps end with writing `<output>/albums/index.html` from the album list, without the copy flag |
| Aggregate.PageTargetsDiffer | index.js:104 | distinct page paths give distinct file names |
| Aggregate.WritePlanPageAt | index.js:92-106 | the final phase writes the k-th page as its step 2k+1 |
| Aggregate.WritePlanWritesEveryPage | index.js:92-106 | the final phase writes, at every album's page path, the page entry stored there (for names with the same tidy form, the page of the album whose track arrived last) |
| Aggregate.AlbumPageTargetsDistinct | index.js:92-106 | no two page writes share a path string |
| Aggregate.AlbumPageTargetsNotIndex | index.js:104-118 | no page write's path string equals the album index's path string (the file may still be the same, see PagePathOfEmpty) |
| Aggregate.ConsistentWritable | index.js:92-121 | a consistent database is ready for the final phase |
| Aggregate.WritePlanIs | index.js:92-121 | the final phase writes the album pages in creation order, then the index files |
| Aggregate.WritePlanSplit | index.js:92-121 | the pages come first, in creation order; no two page writes share a path string, and none has the index's path string |
| Aggregate.WritePlanEndsWithIndex | index.js:118-121 | the last step writes the album index from the final album list |
| Aggregate.DecodedSnoc | index.js:205 | a decoded file adds one success and one prepared track |
| Aggregate.FailedSnoc | index.js:208-210 | a failed file is not counted and adds no track |
| Aggregate.SuccessesAtMost | index.js:60-65 | the counter never exceeds the number of callbacks, and reaches it exactly when none failed |
| Aggregate.FiringsCount | index.js:60-65 | with no more callbacks than files, the counter test has passed once if the counter is full and never otherwise |
| Aggregate.NotYetFired | index.js:65 | before the last file's callback, the test has not passed |
| Aggregate.FinalizeFiresOnce | index.js:60-65 | the final phase runs at most once. It runs exactly when there is at least one file and none failed to decode |
| Aggregate.FinalizeFiresLast | index.js:65 | when the final phase runs, it runs on the last callback |
| Aggregate.LookupAsWritten | index.js:134 | `database.albums[name]` finds an own entry exactly for a created album, and is undefined exactly when the name is neither created nor an inherited member |
| Aggregate.AddTrackAsWritten | index.js:134-187 | the callback as written throws exactly for an uncreated album named after an `Object.prototype` member, and otherwise equals `AddTrack` |
| Aggregate.ConstructorAlbumThrows | index.js:134-187 | a track of a new album "constructor" makes the callback as written throw, while `AddTrack` files it |
| Callbacks.TallyStep | index.js:60-65 | a callback before the last keeps the counter at the number of successes and the run count at the number of firings. When the phase ran, it recorded the final list and the write plan |
| Callbacks.SucceedStep | index.js:130-205 | a success callback keeps the run's state matching the events delivered so far |
| Site.Database.constructor | index.js:55-60 | the run starts with empty albums and paths, counter 0 and no steps |
| Site.Database.OnSuccess | index.js:130-206 | the database becomes `AddTrack` of the prepared track and stays consistent. `complete` counts the callback |
| Site.Database.PrepareTrack | index.js:132-185 | the method builds the record `Prepare` describes |
| Site.Database.AddToAlbum | index.js:134-203 | the database becomes `AddTrack` of the track and stays consistent |
| Site.Database.PageSteps | index.js:92-106 | the page loop takes the steps `AlbumPageSteps` gives for the pages in creation order |
| Site.Database.IndexSteps | index.js:108-121 | the method takes the index steps of `Aggregate.IndexSteps` |
| Site.Database.FinalPhase | index.js:69-121 | the album list becomes the final list, and the write plan is appended to the steps |
| Site.Database.Complete | index.js:60-125 | the counter goes up by one. On the last file the final phase runs once; otherwise nothing else changes |
| Site.Database.Deliver | index.js:127-211 | one more callback, success or error, keeps the run's state matching the events delivered |
| Site.Database.Succeed | index.js:130-207 | a success callback keeps the run's state matching the events delivered |
| Site.Run | index.js:53-215 | the result is derived from the events. The database holds every decoded track and the counter is the number of successes. The final phase ran at most once, exactly when there are files and none failed; it then produced the final list and the write plan, and otherwise nothing was written |

## Left out

- File discovery with `glob` is not modelled. The files found are a
  parameter of `Site.Run`.
- ID3 tag decoding with jsmediatags is not modelled. The decoded tags of
  each file, or its failure, are a parameter (`Aggregate.Event`).
- The order of the decoder's callbacks is not modelled. It is given by the
  event sequence, and each file has one callback. Callbacks never
  interleave in JavaScript, so a sequence covers every schedule.
- Handlebars compilation and rendering are not modelled. This includes the
  header and footer partials and reading the template files from the
  template directory. A written page is recorded as the data it is
  rendered from (`Aggregate.Page`), not as HTML.
- The `SafeString` wrapping of `trimString`'s result is not modelled.
- File system effects and their errors are not modelled. A `mkdirp`
  failure is swallowed by the source. Write errors would throw. The model
  records the steps in order.
- `console.log` in the error callback is left out. Only its effect is
  modelled, which is that the callback is not counted.
- `process.cwd()`, `path.sep` and `__dirname` are parameters.
- `Tracks.Tags`: an absent album tag is not modelled. The album is always a
  string, because `tidyURL(undefined)` throws and what follows depends on
  the decoder library.
- A non-string tag value (a number, for instance) is not modelled either.
- `JsNumber.ParseInt` gives the exact integer. A double loses precision
  above 2^53, and that rounding is not modelled.
- `StableSort.SortByKey`: the comparison `album2.year - album1.year` and
  `parseInt(a.track) - parseInt(b.track)` is exact integer subtraction,
  not floating point.
- StableSort.SortByKey: when some key is NaN (a track tag that does not
  parse), the comparator is not consistent and ECMA-262 leaves the order
  to the engine. The model fixes one order: linear insertion from the
  end, V8's insertion sort for short arrays before version 7.0. Node's
  TimSort may differ. For example, arrivals numbered 5, 6, 7, 8, none, 3,
  2 can end with 2 first, where the model gives 5 first. That changes the
  album's first track and so its year. Only the permutation holds for
  every engine in that case, not sortedness or stability.
- StableSort.SortByKeyStable: with a NaN key present, stability is proved
  of the model's chosen order, not of the engine's.
- Aggregate.AlbumTracksStable: with a track that has no number, equal
  numbers keep their arrival order in the model but not necessarily in
  Node. For example, arrivals 9, 10, 11, 12, 13, none, 3a, 5, 3b can put
  3b before 3a there. When every number parses, AlbumTracksUnique shows
  that the model's list is the one any stable sort gives.
- Aggregate.AlbumPageTargetsDistinct, Aggregate.AlbumPageTargetsNotIndex
  and Aggregate.WritePlanSplit compare path strings, not files. On a
  case-insensitive file system the pages of "Abc" and "abc" are one file,
  and the second write replaces the first. File identity is not modelled: repeated '/' and
  case-insensitive file systems are not. The album "" has the page path
  "/albums/", so its page is written to `<output>/albums//index.html`.
  That is the album index file, which the last step overwrites
  (PagePathOfEmpty).
- Helpers.TidyURL and Helpers.TrimString cover text from the Basic
  Multilingual Plane only. A Dafny char is a Unicode scalar value, not a
  UTF-16 code unit. A character outside that plane, such as an emoji, is
  two code units in JavaScript. `tidyURL` turns it into two '_' and
  `trimString` counts it twice; the model holds it as one char.
- Tracks.StripDirRoundTrip: the recorded path gives the file back only when
  the rest of the path does not contain the working directory text again.
  The source removes every occurrence. With the working directory
  "/music", the file "/music/music/a.mp3" is recorded as "/a.mp3"
  (StripDirRepeated). With the working directory "/", every '/' is removed.
- Site.Run: the output directory and the `copyindex` setting are
  parameters. They are not derived from the arguments with
  `Config.OutputDirectory` and the truthiness test at index.js:108, so
  `Run` also accepts a copy directory "", which the source never uses.
- Tracks.Tags: a comment frame without a `text` member is modelled as one
  whose text is "". The source stores undefined for it; the model stores
  an empty text.
- Strings are sequences of Unicode scalar values; for text from the Basic
  Multilingual Plane that is one char per UTF-16 code unit. No
  normalisation or encoding is modelled.
- `Config.ApplyArg`: an argument whose key is `__proto__` is ignored.
  Assigning a string to that key of an ordinary object has no effect.
  Keys that are other inherited members shadow the member as own keys, as
  the source does.

## Findings

| source | as written | input that shows it | evidently intended | confidence | as-written member | corrected member |
|---|---|---|---|---|---|---|
| index.js:134-187 | `if (!database.albums[track.album])` checks for an existing album by a plain property read on an ordinary object. For a name such as "constructor" or "toString", that read finds the inherited `Object.prototype` member, which is truthy. So no album is created, and `database.albums[track.album].tracks.push(track)` throws a TypeError before `complete` runs | an MP3 whose album tag is "constructor" | every album name, including those of inherited members, gets its own entry, and the callback completes | not executed | Aggregate.AddTrackAsWritten, Aggregate.ConstructorAlbumThrows | Aggregate.AddTrack |
