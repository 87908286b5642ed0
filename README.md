# BeatBopper core, modelled in Dafny

BeatBopper is a four-key rhythm game in the style of osu!mania. Notes fall
down four columns, and the player presses a key when a note reaches the
judgement line. This project models the part of the game that decides what
happens to notes and scores. It has five modules:

- `ScoreCalculator` (score_calculator.dfy): the scoring rules.
  - Six judgement codes: 0 Max, 1 Great, 2 Cool, 3 Good, 4 Bad, 5 Poor.
  - The per-code tables.
  - The bonus recurrence, clamped to [0, 100].
  - The accuracy ratio and the half note ratio.
  - The score of one hit.
  - The end-of-game replay of the hit order.
- `ScoreCounting` (score_counter.dfy): the live score counter.
  - A class over two arrays: the per-tier counts and the hit order.
  - It also holds the note index and the bonus.
- `BeatmapControl` (beatmap_controller.dfy): the note scheduler.
  - Each column takes notes through three lists: Future, Present and Past.
  - On every tick, due notes are spawned and missed notes are swept out as Poor.
  - A keypress judges the first Present note of its column.
- `JavaString` (java_string.dfy): the parts of `java.lang.String` and
  `Integer` that the reader relies on.
  - `split` with its trailing-empty-field rule.
  - `replace`, `contains`, `endsWith`, `toLowerCase` and `equalsIgnoreCase`.
  - `parseInt` over the 32-bit range.
- `BeatmapReading` (beatmap_reader.dfy): the `.osu` reader, from the lines of a file.
  - The hit-object section is turned into the four Future lists.
  - The x coordinate of a hit object maps to its column.
  - The properties before that section become a map.
  - The properties are then validated.
  - It also models directory listing: beatmap sets, lookup by id,
    difficulties, and lookup by difficulty.
  - Files and directories are modelled as a tree of `Entry` values.
- `NumberDisplay` (number_displayer.dfy): the right-aligned digit renderer.
  - Images are reduced to their sizes.
  - The base image is reduced to the list of draw calls made on it.

Failures that the source signals with an exception are `Err` values. This
covers a wrong format, an index out of bounds, a bad number, a wrong mode,
a wrong key count, missing audio, a missing property and a missing file list.

The game clock, `Constants.GAME_SPEED_MS`, and the judgement calculator's
`isMissed` and `calculateHitValue` are parameters. `Math.sqrt` is the
parameter `rootOf`.

## Model

| member | source | states |
|---|---|---|
| ScoreCalculator.Range | ScoreCalculator.java:118-121 | the result lies in [min, max]; it is val when val is already in range, min below it and max above it |
| ScoreCalculator.RangeExamples | ScoreCalculator.java:111 | range(0, 10, 29) = 10 and range(0, 10, 5) = 5 |
| ScoreCalculator.CalculateNewBonus | ScoreCalculator.java:77-80 | the new bonus is in [0, 100]; it is the old bonus plus the code's step when that stays in range; a Poor resets it to 0; a Max at 100 keeps it at 100 |
| ScoreCalculator.CalculateAccuracy | ScoreCalculator.java:31-37 | the ratio is NaN exactly when no note was judged; it is never infinite, and otherwise lies in [0, 1] |
| ScoreCalculator.AccuracyBounds | ScoreCalculator.java:34-35 | the numerator is between 0 and the divider; the divider is 0 exactly when all six counts are 0 |
| ScoreCalculator.AccuracyWeights | ScoreCalculator.java:34-35 | a Max and a Great add the same to the numerator; a Poor adds nothing to it but adds 300 to the divider |
| ScoreCalculator.CalculateHalfNoteRatio | ScoreCalculator.java:104-107 | division by zero notes is +Infinity; otherwise ratio × 320 × notes is half of MAX_SCORE |
| ScoreCalculator.CalculateHitScore | ScoreCalculator.java:90-95 | a Poor scores 0; the score is never negative for a non-negative ratio and root bonus |
| ScoreCalculator.CalculateTotal | ScoreCalculator.java:48-68 | the replay loop yields the bonus folded from 100 over the hit order, and the sum of the hit scores at each new bonus |
| ScoreCalculator.ReplayStep | ScoreCalculator.java:61-65 | one more judgement applies calculateNewBonus, then adds calculateHitScore at the new bonus |
| ScoreCalculator.BonusInRange | ScoreCalculator.java:58-64 | for any hit order the bonus stays in [0, 100]; it is 0 right after a Poor and 100 after a run of Max only |
| ScoreCalculator.AllMaxBaseIsHalfBudget | ScoreCalculator.java:104-107 | with the half note ratio of N > 0 notes, the base part of an all-Max run of N notes is exactly MAX_SCORE / 2 |
| ScoreCalculator.BaseOfMaxRun | ScoreCalculator.java:92 | the base part of n Max hits is 320 × n × ratio |
| ScoreCalculator.TotalZeroRootIsBase | ScoreCalculator.java:90-95 | with a square root of 0 the replayed total is exactly the base part, so the base part is the replay without its bonus term |
| ScoreCalculator.TotalOfMaxRun | ScoreCalculator.java:58-65 | a run of n Max hits is replayed at bonus 100 throughout; with a root of 10 for 100 it totals 640 × n × ratio |
| ScoreCalculator.AllMaxTotalIsBudget | ScoreCalculator.java:48-68 | with the half note ratio of N > 0 notes and the root of 100 being 10, an all-Max run of N notes totals exactly MAX_SCORE before rounding |
| ScoreCounting.CountSumIsLength | ScoreCounter.java:15-25 | the six per-tier occurrence counts of a valid hit order add up to its length |
| ScoreCounting.ScoreCounter.constructor | ScoreCounter.java:56-63 | the hit-order array has one slot per note; the counts are zero, the bonus is 100, and the ratio comes from the note count |
| ScoreCounting.ScoreCounter.Hit | ScoreCounter.java:87-99 | scores[hit] goes up by one with the other counts kept; the hit order gets hit written at noteIndex with the other slots kept; noteIndex goes up by one; the bonus is calculateNewBonus of the old one; the invariant holds |
| ScoreCounting.ScoreCounter.CountsAddUp | ScoreCounter.java:90-92 | in a valid counter the six counts add up to the number of notes judged |
| ScoreCounting.ScoreCounter.ReplayMatchesLive | ScoreCounter.java:95 | once every note is judged, replaying the whole hit-order array gives back the live bonus |
| ScoreCounting.ScoreCounter.ReplayCreditsUnjudgedAsMax | ScoreCalculator.java:58-61 | the array the replay reads is the codes judged so far followed by one 0 (Max) per unjudged note, so a replay before the end counts unjudged notes as Max |
| BeatmapControl.ColumnsUpdate | BeatmapController.java:104-105 | putting a list of column-c notes in column c keeps every column holding only its own notes |
| BeatmapControl.SpawnCount | BeatmapController.java:62-68 | the spawn pass stops within the column |
| BeatmapControl.SpawnCountMaximal | BeatmapController.java:62-68 | every spawned note is within the look-ahead; the first note left behind is beyond it |
| BeatmapControl.SpawnCountUnique | BeatmapController.java:62-68 | any prefix length with that property is the spawn count |
| BeatmapControl.RemainingNotDue | BeatmapController.java:65-68 | on a time-ordered Future, every note left behind is beyond the look-ahead |
| BeatmapControl.KeptNotMissed | BeatmapController.java:79-86 | no note the sweep leaves in Present is missed |
| BeatmapControl.DroppedMissed | BeatmapController.java:79-86 | every note the sweep moves out is missed |
| BeatmapControl.SweepPartition | BeatmapController.java:79-86 | kept and dropped notes together are exactly the column's Present notes |
| BeatmapControl.KeptAscending | BeatmapController.java:79-86 | dropping notes from the front part keeps a time-ordered column ordered |
| BeatmapControl.TickKeepsOrder | BeatmapController.java:53-89 | if Present followed by Future is time-ordered, it still is after one tick's spawn and sweep |
| BeatmapControl.MoveKeepsNotes | BeatmapController.java:104-105 | moving the first k Future notes to the end of Present loses no note |
| BeatmapControl.SweepStep | BeatmapController.java:79-86 | one more note goes to kept when it is not missed, and to dropped when it is |
| BeatmapControl.ExtendsWithMissesMeaning | BeatmapController.java:85 | "extended by misses" means the old hit order is a prefix and every later code is a Poor |
| BeatmapControl.ExtendsTrans | BeatmapController.java:76-88 | two extensions by misses make one |
| BeatmapControl.KeptInColumn | BeatmapController.java:76-88 | kept and dropped notes stay in their column |
| BeatmapControl.BeatmapController.constructor | BeatmapController.java:32-40 | a controller starts with the read Future lists, empty Present and Past, and one hit-order slot per note |
| BeatmapControl.BeatmapController.SpawnNote | BeatmapController.java:96-106 | the note leaves the head of its Future and goes to the end of its Present; Past is unchanged; no note is lost |
| BeatmapControl.BeatmapController.RegisterHitAndRemoveNote | BeatmapController.java:114-125 | the score is recorded; the note leaves its Present position and goes to the end of its Past; Future is unchanged; no note is lost |
| BeatmapControl.BeatmapController.SpawnColumn | BeatmapController.java:62-72 | exactly the due prefix of Future moves, in order, to the end of Present |
| BeatmapControl.BeatmapController.ChargeMisses | BeatmapController.java:79-87 | the pass returns the kept and dropped notes; it records one Poor per dropped note, in order |
| BeatmapControl.BeatmapController.SweepColumn | BeatmapController.java:79-87 | Present becomes the kept notes; the dropped notes go to the end of Past; one Poor is recorded per dropped note; Future is unchanged |
| BeatmapControl.BeatmapController.SpawnAll | BeatmapController.java:59-73 | every column's due prefix moves from Future to Present |
| BeatmapControl.BeatmapController.SweepAll | BeatmapController.java:76-88 | every column is swept; only Poor codes are appended to the hit order |
| BeatmapControl.BeatmapController.Act | BeatmapController.java:53-89 | one tick is the spawn pass over all columns followed by the sweep; the hit order grows only by Poor codes; every column keeps its notes |
| BeatmapControl.BeatmapController.Hit | BeatmapController.java:132-151 | an empty Present, or no judgement in range, changes nothing; otherwise the first Present note moves to Past and its judgement is appended to the hit order |
| JavaString.JoinFields | BeatmapReader.java:46 | gluing the raw fields of a string (before trailing empties are dropped) back with the delimiter gives the string |
| JavaString.FieldsJoin | BeatmapReader.java:46 | cutting a join of delimiter-free pieces gives back the pieces as raw fields |
| JavaString.Split | BeatmapReader.java:46 | without the delimiter the result is [s]; no field holds the delimiter; otherwise the last field is nonempty or there is none |
| JavaString.SplitEmpty | BeatmapReader.java:46 | split returns no field exactly when the string is nonempty and made only of delimiters |
| JavaString.SplitTwo | BeatmapReader.java:127-128 | a + ":" + b, with no ':' in a or b and b nonempty, splits into exactly [a, b] |
| JavaString.SplitKeepsLast | BeatmapReader.java:260-261 | when s does not end with the delimiter, its last field is nonempty and ends where s ends |
| JavaString.ContainsAt | BeatmapReader.java:125 | contains holds exactly when the target occurs at some index |
| JavaString.ReplaceAbsent | BeatmapReader.java:124 | replacing a target that does not occur leaves the string unchanged |
| JavaString.ToLowerIdempotent | BeatmapReader.java:199 | lower-casing twice is lower-casing once |
| JavaString.EqualsIgnoreCaseIsLowerEquality | BeatmapReader.java:288 | equalsIgnoreCase holds exactly when the lower-cased strings are equal |
| JavaString.NatToString | BeatmapReader.java:164 | the decimal text of n is nonempty and all digits |
| JavaString.NatToStringValue | BeatmapReader.java:65 | the decimal text of n has the value n |
| JavaString.ParseInt | BeatmapReader.java:65 | a parsed value lies in the 32-bit range; an empty string or a lone sign does not parse |
| JavaString.ParseIntToString | BeatmapReader.java:65 | parseInt of the decimal text of a 32-bit int gives back that int |
| BeatmapReading.ColumnOf | BeatmapReader.java:49-56 | the column is -1 or in [0, 4); a column other than -1 is the one whose x text was given |
| BeatmapReading.ColumnRoundTrip | BeatmapReader.java:49-56 | "64", "192", "320" and "448" map to columns 0 to 3, and no other text maps to a column |
| BeatmapReading.ParseHitObject | BeatmapReader.java:46-65 | a parsed note lies in one of the four columns |
| BeatmapReading.HitObjectFields | BeatmapReader.java:46-65 | a line parses exactly when it has at least 3 fields, a known x and a valid int as field 2; the note is then (that int, that column) |
| BeatmapReading.HitObjectFailures | BeatmapReader.java:46-65 | failures come in source order: no field 0 is an index error, an unknown x is a format error, no field 2 is an index error, a bad int is a number error |
| BeatmapReading.HitObjectRoundTrip | BeatmapReader.java:46-65 | the line "x,y,time,…" written for column c and a 32-bit time parses back to that note |
| BeatmapReading.SectionStart | BeatmapReader.java:37-43 | the index of the first "[HitObjects]" line; no earlier line is that header |
| BeatmapReading.HitObjectSection | BeatmapReader.java:37-43 | the lines before the first header yield no notes, and every line after it is a hit-object line |
| BeatmapReading.NotesOf | BeatmapReader.java:37-70 | parsed Future lists hold each note in the list of its own column |
| BeatmapReading.NotesOfFailureStays | BeatmapReader.java:37-70 | once a line fails, the read fails with that failure whatever follows |
| BeatmapReading.NotesOfFails | BeatmapReader.java:37-70 | reading the hit objects fails exactly when some hit-object line does not parse |
| BeatmapReading.NotesOfContents | BeatmapReader.java:65 | with no failure, each column's Future list is the parsed notes of that column in file order; there is one note per line |
| BeatmapReading.NotesStep | BeatmapReader.java:46-65 | one more hit-object line appends its note to its column, or fails |
| BeatmapReading.PropertyShape | BeatmapReader.java:124-131 | a stored property has no ':' in its key or value, and its value is nonempty |
| BeatmapReading.PropertyRoundTrip | BeatmapReader.java:124-131 | the line "key: value" with no ':' inside and a nonempty value yields the pair (key, value) |
| BeatmapReading.EmptyValueIgnored | BeatmapReader.java:127-128 | "key:" and "key: " store nothing, because split drops the trailing empty field |
| BeatmapReading.StoreKeys | BeatmapReader.java:130 | a key is in the map exactly when some line stored it |
| BeatmapReading.StoreLastWins | BeatmapReader.java:130 | a key keeps the value of the last line that stored it |
| BeatmapReading.ParsedLines | BeatmapReader.java:118-136 | one parse result per line, each that line's parse |
| BeatmapReading.PropertiesLastWins | BeatmapReader.java:118-136 | the value of a key is the one on the last property line with that key |
| BeatmapReading.PropertiesKeys | BeatmapReader.java:118-136 | a key is present exactly when some line before the header parses to a pair with that key |
| BeatmapReading.PropertiesStep | BeatmapReader.java:121-131 | one more line adds its pair to the map, or leaves the map unchanged |
| BeatmapReading.ReadProperties | BeatmapReader.java:107-150 | the line loop stops at "[HitObjects]" and yields the properties of the lines before it |
| BeatmapReading.ValidateProperties | BeatmapReader.java:157-170 | the properties pass exactly when Mode is "3", CircleSize is "4" and AudioFilename is present; a missing Mode is a null-pointer failure; a Mode other than "3" is not mania |
| BeatmapReading.KeyCountText | BeatmapReader.java:164 | "" + NUM_COLS is "4" |
| BeatmapReading.ReadBeatmapSucceeds | BeatmapReader.java:26-77 | with the rules modelled from the lines, a file reads exactly when every hit-object line parses and the properties are valid; the Future lists then hold one note per hit-object line (the id step is not modelled) |
| BeatmapReading.Read | BeatmapReader.java:26-77 | the loop over the lines, then readProperties and validateProperties, yields the beatmap the reading rules define, or their first failure |
| BeatmapReading.BeatmapSetsMembers | BeatmapReader.java:185-215 | an entry is listed exactly when it is in the directory and is a set: a listable directory with a background image and a .osu file; the list is no longer than the directory |
| BeatmapReading.ScanSet | BeatmapReader.java:194-209 | the flags are set exactly when some sub-file's lower-cased name is a background image, or ends with ".osu" |
| BeatmapReading.ListBeatmapSets | BeatmapReader.java:177-218 | an unreadable directory fails; otherwise the result is the beatmap sets in listing order |
| BeatmapReading.FirstToken | BeatmapReader.java:233 | the first space-separated token contains no space |
| BeatmapReading.FirstTokenOf | BeatmapReader.java:233 | the first token of "id rest" is id |
| BeatmapReading.FindSetByIdFound | BeatmapReader.java:231-237 | a found set is a directory whose first token is id, and every directory before it has another first token |
| BeatmapReading.FindSetByIdNone | BeatmapReader.java:231-239 | null is returned exactly when every directory has a first token other than id |
| BeatmapReading.FindBeatmapSetById | BeatmapReader.java:226-240 | an unreadable directory fails; otherwise the first directory whose first token is id, or none |
| BeatmapReading.DifficultyOf | BeatmapReader.java:260-261 | the name "prefix[diff]suffix" has difficulty diff, when diff has no brackets and the suffix no '[' |
| BeatmapReading.DifficultyDefined | BeatmapReader.java:257-261 | for a name ending in ".osu" the difficulty is defined: neither split yields an empty array, so no index error can happen |
| BeatmapReading.ListDifficulties | BeatmapReader.java:248-267 | an unreadable set fails; otherwise the difficulties of its .osu files, in listing order |
| BeatmapReading.FindByDifficultyFound | BeatmapReader.java:281-292 | a found file is a .osu file of the set whose difficulty equals the asked one ignoring case; it is listed among the difficulties; no file before it matches |
| BeatmapReading.FindByDifficultyFirst | BeatmapReader.java:281-292 | the found file is the first matching beatmap file in listing order |
| BeatmapReading.FindByDifficultyNone | BeatmapReader.java:281-295 | null is returned exactly when no beatmap file of the set matches |
| BeatmapReading.FindByDifficultyComplete | BeatmapReader.java:281-295 | when some listed difficulty matches ignoring case, a file is found |
| BeatmapReading.FindBeatmapByDifficulty | BeatmapReader.java:276-296 | an unreadable set fails; otherwise the first .osu file whose difficulty matches ignoring case, or none |
| NumberDisplay.MaxHeight | NumberDisplayer.java:44-49 | the result bounds every image height, is 0 for no images and is the height of some image otherwise |
| NumberDisplay.HalfTowardZero | NumberDisplayer.java:122 | (int)(a / 2.0) truncates toward zero on both signs |
| NumberDisplay.Layout | NumberDisplayer.java:118-129 | one placement per drawn glyph |
| NumberDisplay.LayoutPrefix | NumberDisplayer.java:125 | drawing more glyphs leaves the earlier placements as they were; placement i draws glyph i |
| NumberDisplay.LayoutAbuts | NumberDisplayer.java:121-128 | the first glyph ends at the right edge; each later glyph ends where the previous one starts |
| NumberDisplay.LayoutCentred | NumberDisplayer.java:114-122 | glyphs no taller than maxHeight lie inside the base image, centred vertically up to a pixel |
| NumberDisplay.LeastFirst | NumberDisplayer.java:99-103 | the digits of n, least significant first, are decimal digits; for n > 0 the most significant is not 0 |
| NumberDisplay.DrawnDigitsEdges | NumberDisplayer.java:98-103 | 0 draws the single digit 0; a negative number draws nothing; a positive number has no leading zero |
| NumberDisplay.DrawnDigitsSpellNumber | NumberDisplayer.java:94-110 | reversed, the drawn digits of n > 0 spell n in decimal |
| NumberDisplay.DigitGlyphsFit | NumberDisplayer.java:108-114 | each digit glyph is its digit's image, no taller than the tallest digit image |
| NumberDisplay.DigitStack | NumberDisplayer.java:97-103 | the push loop leaves a stack of digits that, polled from its far end, yields exactly the drawn digits |
| NumberDisplay.NumberDisplayer.constructor | NumberDisplayer.java:37-50 | the max-height loop yields the largest digit image height; nothing is drawn and the width is 0 |
| NumberDisplay.NumberDisplayer.DrawLetter | NumberDisplayer.java:118-129 | the glyph is drawn at x = WIDTH − width so far − its width, and y = half the height difference; the width grows by the glyph's width |
| NumberDisplay.NumberDisplayer.DrawNumber | NumberDisplayer.java:94-110 | the glyphs drawn are the digit images of number, least significant first, each placed by drawLetter |
| NumberDisplay.NumberDisplayer.Clear | NumberDisplayer.java:134-138 | the image is empty and the rendered width is 0 |

## Left out

- The file system is not modelled. A `.osu` file is its list of lines, and a
  directory is an `Entry` tree. A directory whose listing fails has children `None`.
- File-read and file-not-found dialogs (`JOptionPane`) and their `IOException` paths are not modelled.
- Audio loading and the `.mp3` to `.wav` replacement are left out (audio I/O).
- The beatmap id and file set at the end of `read` are left out. They depend on the file's parent directory. `Integer.parseInt` of the directory name's first token (BeatmapReader.java:85) can throw a NumberFormatException that nothing catches. That failure path is not modelled, so `BeatmapReading.ReadBeatmapSucceeds` covers only the rules that work on the lines.
- Greenfoot plumbing is left out: `addObject`, `removeObject`, `Note.init`, `init(x, y)`, `setImage` and `getImage().clear()`.
- The accuracy displayer and `updateImage` are left out. They are display only.
- `ScoreCounter.setBonus` is left out. The core never calls it.
- `NumberDisplayer.drawNumber(double, int)` is left out, because it needs floating-point remainder and power.
- The dot image is left out. It is only used by `drawNumber(double, int)`.
- `Math.sqrt` and `Math.round` are not modelled, because they are floating point.
  - The square root is the parameter `rootOf`.
  - Scores are real numbers.
  - The live `totalScore` field of the counter is not kept.
- `ScoreCalculator.CalculateTotal`: returns the unrounded real total, because the final `Math.round` is not modelled.
- 32-bit `int` overflow of counts, widths and the accuracy sums is not modelled. Integers are unbounded.
- `toLowerCase` and `equalsIgnoreCase` are modelled for ASCII letters only.
- `parseInt` is modelled for ASCII digits only, with an optional leading sign.
- Concurrency is not modelled. The source iterates over snapshot copies to avoid concurrent-modification errors, and the model iterates over copies the same way.
- `BeatmapControl.BeatmapController.SweepColumn`: writes the column's new Present and Past back once after the pass, instead of one `registerHitAndRemoveNote` per missed note. The final state and the order of the score-counter calls are the same.
- `BeatmapControl.BeatmapController.RegisterHitAndRemoveNote`: the note to remove is given by its position in Present. The source's `remove(note)` finds it by identity.
- `NumberDisplay.NumberDisplayer.DrawNumber`: requires at least ten digit images. With fewer images the source throws an index error, and that error is not modelled.
- `ScoreCounting.ScoreCounter.Hit`: requires a free slot in the hit-order array. The source would throw an index error when a beatmap yields more judgements than notes. The controller's invariant shows this cannot happen.
- `listDifficulties` and `findBeatmapByDifficulty` check for ".osu" case-sensitively, while `listBeatmapSets` lower-cases first. The model keeps this difference.
- `BeatmapControl.BeatmapController.constructor`: requires the counter's hit-order array to have one slot per read note. The source sizes it with `Beatmap.countTotalObjects()`, and `Beatmap` is not part of this model. The requirement assumes that method counts the notes in the Future lists.
- `calculateTotal` replays the whole hit-order array (ScoreCalculator.java:58-61). Slots not yet filled hold 0, which is the Max code. `ScoreCounting.ScoreCounter.ReplayCreditsUnjudgedAsMax` records this. The source calls it only when the game is over.
