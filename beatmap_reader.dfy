/**
 * The text side of beatmap loading: the hit objects and the key/value
 * properties of a .osu file given as its lines, the validation of those
 * properties, and the name-based checks that pick beatmap sets, beatmap
 * sets by id and beatmaps by difficulty out of directory listings.
 */
module BeatmapReading {
  import opened JavaString
  import opened BeatmapControl

  /** The exceptions the reader can end in. */
  datatype Failure =
    | FormatWrong        // a hit object whose x coordinate is not a column
    | IndexOutOfBounds   // a split with fewer pieces than the code indexes
    | NumberFormat       // a hit time that Integer.parseInt rejects
    | NotMania           // Mode is not 3
    | WrongKeyCount      // CircleSize is not the number of columns
    | NoAudio            // no AudioFilename property
    | NullPointer        // Mode or CircleSize missing from the properties
    | NoFileList         // a directory listing that came back null

  datatype Result<T> = Ok(value: T) | Err(error: Failure)

  /** A parsed beatmap: the per-column Future lists and the properties. */
  datatype Beatmap = Beatmap(futures: seq<seq<Note>>, properties: map<string, string>)

  /** The line that opens the hit-object section. */
  const HIT_OBJECTS: string := "[HitObjects]"

  /** The x coordinates of the four columns. */
  function ColumnX(c: int): string
    requires 0 <= c < NUM_COLS
  {
    ["64", "192", "320", "448"][c]
  }

  /** The column of an x coordinate, or -1 when it is none of the four. */
  function ColumnOf(x: string): (col: int)
    ensures -1 <= col < NUM_COLS
    ensures col != -1 ==> ColumnX(col) == x
  {
    if x == "64" then 0
    else if x == "192" then 1
    else if x == "320" then 2
    else if x == "448" then 3
    else -1
  }

  /** Every column's x coordinate maps back to that column, and nothing else
      maps to a column. */
  lemma ColumnRoundTrip(c: int, x: string)
    requires 0 <= c < NUM_COLS
    ensures ColumnOf(ColumnX(c)) == c
    ensures ColumnOf(x) == c <==> x == ColumnX(c)
  {
  }

  /** One line of the hit-object section: x,y,time,... with the column taken
      from x and the hit time from the third field. */
  function ParseHitObject(line: string): (r: Result<Note>)
    ensures r.Ok? ==> 0 <= r.value.col < NUM_COLS
  {
    var split := Split(line, ',');
    if |split| == 0 then Err(IndexOutOfBounds)
    else
      var col := ColumnOf(split[0]);
      if col == -1 then Err(FormatWrong)
      else if |split| < 3 then Err(IndexOutOfBounds)
      else
        match ParseInt(split[2])
        case None => Err(NumberFormat)
        case Some(t) => Ok(Note(t, col))
  }

  /** A line parses exactly when it has at least three fields, the first an
      x coordinate of a column and the third a 32-bit integer; the note then
      has that column and that time. */
  lemma HitObjectFields(line: string)
    ensures var split := Split(line, ',');
      ParseHitObject(line).Ok? <==>
        |split| >= 3 && ColumnOf(split[0]) != -1 && ParseInt(split[2]).Some?
    ensures var split := Split(line, ',');
      ParseHitObject(line).Ok? ==>
        ParseHitObject(line).value == Note(ParseInt(split[2]).value, ColumnOf(split[0]))
  {
  }

  /** The failures, in the order the source meets them: no field at all, an
      x coordinate that is no column, fewer than three fields, a time that
      is not a number. */
  lemma HitObjectFailures(line: string)
    ensures var split := Split(line, ',');
      && (split == [] ==> ParseHitObject(line) == Err(IndexOutOfBounds))
      && (split != [] && ColumnOf(split[0]) == -1 ==> ParseHitObject(line) == Err(FormatWrong))
      && (split != [] && ColumnOf(split[0]) != -1 && |split| < 3 ==> ParseHitObject(line) == Err(IndexOutOfBounds))
      && (|split| >= 3 && ColumnOf(split[0]) != -1 && ParseInt(split[2]).None? ==> ParseHitObject(line) == Err(NumberFormat))
  {
  }

  /** A piece that is not empty survives the dropping of trailing empties. */
  lemma KeepsNonEmpty(ss: seq<string>, k: int)
    requires 0 <= k < |ss| && ss[k] != []
    ensures |DropTrailingEmpty(ss)| > k && DropTrailingEmpty(ss)[k] == ss[k]
  {
  }

  /** The first and third pieces of a line of at least three comma fields. */
  lemma SplitThree(x: string, y: string, z: string, rest: string)
    requires ',' !in x && ',' !in y && ',' !in z && x != [] && z != []
    ensures var split := Split(x + "," + y + "," + z + "," + rest, ',');
      |split| >= 3 && split[0] == x && split[2] == z
  {
    var line := x + "," + y + "," + z + "," + rest;
    assert line == x + [','] + (y + [','] + (z + [','] + rest));
    FieldsAfterPiece(z, rest, ',');
    FieldsAfterPiece(y, z + [','] + rest, ',');
    FieldsAfterPiece(x, y + [','] + (z + [','] + rest), ',');
    var f := Fields(line, ',');
    assert f[0] == x && f[2] == z;
    assert line[|x|] == ',' && ',' in line;
    KeepsNonEmpty(f, 2);
  }

  /** A hit object written for column c at time t reads back as that note. */
  lemma HitObjectRoundTrip(c: int, y: string, t: int, rest: string)
    requires 0 <= c < NUM_COLS && ',' !in y && INT_MIN <= t <= INT_MAX
    ensures ParseHitObject(ColumnX(c) + "," + y + "," + IntToString(t) + "," + rest) == Ok(Note(t, c))
  {
    var x := ColumnX(c);
    var ts := IntToString(t);
    assert ',' !in x && x != [];
    assert ',' !in ts && ts != [] by {
      if t < 0 { assert ts == "-" + NatToString(-t); }
    }
    SplitThree(x, y, ts, rest);
    ParseIntToString(t);
  }

  /** Index of the first "[HitObjects]" line, or the number of lines. */
  function SectionStart(lines: seq<string>): (k: nat)
    ensures k <= |lines|
    ensures forall i :: 0 <= i < k ==> lines[i] != HIT_OBJECTS
    ensures k < |lines| ==> lines[k] == HIT_OBJECTS
  {
    if lines == [] || lines[0] == HIT_OBJECTS then 0 else 1 + SectionStart(lines[1..])
  }

  /** The lines after the "[HitObjects]" line (none without one). */
  function HitObjectLines(lines: seq<string>): seq<string>
  {
    var k := SectionStart(lines);
    if k < |lines| then lines[k + 1..] else []
  }

  /** Lines before the first "[HitObjects]" never yield notes, and every
      line after it is a hit-object line, even a later "[HitObjects]". */
  lemma {:induction false} HitObjectSection(pre: seq<string>, post: seq<string>)
    requires forall i :: 0 <= i < |pre| ==> pre[i] != HIT_OBJECTS
    ensures SectionStart(pre + [HIT_OBJECTS] + post) == |pre|
    ensures HitObjectLines(pre + [HIT_OBJECTS] + post) == post
  {
    var lines := pre + [HIT_OBJECTS] + post;
    if pre != [] {
      assert lines[1..] == pre[1..] + [HIT_OBJECTS] + post;
      HitObjectSection(pre[1..], post);
    }
    assert lines[|pre| + 1..] == post;
  }

  /** Four empty Future lists. */
  const NO_NOTES: seq<seq<Note>> := [[], [], [], []]

  /** The Future lists built from hit-object lines, in file order, or the
      failure of the first line that does not parse. */
  function NotesOf(ls: seq<string>): (r: Result<seq<seq<Note>>>)
    ensures r.Ok? ==> Columns(r.value)
  {
    if ls == [] then Ok(NO_NOTES)
    else
      match NotesOf(ls[..|ls| - 1])
      case Err(e) => Err(e)
      case Ok(f) =>
        match ParseHitObject(ls[|ls| - 1])
        case Err(e) => Err(e)
        case Ok(n) => Ok(f[n.col := f[n.col] + [n]])
  }

  /** Once a line fails, the read fails with that line's failure. */
  lemma {:induction false} NotesOfFailureStays(ls: seq<string>, k: nat)
    requires k <= |ls| && NotesOf(ls[..k]).Err?
    ensures NotesOf(ls) == NotesOf(ls[..k])
  {
    if k < |ls| {
      assert ls[..|ls| - 1][..k] == ls[..k];
      NotesOfFailureStays(ls[..|ls| - 1], k);
    } else {
      assert ls[..k] == ls;
    }
  }

  /** A line that does not parse makes the whole read fail. */
  lemma {:induction false} NotesOfFailsAt(ls: seq<string>, i: int)
    requires 0 <= i < |ls| && ParseHitObject(ls[i]).Err?
    ensures NotesOf(ls).Err?
  {
    var p := ls[..|ls| - 1];
    if i < |p| {
      assert p[i] == ls[i];
      NotesOfFailsAt(p, i);
    }
  }

  /** A failed read has a line that does not parse. */
  lemma {:induction false} NotesOfFailsWitness(ls: seq<string>)
    requires NotesOf(ls).Err?
    ensures exists i :: 0 <= i < |ls| && ParseHitObject(ls[i]).Err?
  {
    var p := ls[..|ls| - 1];
    if NotesOf(p).Err? {
      NotesOfFailsWitness(p);
      var i :| 0 <= i < |p| && ParseHitObject(p[i]).Err?;
      assert ls[i] == p[i];
    } else {
      assert ParseHitObject(ls[|ls| - 1]).Err?;
    }
  }

  /** The read fails exactly when some hit-object line fails. */
  lemma NotesOfFails(ls: seq<string>)
    ensures NotesOf(ls).Err? <==> exists i :: 0 <= i < |ls| && ParseHitObject(ls[i]).Err?
  {
    if NotesOf(ls).Err? {
      NotesOfFailsWitness(ls);
    }
    if exists i :: 0 <= i < |ls| && ParseHitObject(ls[i]).Err? {
      var i :| 0 <= i < |ls| && ParseHitObject(ls[i]).Err?;
      NotesOfFailsAt(ls, i);
    }
  }

  /** The notes of column c among lines that all parse, in file order. */
  function ColumnNotes(ls: seq<string>, c: int): seq<Note>
  {
    if ls == [] then []
    else
      var rest := ColumnNotes(ls[..|ls| - 1], c);
      match ParseHitObject(ls[|ls| - 1])
      case Ok(n) => if n.col == c then rest + [n] else rest
      case Err(_) => rest
  }

  /** A successful read puts every line's note, and nothing else, in its
      column's Future, in file order; so the Future lists hold exactly one
      note per hit-object line. */
  lemma {:induction false} NotesOfContents(ls: seq<string>)
    requires NotesOf(ls).Ok?
    ensures forall c :: 0 <= c < NUM_COLS ==> NotesOf(ls).value[c] == ColumnNotes(ls, c)
    ensures Sum(NotesOf(ls).value) == |ls|
  {
    if ls == [] {
      SumZero(NO_NOTES);
    } else {
      var p := ls[..|ls| - 1];
      NotesOfContents(p);
      var f := NotesOf(p).value;
      var n := ParseHitObject(ls[|ls| - 1]).value;
      SumUpdate(f, n.col, f[n.col] + [n]);
    }
  }

  /** readProperties' reading of one line: after every ": " becomes ":", a
      line containing ':' that splits into exactly two pieces is a
      key/value pair. */
  function ParseProperty(line: string): Option<(string, string)>
  {
    var l := Replace(line, ": ", ":");
    if Contains(l, ":") then
      var split := Split(l, ':');
      if |split| == 2 then Some((split[0], split[1])) else None
    else None
  }

  /** A stored key and value hold no ':' and the value is not empty. */
  lemma PropertyShape(line: string)
    requires ParseProperty(line).Some?
    ensures ':' !in ParseProperty(line).value.0 && ':' !in ParseProperty(line).value.1
    ensures ParseProperty(line).value.1 != []
  {
    var l := Replace(line, ": ", ":");
    ContainsChar(l, ':');
  }

  /** "key: value" reads back as (key, value) when neither part holds ':'
      and the value is not empty. */
  lemma PropertyRoundTrip(key: string, value: string)
    requires ':' !in key && ':' !in value && value != []
    ensures ParseProperty(key + ": " + value) == Some((key, value))
  {
    assert key + ": " + value == key + (": " + value);
    ReplaceSkip(key, ": " + value, ": ", ":");
    ReplaceFront(": ", value, ":");
    ReplaceSkip(value, [], ": ", ":");
    assert value + [] == value;
    var l := key + ":" + value;
    assert Replace(key + ": " + value, ": ", ":") == l;
    assert l == key + [':'] + value;
    assert l[|key|] == ':' && ':' in l;
    ContainsChar(l, ':');
    SplitTwo(key, value, ':');
  }

  /** A key with an empty value is not stored. */
  lemma EmptyValueIgnored(key: string)
    requires ':' !in key
    ensures ParseProperty(key + ":") == None
    ensures ParseProperty(key + ": ") == None
  {
    ReplaceSkip(key, ": ", ": ", ":");
    ReplaceFront(": ", [], ":");
    assert key + ": " == key + (": " + []);
    ReplaceSkip(key, ":", ": ", ":");
    assert Replace(":", ": ", ":") == ":";
    var l := key + ":";
    assert key + ":" == key + [':'] + [];
    FieldsAfterPiece(key, [], ':');
    assert l[|key|] == ':' && ':' in l;
    var f := Fields(l, ':');
    assert f == [key, []];
    assert f[..1] == [key];
    assert Split(l, ':') == DropTrailingEmpty([key]);
    assert |Split(l, ':')| <= 1;
    assert Replace(key + ":", ": ", ":") == l;
    assert ParseProperty(key + ":") == None;
    assert Replace(key + ": ", ": ", ":") == l;
  }

  /** The map a sequence of parsed lines leaves: each pair in turn, later
      keys overwriting earlier ones. */
  function Store(pairs: seq<Option<(string, string)>>): map<string, string>
  {
    if pairs == [] then map[]
    else
      var m := Store(pairs[..|pairs| - 1]);
      match pairs[|pairs| - 1]
      case Some(kv) => m[kv.0 := kv.1]
      case None => m
  }

  /** pairs[i] is a pair with key k. */
  predicate HasKey(pairs: seq<Option<(string, string)>>, i: int, k: string)
    requires 0 <= i < |pairs|
  {
    pairs[i].Some? && pairs[i].value.0 == k
  }

  /** A key is in the map exactly when some pair defines it. */
  lemma {:induction false} StoreKeys(pairs: seq<Option<(string, string)>>, k: string)
    ensures k in Store(pairs) <==> exists i :: 0 <= i < |pairs| && HasKey(pairs, i, k)
  {
    if pairs != [] {
      var p := pairs[..|pairs| - 1];
      StoreKeys(p, k);
      if exists i :: 0 <= i < |p| && HasKey(p, i, k) {
        var i :| 0 <= i < |p| && HasKey(p, i, k);
        assert HasKey(pairs, i, k);
      }
      if exists i :: 0 <= i < |pairs| && HasKey(pairs, i, k) {
        var i :| 0 <= i < |pairs| && HasKey(pairs, i, k);
        if i < |p| { assert HasKey(p, i, k); }
      }
      if k in Store(pairs) && !HasKey(pairs, |pairs| - 1, k) {
        assert k in Store(p);
      }
    }
  }

  /** The last pair with a key decides its value. */
  lemma {:induction false} StoreLastWins(pairs: seq<Option<(string, string)>>, j: nat, k: string, v: string)
    requires j < |pairs| && pairs[j] == Some((k, v))
    requires forall i :: j < i < |pairs| ==> !HasKey(pairs, i, k)
    ensures k in Store(pairs) && Store(pairs)[k] == v
  {
    if j < |pairs| - 1 {
      var p := pairs[..|pairs| - 1];
      assert p[j] == pairs[j];
      assert !HasKey(pairs, |pairs| - 1, k);
      forall i | j < i < |p| ensures !HasKey(p, i, k) {
        assert !HasKey(pairs, i, k);
      }
      StoreLastWins(p, j, k, v);
    }
  }

  /** Each line's parse, in order. */
  function ParsedLines(ls: seq<string>): (r: seq<Option<(string, string)>>)
    ensures |r| == |ls| && forall i :: 0 <= i < |ls| ==> r[i] == ParseProperty(ls[i])
  {
    if ls == [] then [] else ParsedLines(ls[..|ls| - 1]) + [ParseProperty(ls[|ls| - 1])]
  }

  /** The property map after the lines ls. */
  function PropertiesOf(ls: seq<string>): map<string, string>
  {
    Store(ParsedLines(ls))
  }

  /** readProperties keeps a key exactly when some line defines it, with the
      value of the last line that does. */
  lemma PropertiesLastWins(ls: seq<string>, j: nat, k: string, v: string)
    requires j < |ls| && ParseProperty(ls[j]) == Some((k, v))
    requires forall i :: j < i < |ls| ==> ParseProperty(ls[i]).None? || ParseProperty(ls[i]).value.0 != k
    ensures k in PropertiesOf(ls) && PropertiesOf(ls)[k] == v
  {
    var pairs := ParsedLines(ls);
    forall i | j < i < |pairs| ensures !HasKey(pairs, i, k) {
      assert pairs[i] == ParseProperty(ls[i]);
    }
    StoreLastWins(pairs, j, k, v);
  }

  lemma PropertiesKeys(ls: seq<string>, k: string)
    ensures k in PropertiesOf(ls) <==>
      exists i :: 0 <= i < |ls| && ParseProperty(ls[i]).Some? && ParseProperty(ls[i]).value.0 == k
  {
    var pairs := ParsedLines(ls);
    StoreKeys(pairs, k);
    if exists i :: 0 <= i < |ls| && ParseProperty(ls[i]).Some? && ParseProperty(ls[i]).value.0 == k {
      var i :| 0 <= i < |ls| && ParseProperty(ls[i]).Some? && ParseProperty(ls[i]).value.0 == k;
      assert HasKey(pairs, i, k);
    }
  }

  /** validateProperties: Mode must be "3", CircleSize the number of columns
      and AudioFilename present, checked in that order; a missing Mode or
      CircleSize fails with a NullPointerException. None means valid. */
  function ValidateProperties(properties: map<string, string>): (r: Option<Failure>)
    ensures r == None <==>
      && "Mode" in properties && properties["Mode"] == "3"
      && "CircleSize" in properties && properties["CircleSize"] == IntToString(NUM_COLS)
      && "AudioFilename" in properties
    ensures "Mode" !in properties ==> r == Some(NullPointer)
    ensures "Mode" in properties && properties["Mode"] != "3" ==> r == Some(NotMania)
  {
    if "Mode" !in properties then Some(NullPointer)
    else if properties["Mode"] != "3" then Some(NotMania)
    else if "CircleSize" !in properties then Some(NullPointer)
    else if properties["CircleSize"] != IntToString(NUM_COLS) then Some(WrongKeyCount)
    else if "AudioFilename" !in properties then Some(NoAudio)
    else None
  }

  /** The number of columns is written "4". */
  lemma KeyCountText()
    ensures IntToString(NUM_COLS) == "4"
  {
  }

  /** What read produces from the lines of a file: the hit objects first,
      then the properties before the hit-object section, validated. */
  function ReadBeatmap(lines: seq<string>): Result<Beatmap>
  {
    match NotesOf(HitObjectLines(lines))
    case Err(e) => Err(e)
    case Ok(f) =>
      var props := PropertiesOf(lines[..SectionStart(lines)]);
      match ValidateProperties(props)
      case Some(e) => Err(e)
      case None => Ok(Beatmap(f, props))
  }

  /** A file reads successfully exactly when every hit-object line parses
      and the properties are valid; the Future lists then hold one note per
      hit-object line. */
  lemma ReadBeatmapSucceeds(lines: seq<string>)
    ensures ReadBeatmap(lines).Ok? <==>
      && (forall i :: 0 <= i < |HitObjectLines(lines)| ==> ParseHitObject(HitObjectLines(lines)[i]).Ok?)
      && ValidateProperties(PropertiesOf(lines[..SectionStart(lines)])) == None
    ensures ReadBeatmap(lines).Ok? ==>
      Columns(ReadBeatmap(lines).value.futures) && Sum(ReadBeatmap(lines).value.futures) == |HitObjectLines(lines)|
  {
    NotesOfFails(HitObjectLines(lines));
    if NotesOf(HitObjectLines(lines)).Ok? {
      NotesOfContents(HitObjectLines(lines));
    }
  }

  /** What one more hit-object line does to the Future lists. */
  lemma NotesStep(ls: seq<string>, j: nat)
    requires j < |ls|
    ensures NotesOf(ls[..j + 1]) ==
      match NotesOf(ls[..j])
      case Err(e) => Err(e)
      case Ok(f) =>
        match ParseHitObject(ls[j])
        case Err(e) => Err(e)
        case Ok(n) => Ok(f[n.col := f[n.col] + [n]])
  {
    assert ls[..j + 1][..j] == ls[..j];
  }

  /** read(file) over the file's lines: the line loop with its
      startReading flag, then readProperties and validateProperties. */
  method Read(lines: seq<string>) returns (r: Result<Beatmap>)
    ensures r == ReadBeatmap(lines)
  {
    ghost var body := HitObjectLines(lines);
    ghost var k := SectionStart(lines);
    var futures := NO_NOTES;
    var startReading := false;
    var i := 0;
    while i < |lines|
      invariant 0 <= i <= |lines|
      invariant !startReading ==> futures == NO_NOTES && i <= k
      invariant startReading ==> k < i && NotesOf(body[..i - k - 1]) == Ok(futures)
    {
      var line := lines[i];
      if !startReading {
        if line == HIT_OBJECTS {
          startReading := true;
          assert body[..0] == [];
        }
      } else {
        assert body[i - k - 1] == line;
        NotesStep(body, i - k - 1);
        var note := ParseHitObject(line);
        if note.Err? {
          NotesOfFailureStays(body, i - k);
          return Err(note.error);
        }
        var col := note.value.col;
        futures := futures[col := futures[col] + [note.value]];
      }
      i := i + 1;
    }
    if startReading {
      assert body[..i - k - 1] == body;
    }
    var properties := ReadProperties(lines);
    var invalid := ValidateProperties(properties);
    if invalid.Some? {
      return Err(invalid.value);
    }
    return Ok(Beatmap(futures, properties));
  }

  /** What one more line does to the property map. */
  lemma PropertiesStep(ls: seq<string>, i: nat)
    requires i < |ls|
    ensures PropertiesOf(ls[..i + 1]) ==
      match ParseProperty(ls[i])
      case Some(kv) => PropertiesOf(ls[..i])[kv.0 := kv.1]
      case None => PropertiesOf(ls[..i])
  {
    assert ls[..i + 1][..i] == ls[..i];
    assert ParsedLines(ls[..i + 1]) == ParsedLines(ls[..i]) + [ParseProperty(ls[i])];
  }

  /** readProperties over the file's lines: the pairs of every line before
      "[HitObjects]". */
  method ReadProperties(lines: seq<string>) returns (properties: map<string, string>)
    ensures properties == PropertiesOf(lines[..SectionStart(lines)])
  {
    properties := map[];
    var i := 0;
    while i < |lines|
      invariant 0 <= i <= SectionStart(lines)
      invariant properties == PropertiesOf(lines[..i])
    {
      var line := lines[i];
      if line == HIT_OBJECTS {
        break;
      }
      PropertiesStep(lines, i);
      ghost var parsed := ParseProperty(line);
      line := Replace(line, ": ", ":");
      if Contains(line, ":") {
        var split := Split(line, ':');
        if |split| == 2 {
          assert parsed == Some((split[0], split[1]));
          properties := properties[split[0] := split[1]];
        } else {
          assert parsed == None;
        }
      } else {
        assert parsed == None;
      }
      i := i + 1;
    }
  }

  /** An entry of a directory listing: a plain file, or a directory whose own
      listing is None when listing it fails. */
  datatype Entry = File(name: string) | Directory(name: string, children: Option<seq<Entry>>)

  /** File.listFiles: the children of a directory, None for a plain file or
      a directory that cannot be listed. */
  function Listing(e: Entry): Option<seq<Entry>>
  {
    if e.Directory? then e.children else None
  }

  /** A background image name: "background" and "jpg" or "png" in the
      lower-cased name. */
  predicate IsBackground(name: string)
  {
    var lower := ToLower(name);
    Contains(lower, "background") && (Contains(lower, "jpg") || Contains(lower, "png"))
  }

  /** A beatmap name as listBeatmapSets sees it: ".osu" at the end of the
      lower-cased name. */
  predicate IsOsuName(name: string)
  {
    EndsWith(ToLower(name), ".osu")
  }

  /** A beatmap set: a listable directory holding a background image and at
      least one beatmap (files and sub-directories alike are looked at). */
  predicate IsBeatmapSet(e: Entry)
  {
    && Listing(e).Some?
    && (exists i :: 0 <= i < |Listing(e).value| && IsBackground(Listing(e).value[i].name))
    && (exists i :: 0 <= i < |Listing(e).value| && IsOsuName(Listing(e).value[i].name))
  }

  /** The beatmap sets among files, in listing order. */
  function BeatmapSets(files: seq<Entry>): seq<Entry>
  {
    if files == [] then []
    else (if IsBeatmapSet(files[0]) then [files[0]] else []) + BeatmapSets(files[1..])
  }

  /** The sets listed are exactly the beatmap sets of the directory. */
  lemma {:induction false} BeatmapSetsMembers(files: seq<Entry>, e: Entry)
    ensures e in BeatmapSets(files) <==> e in files && IsBeatmapSet(e)
    ensures |BeatmapSets(files)| <= |files|
  {
    if files != [] {
      BeatmapSetsMembers(files[1..], e);
      assert files == [files[0]] + files[1..];
    }
  }

  /** What one more entry adds to the beatmap sets of a listing. */
  lemma BeatmapSetsStep(files: seq<Entry>, i: nat)
    requires i < |files|
    ensures BeatmapSets(files[i..])
      == (if IsBeatmapSet(files[i]) then [files[i]] else []) + BeatmapSets(files[i + 1..])
  {
    assert files[i..][1..] == files[i + 1..];
  }

  /** Some entry before index j has a background image name. */
  predicate SomeBackground(fs: seq<Entry>, j: int)
  {
    exists i :: 0 <= i < j && i < |fs| && IsBackground(fs[i].name)
  }

  /** Some entry before index j has a beatmap name. */
  predicate SomeOsu(fs: seq<Entry>, j: int)
  {
    exists i :: 0 <= i < j && i < |fs| && IsOsuName(fs[i].name)
  }

  /** Looking at one more entry. */
  lemma ScanStep(fs: seq<Entry>, j: nat)
    requires j < |fs|
    ensures SomeBackground(fs, j + 1) <==> SomeBackground(fs, j) || IsBackground(fs[j].name)
    ensures SomeOsu(fs, j + 1) <==> SomeOsu(fs, j) || IsOsuName(fs[j].name)
  {
    if SomeBackground(fs, j + 1) && !IsBackground(fs[j].name) {
      var i :| 0 <= i < j + 1 && i < |fs| && IsBackground(fs[i].name);
      assert i < j;
    }
    if SomeOsu(fs, j + 1) && !IsOsuName(fs[j].name) {
      var i :| 0 <= i < j + 1 && i < |fs| && IsOsuName(fs[i].name);
      assert i < j;
    }
  }

  /** Whether a directory's entries hold a background image and a beatmap. */
  method ScanSet(subFiles: seq<Entry>) returns (containsBackground: bool, containsOsu: bool)
    ensures containsBackground <==> exists i :: 0 <= i < |subFiles| && IsBackground(subFiles[i].name)
    ensures containsOsu <==> exists i :: 0 <= i < |subFiles| && IsOsuName(subFiles[i].name)
  {
    containsBackground := false;
    containsOsu := false;
    var j := 0;
    while j < |subFiles|
      invariant 0 <= j <= |subFiles|
      invariant containsBackground <==> SomeBackground(subFiles, j)
      invariant containsOsu <==> SomeOsu(subFiles, j)
    {
      ScanStep(subFiles, j);
      var fileName := ToLower(subFiles[j].name);
      if Contains(fileName, "background") && (Contains(fileName, "jpg") || Contains(fileName, "png")) {
        containsBackground := true;
      }
      if EndsWith(fileName, ".osu") {
        containsOsu := true;
      }
      j := j + 1;
    }
  }

  /** listBeatmapSets over the beatmap directory. */
  method ListBeatmapSets(beatmapDirectory: Entry) returns (r: Result<seq<Entry>>)
    ensures Listing(beatmapDirectory).None? ==> r == Err(NoFileList)
    ensures Listing(beatmapDirectory).Some? ==> r == Ok(BeatmapSets(Listing(beatmapDirectory).value))
  {
    var listing := Listing(beatmapDirectory);
    if listing.None? {
      return Err(NoFileList);
    }
    var files := listing.value;
    var result := [];
    var i := 0;
    while i < |files|
      invariant 0 <= i <= |files|
      invariant BeatmapSets(files) == result + BeatmapSets(files[i..])
    {
      var file := files[i];
      BeatmapSetsStep(files, i);
      ghost var rest := BeatmapSets(files[i + 1..]);
      if file.Directory? && file.children.Some? {
        var containsBackground, containsOsu := ScanSet(file.children.value);
        assert containsBackground && containsOsu <==> IsBeatmapSet(file);
        if containsBackground && containsOsu {
          assert result + ([file] + rest) == (result + [file]) + rest;
          result := result + [file];
        } else {
          assert [] + rest == rest;
        }
      } else {
        assert !IsBeatmapSet(file);
        assert [] + rest == rest;
      }
      i := i + 1;
    }
    assert files[i..] == [];
    assert BeatmapSets(files[i..]) == [];
    assert result + [] == result;
    assert BeatmapSets(files) == result;
    return Ok(result);
  }

  /** The first space-separated token of a name; a name made only of spaces
      splits into nothing, and indexing it fails. */
  function FirstToken(name: string): (r: Result<string>)
    ensures r.Ok? ==> ' ' !in r.value
  {
    var split := Split(name, ' ');
    if split == [] then Err(IndexOutOfBounds) else Ok(split[0])
  }

  /** A set directory named "<id> <rest>" has token id. */
  lemma FirstTokenOf(id: string, rest: string)
    requires id != [] && ' ' !in id
    ensures FirstToken(id + " " + rest) == Ok(id)
  {
    SplitHead(id, rest, ' ');
  }

  /** The result of findBeatmapSetById on a listing: the first directory whose
      first token is id, None when there is none, or the failure of the
      first directory, before it, whose name cannot be split. */
  function FindSetById(files: seq<Entry>, id: string): Result<Option<Entry>>
  {
    if files == [] then Ok(None)
    else if !files[0].Directory? then FindSetById(files[1..], id)
    else
      match FirstToken(files[0].name)
      case Err(e) => Err(e)
      case Ok(token) => if token == id then Ok(Some(files[0])) else FindSetById(files[1..], id)
  }

  /** A set found by id is a listed directory with that first token, and
      every directory before it has another token. */
  lemma {:induction false} FindSetByIdFound(files: seq<Entry>, id: string)
    requires FindSetById(files, id).Ok? && FindSetById(files, id).value.Some?
    ensures exists k :: (0 <= k < |files| && files[k] == FindSetById(files, id).value.value
      && files[k].Directory? && FirstToken(files[k].name) == Ok(id)
      && forall i :: 0 <= i < k && files[i].Directory? ==> FirstToken(files[i].name).Ok? && FirstToken(files[i].name).value != id)
  {
    if files[0].Directory? && FirstToken(files[0].name) == Ok(id) {
      assert files[0] == FindSetById(files, id).value.value;
    } else {
      FindSetByIdFound(files[1..], id);
      var k :| 0 <= k < |files[1..]| && files[1..][k] == FindSetById(files[1..], id).value.value
        && files[1..][k].Directory? && FirstToken(files[1..][k].name) == Ok(id)
        && forall i :: 0 <= i < k && files[1..][i].Directory? ==> FirstToken(files[1..][i].name).Ok? && FirstToken(files[1..][i].name).value != id;
      forall i | 0 <= i < k + 1 && files[i].Directory?
        ensures FirstToken(files[i].name).Ok? && FirstToken(files[i].name).value != id
      {
        if i > 0 { assert files[i] == files[1..][i - 1]; }
      }
      assert files[k + 1] == files[1..][k];
    }
  }

  /** Nothing is found exactly when every directory's name splits and none
      has id as its first token. */
  lemma {:induction false} FindSetByIdNone(files: seq<Entry>, id: string)
    ensures FindSetById(files, id) == Ok(None) <==>
      forall i :: 0 <= i < |files| && files[i].Directory? ==> FirstToken(files[i].name).Ok? && FirstToken(files[i].name).value != id
  {
    if files != [] {
      FindSetByIdNone(files[1..], id);
      assert forall i :: 1 <= i < |files| ==> files[i] == files[1..][i - 1];
    }
  }

  /** findBeatmapSetById over the beatmap directory. */
  method FindBeatmapSetById(beatmapDirectory: Entry, id: string) returns (r: Result<Option<Entry>>)
    ensures Listing(beatmapDirectory).None? ==> r == Err(NoFileList)
    ensures Listing(beatmapDirectory).Some? ==> r == FindSetById(Listing(beatmapDirectory).value, id)
  {
    var listing := Listing(beatmapDirectory);
    if listing.None? {
      return Err(NoFileList);
    }
    var files := listing.value;
    var i := 0;
    while i < |files|
      invariant 0 <= i <= |files|
      invariant FindSetById(files, id) == FindSetById(files[i..], id)
    {
      var file := files[i];
      assert files[i..][1..] == files[i + 1..];
      if file.Directory? {
        var split := Split(file.name, ' ');
        if split == [] {
          return Err(IndexOutOfBounds);
        }
        if split[0] == id {
          return Ok(Some(file));
        }
      }
      i := i + 1;
    }
    return Ok(None);
  }

  /** The difficulty in a beatmap file name: the text after the last '[' up
      to the next ']'. Either split may yield nothing, and indexing fails. */
  function Difficulty(name: string): Result<string>
  {
    var split := Split(name, '[');
    if split == [] then Err(IndexOutOfBounds)
    else
      var inner := Split(split[|split| - 1], ']');
      if inner == [] then Err(IndexOutOfBounds) else Ok(inner[0])
  }

  /** "Artist - Title (Mapper) [diff].osu" has difficulty diff. */
  lemma DifficultyOf(prefix: string, diff: string, suffix: string)
    requires '[' !in diff && ']' !in diff && diff != [] && '[' !in suffix
    ensures Difficulty(prefix + "[" + diff + "]" + suffix) == Ok(diff)
  {
    var tail := diff + "]" + suffix;
    assert prefix + "[" + diff + "]" + suffix == prefix + ['['] + tail;
    assert '[' !in tail;
    SplitLast(prefix, tail, '[');
    SplitHead(diff, suffix, ']');
  }

  /** A name ending in ".osu" always has a difficulty: the index errors of
      the two splits cannot happen for the files that are looked at. */
  lemma DifficultyDefined(name: string)
    requires EndsWith(name, ".osu")
    ensures Difficulty(name).Ok?
  {
    assert name[|name| - 1] == 'u';
    SplitKeepsLast(name, '[');
    var split := Split(name, '[');
    var last := split[|split| - 1];
    assert last[|last| - 1] == 'u';
    SplitKeepsLast(last, ']');
  }

  /** The two splits listDifficulties and findBeatmapByDifficulty apply to
      a ".osu" file name. */
  method SplitDifficulty(name: string) returns (diff: string)
    requires EndsWith(name, ".osu")
    ensures Difficulty(name) == Ok(diff)
  {
    DifficultyDefined(name);
    var split := Split(name, '[');
    diff := Split(split[|split| - 1], ']')[0];
  }

  /** A file that listDifficulties and findBeatmapByDifficulty look at: a
      plain file whose name ends in ".osu" (case-sensitively). */
  predicate IsBeatmapFile(e: Entry)
  {
    e.File? && EndsWith(e.name, ".osu")
  }

  /** The difficulty of a beatmap file. */
  function DifficultyOfFile(e: Entry): string
    requires IsBeatmapFile(e)
  {
    DifficultyDefined(e.name);
    Difficulty(e.name).value
  }

  /** The difficulties of the beatmap files of a listing, in order. */
  function Difficulties(files: seq<Entry>): seq<string>
  {
    if files == [] then []
    else (if IsBeatmapFile(files[0]) then [DifficultyOfFile(files[0])] else []) + Difficulties(files[1..])
  }

  /** What one more entry adds to the difficulties of a listing. */
  lemma DifficultiesStep(files: seq<Entry>, i: nat)
    requires i < |files|
    ensures Difficulties(files[i..])
      == (if IsBeatmapFile(files[i]) then [DifficultyOfFile(files[i])] else []) + Difficulties(files[i + 1..])
  {
    assert files[i..][1..] == files[i + 1..];
  }

  /** listDifficulties over a beatmap set. */
  method ListDifficulties(beatmapSet: Entry) returns (r: Result<seq<string>>)
    ensures Listing(beatmapSet).None? ==> r == Err(NoFileList)
    ensures Listing(beatmapSet).Some? ==> r == Ok(Difficulties(Listing(beatmapSet).value))
  {
    var listing := Listing(beatmapSet);
    if listing.None? {
      return Err(NoFileList);
    }
    var files := listing.value;
    var results := [];
    var i := 0;
    while i < |files|
      invariant 0 <= i <= |files|
      invariant Difficulties(files) == results + Difficulties(files[i..])
    {
      var file := files[i];
      DifficultiesStep(files, i);
      ghost var rest := Difficulties(files[i + 1..]);
      if file.File? && EndsWith(file.name, ".osu") {
        var diff := SplitDifficulty(file.name);
        assert diff == DifficultyOfFile(file);
        assert results + ([diff] + rest) == (results + [diff]) + rest;
        results := results + [diff];
      } else {
        assert [] + rest == rest;
      }
      i := i + 1;
    }
    assert files[i..] == [];
    assert Difficulties(files[i..]) == [];
    assert results + [] == results;
    return Ok(results);
  }

  /** The result of findBeatmapByDifficulty on a listing: the first beatmap
      file whose difficulty equals the query, ignoring case. */
  function FindByDifficulty(files: seq<Entry>, difficulty: string): Option<Entry>
  {
    if files == [] then None
    else if IsBeatmapFile(files[0]) && EqualsIgnoreCase(DifficultyOfFile(files[0]), difficulty) then Some(files[0])
    else FindByDifficulty(files[1..], difficulty)
  }

  /** A beatmap file whose difficulty equals the query, ignoring case. */
  predicate MatchesDifficulty(e: Entry, difficulty: string)
  {
    IsBeatmapFile(e) && EqualsIgnoreCase(DifficultyOfFile(e), difficulty)
  }

  /** What findBeatmapByDifficulty finds is a listed beatmap file whose
      difficulty matches the query ignoring case, that difficulty is among
      the listed ones, and no file before it matches. */
  lemma {:induction false} FindByDifficultyFound(files: seq<Entry>, difficulty: string)
    requires FindByDifficulty(files, difficulty).Some?
    ensures var e := FindByDifficulty(files, difficulty).value;
      e in files && IsBeatmapFile(e) && EqualsIgnoreCase(DifficultyOfFile(e), difficulty)
    ensures exists i :: 0 <= i < |Difficulties(files)| && EqualsIgnoreCase(Difficulties(files)[i], difficulty)
    ensures exists k :: (0 <= k < |files| && files[k] == FindByDifficulty(files, difficulty).value
      && forall j :: 0 <= j < k ==> !MatchesDifficulty(files[j], difficulty))
  {
    FindByDifficultyFirst(files, difficulty);
    var ds := Difficulties(files);
    var rest := Difficulties(files[1..]);
    if IsBeatmapFile(files[0]) && EqualsIgnoreCase(DifficultyOfFile(files[0]), difficulty) {
      assert ds[0] == DifficultyOfFile(files[0]);
    } else {
      FindByDifficultyFound(files[1..], difficulty);
      assert FindByDifficulty(files[1..], difficulty).value in files[1..];
      var j :| 0 <= j < |rest| && EqualsIgnoreCase(rest[j], difficulty);
      if IsBeatmapFile(files[0]) {
        assert ds == [DifficultyOfFile(files[0])] + rest;
        assert ds[j + 1] == rest[j];
      } else {
        assert ds == rest;
      }
    }
  }

  /** What findBeatmapByDifficulty finds is the first matching beatmap file
      in listing order: no file before it matches. */
  lemma {:induction false} FindByDifficultyFirst(files: seq<Entry>, difficulty: string)
    requires FindByDifficulty(files, difficulty).Some?
    ensures exists k :: (0 <= k < |files| && files[k] == FindByDifficulty(files, difficulty).value
      && MatchesDifficulty(files[k], difficulty)
      && forall j :: 0 <= j < k ==> !MatchesDifficulty(files[j], difficulty))
  {
    if MatchesDifficulty(files[0], difficulty) {
      assert files[0] == FindByDifficulty(files, difficulty).value;
    } else {
      FindByDifficultyFirst(files[1..], difficulty);
      var k :| 0 <= k < |files[1..]| && files[1..][k] == FindByDifficulty(files[1..], difficulty).value
        && MatchesDifficulty(files[1..][k], difficulty)
        && forall j :: 0 <= j < k ==> !MatchesDifficulty(files[1..][j], difficulty);
      forall j | 0 <= j < k + 1 ensures !MatchesDifficulty(files[j], difficulty) {
        if j > 0 { assert files[j] == files[1..][j - 1]; }
      }
      assert files[k + 1] == files[1..][k];
    }
  }

  /** findBeatmapByDifficulty returns null exactly when no beatmap file of
      the listing matches. */
  lemma {:induction false} FindByDifficultyNone(files: seq<Entry>, difficulty: string)
    ensures FindByDifficulty(files, difficulty).None? <==>
      forall j :: 0 <= j < |files| ==> !MatchesDifficulty(files[j], difficulty)
  {
    if files != [] && !MatchesDifficulty(files[0], difficulty) {
      FindByDifficultyNone(files[1..], difficulty);
      assert forall j :: 1 <= j < |files| ==> files[j] == files[1..][j - 1];
      assert forall j :: 0 <= j < |files| - 1 ==> files[1..][j] == files[j + 1];
    }
  }

  /** When a listed difficulty matches the query ignoring case,
      findBeatmapByDifficulty finds a beatmap. */
  lemma {:induction false} FindByDifficultyComplete(files: seq<Entry>, difficulty: string, i: nat)
    requires i < |Difficulties(files)| && EqualsIgnoreCase(Difficulties(files)[i], difficulty)
    ensures FindByDifficulty(files, difficulty).Some?
  {
    var ds := Difficulties(files);
    var rest := Difficulties(files[1..]);
    if IsBeatmapFile(files[0]) {
      assert ds == [DifficultyOfFile(files[0])] + rest;
      if !EqualsIgnoreCase(DifficultyOfFile(files[0]), difficulty) {
        assert i != 0 && ds[i] == rest[i - 1];
        FindByDifficultyComplete(files[1..], difficulty, i - 1);
      }
    } else {
      assert ds == rest;
      FindByDifficultyComplete(files[1..], difficulty, i);
    }
  }

  /** findBeatmapByDifficulty over a beatmap set. */
  method FindBeatmapByDifficulty(beatmapSet: Entry, difficulty: string) returns (r: Result<Option<Entry>>)
    ensures Listing(beatmapSet).None? ==> r == Err(NoFileList)
    ensures Listing(beatmapSet).Some? ==> r == Ok(FindByDifficulty(Listing(beatmapSet).value, difficulty))
  {
    var listing := Listing(beatmapSet);
    if listing.None? {
      return Err(NoFileList);
    }
    var files := listing.value;
    var i := 0;
    while i < |files|
      invariant 0 <= i <= |files|
      invariant FindByDifficulty(files, difficulty) == FindByDifficulty(files[i..], difficulty)
    {
      var file := files[i];
      assert files[i..][1..] == files[i + 1..];
      if file.File? && EndsWith(file.name, ".osu") {
        var diff := SplitDifficulty(file.name);
        assert diff == DifficultyOfFile(file);
        if EqualsIgnoreCase(diff, difficulty) {
          return Ok(Some(file));
        }
      }
      i := i + 1;
    }
    return Ok(None);
  }
}
