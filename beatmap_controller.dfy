/**
 * The note scheduler: per column, notes move from Future to Present when
 * they come within the spawn look-ahead, and from Present to Past when they
 * are judged by a keypress or swept as missed.
 */
module BeatmapControl {
  import opened ScoreCalculator
  import opened ScoreCounting

  /** Number of columns (keys). */
  const NUM_COLS: int := 4

  /** Code recorded for a note that was never hit. */
  const MISS: int := 5

  /** Code returned by the judgement calculator when nothing is in range. */
  const NO_JUDGEMENT: int := -1

  /** A note: its ideal hit time in milliseconds and its column. */
  datatype Note = Note(time: int, col: int)

  /** Every note of s sits in column c. */
  predicate InColumn(s: seq<Note>, c: int) { forall i :: 0 <= i < |s| ==> s[i].col == c }

  /** One list per column, each holding only that column's notes. */
  predicate Columns(ls: seq<seq<Note>>)
  {
    |ls| == NUM_COLS && forall c :: 0 <= c < NUM_COLS ==> InColumn(ls[c], c)
  }

  lemma ColumnsUpdate(ls: seq<seq<Note>>, c: int, v: seq<Note>)
    requires Columns(ls) && 0 <= c < NUM_COLS && InColumn(v, c)
    ensures Columns(ls[c := v])
  {
  }

  /** Notes of s ordered by hit time. */
  predicate Ascending(s: seq<Note>) { forall i, j :: 0 <= i < j < |s| ==> s[i].time <= s[j].time }

  /** A note is due for spawning once its hit time is within the look-ahead. */
  predicate IsDue(n: Note, gameTime: int, gameSpeedMs: int) { n.time - gameTime <= gameSpeedMs }

  /** Length of the longest prefix of f whose notes are all due. */
  function SpawnCount(f: seq<Note>, gameTime: int, gameSpeedMs: int): (k: nat)
    ensures k <= |f|
  {
    if f == [] || !IsDue(f[0], gameTime, gameSpeedMs) then 0
    else 1 + SpawnCount(f[1..], gameTime, gameSpeedMs)
  }

  /** The notes a spawn pass moves out of f. */
  function Due(f: seq<Note>, gameTime: int, gameSpeedMs: int): seq<Note>
  {
    f[..SpawnCount(f, gameTime, gameSpeedMs)]
  }

  /** What a sweep does with one note: keep it in Present (true) or move it. */
  function Survives(n: Note, gameTime: int, isMissed: (int, int) -> bool): bool
  {
    !isMissed(n.time, gameTime)
  }

  /** The notes of s that a miss sweep leaves in Present, in order. */
  function Kept(s: seq<Note>, gameTime: int, isMissed: (int, int) -> bool): seq<Note>
  {
    if s == [] then []
    else if Survives(s[|s| - 1], gameTime, isMissed) then Kept(s[..|s| - 1], gameTime, isMissed) + [s[|s| - 1]]
    else Kept(s[..|s| - 1], gameTime, isMissed)
  }

  /** The notes of s that a miss sweep moves to Past, in order. */
  function Dropped(s: seq<Note>, gameTime: int, isMissed: (int, int) -> bool): seq<Note>
  {
    if s == [] then []
    else if Survives(s[|s| - 1], gameTime, isMissed) then Dropped(s[..|s| - 1], gameTime, isMissed)
    else Dropped(s[..|s| - 1], gameTime, isMissed) + [s[|s| - 1]]
  }

  /** Total number of notes in a list of columns. */
  function Sum(ls: seq<seq<Note>>): nat
  {
    if ls == [] then 0 else Sum(ls[..|ls| - 1]) + |ls[|ls| - 1]|
  }

  lemma {:induction false} SumUpdate(ls: seq<seq<Note>>, c: int, v: seq<Note>)
    requires 0 <= c < |ls|
    ensures Sum(ls[c := v]) + |ls[c]| == Sum(ls) + |v|
    ensures |ls[c]| <= Sum(ls)
  {
    var n := |ls| - 1;
    assert ls[c := v][..n] == if c == n then ls[..n] else ls[..n][c := v];
    if c < n {
      SumUpdate(ls[..n], c, v);
    }
  }

  lemma {:induction false} SumZero(ls: seq<seq<Note>>)
    requires forall c :: 0 <= c < |ls| ==> ls[c] == []
    ensures Sum(ls) == 0
  {
    if ls != [] {
      SumZero(ls[..|ls| - 1]);
    }
  }

  /** What a spawn pass guarantees: the moved notes are due, and the first
      note left behind is not. */
  lemma {:induction false} SpawnCountMaximal(f: seq<Note>, gameTime: int, gameSpeedMs: int)
    ensures forall i :: 0 <= i < SpawnCount(f, gameTime, gameSpeedMs) ==> IsDue(f[i], gameTime, gameSpeedMs)
    ensures SpawnCount(f, gameTime, gameSpeedMs) < |f| ==>
      !IsDue(f[SpawnCount(f, gameTime, gameSpeedMs)], gameTime, gameSpeedMs)
  {
    if f != [] && IsDue(f[0], gameTime, gameSpeedMs) {
      SpawnCountMaximal(f[1..], gameTime, gameSpeedMs);
    }
  }

  /** The prefix property pins SpawnCount down. */
  lemma SpawnCountUnique(f: seq<Note>, gameTime: int, gameSpeedMs: int, k: nat)
    requires k <= |f|
    requires forall i :: 0 <= i < k ==> IsDue(f[i], gameTime, gameSpeedMs)
    requires k < |f| ==> !IsDue(f[k], gameTime, gameSpeedMs)
    ensures SpawnCount(f, gameTime, gameSpeedMs) == k
  {
    SpawnCountMaximal(f, gameTime, gameSpeedMs);
  }

  /** On an ascending Future, every note a spawn pass leaves behind is
      beyond the look-ahead. */
  lemma RemainingNotDue(f: seq<Note>, gameTime: int, gameSpeedMs: int)
    requires Ascending(f)
    ensures forall i :: SpawnCount(f, gameTime, gameSpeedMs) <= i < |f| ==> !IsDue(f[i], gameTime, gameSpeedMs)
  {
    SpawnCountMaximal(f, gameTime, gameSpeedMs);
  }

  /** No note the sweep keeps in Present is missed. */
  lemma {:induction false} KeptNotMissed(s: seq<Note>, gameTime: int, isMissed: (int, int) -> bool)
    ensures forall i :: 0 <= i < |Kept(s, gameTime, isMissed)| ==> Survives(Kept(s, gameTime, isMissed)[i], gameTime, isMissed)
  {
    if s != [] {
      KeptNotMissed(s[..|s| - 1], gameTime, isMissed);
    }
  }

  /** Every note the sweep moves to Past is missed. */
  lemma {:induction false} DroppedMissed(s: seq<Note>, gameTime: int, isMissed: (int, int) -> bool)
    ensures forall i :: 0 <= i < |Dropped(s, gameTime, isMissed)| ==> !Survives(Dropped(s, gameTime, isMissed)[i], gameTime, isMissed)
  {
    if s != [] {
      DroppedMissed(s[..|s| - 1], gameTime, isMissed);
    }
  }

  /** The sweep loses no note: kept and dropped notes make up s. */
  lemma {:induction false} SweepPartition(s: seq<Note>, gameTime: int, isMissed: (int, int) -> bool)
    ensures multiset(Kept(s, gameTime, isMissed)) + multiset(Dropped(s, gameTime, isMissed)) == multiset(s)
  {
    if s != [] {
      var p := s[..|s| - 1];
      SweepPartition(p, gameTime, isMissed);
      assert s == p + [s[|s| - 1]];
    }
  }

  /** Dropping notes from the front part keeps an ascending column ascending. */
  lemma {:induction false} KeptAscending(a: seq<Note>, b: seq<Note>, gameTime: int, isMissed: (int, int) -> bool)
    requires Ascending(a + b)
    ensures Ascending(Kept(a, gameTime, isMissed) + b)
  {
    if a != [] {
      var p := a[..|a| - 1];
      var x := a[|a| - 1];
      assert a + b == p + ([x] + b);
      KeptAscending(p, [x] + b, gameTime, isMissed);
      var kp := Kept(p, gameTime, isMissed);
      if isMissed(x.time, gameTime) {
        assert Kept(a, gameTime, isMissed) + b == kp + b;
        forall i, j | 0 <= i < j < |kp + b| ensures (kp + b)[i].time <= (kp + b)[j].time {
          var q := kp + ([x] + b);
          if i < |kp| && j >= |kp| {
            assert (kp + b)[j] == q[j + 1];
            assert (kp + b)[i] == q[i];
          } else if i >= |kp| {
            assert (kp + b)[j] == q[j + 1];
            assert (kp + b)[i] == q[i + 1];
          } else {
            assert (kp + b)[i] == q[i] && (kp + b)[j] == q[j];
          }
        }
      } else {
        assert Kept(a, gameTime, isMissed) + b == kp + ([x] + b);
      }
    }
  }

  /** One tick keeps a column time-ordered: if Present followed by Future is
      ascending before the tick, it is ascending after spawn and sweep. */
  lemma TickKeepsOrder(p: seq<Note>, f: seq<Note>, gameTime: int, gameSpeedMs: int, isMissed: (int, int) -> bool)
    requires Ascending(p + f)
    ensures
      var k := SpawnCount(f, gameTime, gameSpeedMs);
      Ascending(Kept(p + f[..k], gameTime, isMissed) + f[k..])
  {
    var k := SpawnCount(f, gameTime, gameSpeedMs);
    assert (p + f[..k]) + f[k..] == p + f;
    KeptAscending(p + f[..k], f[k..], gameTime, isMissed);
  }

  /** Moving the first k notes of f to the end of p loses no note. */
  lemma MoveKeepsNotes(p: seq<Note>, f: seq<Note>, k: nat)
    requires k <= |f|
    ensures multiset(f[k..]) + multiset(p + f[..k]) == multiset(f) + multiset(p)
  {
    assert f == f[..k] + f[k..];
  }

  /** What the sweep does with one more note. */
  lemma SweepStep(s: seq<Note>, j: nat, gameTime: int, isMissed: (int, int) -> bool)
    requires j < |s|
    ensures Kept(s[..j + 1], gameTime, isMissed)
      == if isMissed(s[j].time, gameTime) then Kept(s[..j], gameTime, isMissed) else Kept(s[..j], gameTime, isMissed) + [s[j]]
    ensures Dropped(s[..j + 1], gameTime, isMissed)
      == if isMissed(s[j].time, gameTime) then Dropped(s[..j], gameTime, isMissed) + [s[j]] else Dropped(s[..j], gameTime, isMissed)
  {
    assert s[..j + 1][..j] == s[..j];
  }

  /** now is was followed by Poor codes only. */
  predicate ExtendsWithMisses(now: seq<int>, was: seq<int>)
  {
    if |now| <= |was| then now == was
    else now[|now| - 1] == MISS && ExtendsWithMisses(now[..|now| - 1], was)
  }

  /** The same relation read pointwise: was is a prefix of now and every
      later code is a Poor. */
  lemma {:induction false} ExtendsWithMissesMeaning(now: seq<int>, was: seq<int>)
    ensures ExtendsWithMisses(now, was) <==>
      |was| <= |now| && now[..|was|] == was && forall k :: |was| <= k < |now| ==> now[k] == MISS
  {
    if |now| > |was| {
      var p := now[..|now| - 1];
      ExtendsWithMissesMeaning(p, was);
      assert p[..|was|] == now[..|was|];
      if ExtendsWithMisses(now, was) {
        forall k | |was| <= k < |now| ensures now[k] == MISS {
          if k < |now| - 1 { assert now[k] == p[k]; }
        }
      }
      if |was| <= |now| && now[..|was|] == was && forall k :: |was| <= k < |now| ==> now[k] == MISS {
        assert forall k :: |was| <= k < |p| ==> p[k] == now[k];
      }
    }
  }

  /** Extending by Poor codes twice extends by Poor codes. */
  lemma {:induction false} ExtendsTrans(now: seq<int>, mid: seq<int>, was: seq<int>)
    requires ExtendsWithMisses(now, mid) && ExtendsWithMisses(mid, was)
    ensures ExtendsWithMisses(now, was)
  {
    if |now| > |mid| {
      ExtendsTrans(now[..|now| - 1], mid, was);
    }
  }

  /** A sweep keeps each note in its column. */
  lemma KeptInColumn(s: seq<Note>, c: int, gameTime: int, isMissed: (int, int) -> bool)
    requires InColumn(s, c)
    ensures InColumn(Kept(s, gameTime, isMissed), c) && InColumn(Dropped(s, gameTime, isMissed), c)
  {
    KeptNotMissed(s, gameTime, isMissed);
    DroppedMissed(s, gameTime, isMissed);
    SweepPartition(s, gameTime, isMissed);
    forall n | n in Kept(s, gameTime, isMissed) ensures n.col == c {
      assert n in multiset(s);
    }
    forall n | n in Dropped(s, gameTime, isMissed) ensures n.col == c {
      assert n in multiset(s);
    }
  }

  /** Two lists of columns that differ only in column c. */
  lemma ColumnUpdate(now: seq<seq<Note>>, was: seq<seq<Note>>, c: int, v: seq<Note>)
    requires |now| == |was| && 0 <= c < |was| && now[c] == v
    requires forall d :: 0 <= d < |was| && d != c ==> now[d] == was[d]
    ensures now == was[c := v]
  {
  }

  class BeatmapController {
    /** Per column: notes not yet spawned, in file order. */
    var future: seq<seq<Note>>
    /** Per column: spawned notes that are still hittable. */
    var present: seq<seq<Note>>
    /** Per column: notes that were hit or missed. */
    var past: seq<seq<Note>>
    const scoreCounter: ScoreCounter

    ghost predicate Valid()
      reads this, scoreCounter, scoreCounter.scores, scoreCounter.scoresHitOrder
    {
      && Columns(future) && Columns(present) && Columns(past)
      && scoreCounter.Valid()
      // every note still to be judged has a free slot in the hit order
      && scoreCounter.scoresHitOrder.Length - scoreCounter.noteIndex == Sum(future) + Sum(present)
    }

    /** All notes of column c, whatever their stage. */
    ghost function Notes(c: int): multiset<Note>
      reads this
      requires 0 <= c < |future| && c < |present| && c < |past|
    {
      multiset(future[c]) + multiset(present[c]) + multiset(past[c])
    }

    /** A controller over a freshly read beatmap whose score counter is sized
        by its total note count. */
    constructor (futures: seq<seq<Note>>, counter: ScoreCounter)
      requires Columns(futures)
      requires counter.Valid() && counter.noteIndex == 0
      requires counter.scoresHitOrder.Length == Sum(futures)
      ensures Valid()
      ensures future == futures && present == [[], [], [], []] && past == [[], [], [], []]
      ensures scoreCounter == counter
    {
      future := futures;
      present := [[], [], [], []];
      past := [[], [], [], []];
      scoreCounter := counter;
      new;
      SumZero(present);
    }

    /** Moves note, the head of its column's Future, to the end of Present. */
    method SpawnNote(note: Note)
      requires Valid() && 0 <= note.col < NUM_COLS
      requires future[note.col] != [] && future[note.col][0] == note
      modifies this
      ensures Valid()
      ensures future == old(future)[note.col := old(future[note.col])[1..]]
      ensures present == old(present)[note.col := old(present[note.col]) + [note]]
      ensures past == old(past)
      ensures forall c :: 0 <= c < NUM_COLS ==> Notes(c) == old(Notes(c))
    {
      var col := note.col;
      SumUpdate(present, col, present[col] + [note]);
      SumUpdate(future, col, future[col][1..]);
      assert future[col] == [note] + future[col][1..];
      present := present[col := present[col] + [note]];
      future := future[col := future[col][1..]];
    }

    /** Records hitScore for note, found at position at of its column's
        Present, and moves it to the end of that column's Past. */
    method RegisterHitAndRemoveNote(note: Note, at: nat, hitScore: int)
      requires Valid() && IsCode(hitScore) && 0 <= note.col < NUM_COLS
      requires at < |present[note.col]| && present[note.col][at] == note
      modifies this, scoreCounter, scoreCounter.scores, scoreCounter.scoresHitOrder
      ensures Valid()
      ensures future == old(future)
      ensures present == old(present)[note.col := old(present[note.col])[..at] + old(present[note.col])[at + 1..]]
      ensures past == old(past)[note.col := old(past[note.col]) + [note]]
      ensures scoreCounter.hitOrder == old(scoreCounter.hitOrder) + [hitScore]
      ensures forall c :: 0 <= c < NUM_COLS ==> Notes(c) == old(Notes(c))
    {
      var col := note.col;
      var p := present[col];
      SumUpdate(present, col, p[..at] + p[at + 1..]);
      scoreCounter.Hit(hitScore);
      assert p == p[..at] + [note] + p[at + 1..];
      ColumnsUpdate(present, col, p[..at] + p[at + 1..]);
      ColumnsUpdate(past, col, past[col] + [note]);
      present := present[col := p[..at] + p[at + 1..]];
      past := past[col := past[col] + [note]];
    }

    /** Spawns the due prefix of column i's Future. */
    method SpawnColumn(i: int, gameTime: int, gameSpeedMs: int)
      requires Valid() && 0 <= i < NUM_COLS
      modifies this
      ensures Valid()
      ensures
        var k := SpawnCount(old(future[i]), gameTime, gameSpeedMs);
        && future == old(future)[i := old(future[i])[k..]]
        && present == old(present)[i := old(present[i]) + old(future[i])[..k]]
      ensures past == old(past)
      ensures forall c :: 0 <= c < NUM_COLS ==> Notes(c) == old(Notes(c))
    {
      var snapshot := future[i];
      var j := 0;
      while j < |snapshot|
        invariant 0 <= j <= |snapshot| && Valid()
        invariant future[i] == snapshot[j..] && present[i] == old(present[i]) + snapshot[..j]
        invariant forall c :: 0 <= c < NUM_COLS && c != i ==> future[c] == old(future[c]) && present[c] == old(present[c])
        invariant past == old(past)
        invariant forall m :: 0 <= m < j ==> IsDue(snapshot[m], gameTime, gameSpeedMs)
      {
        var noteInfo := snapshot[j];
        if noteInfo.time - gameTime > gameSpeedMs {
          break;
        }
        assert future[i][0] == noteInfo;
        ghost var p := present[i];
        SpawnNote(noteInfo);
        assert p + [noteInfo] == old(present[i]) + snapshot[..j + 1] by {
          assert snapshot[..j + 1] == snapshot[..j] + [noteInfo];
        }
        assert snapshot[j..][1..] == snapshot[j + 1..];
        j := j + 1;
      }
      SpawnCountUnique(snapshot, gameTime, gameSpeedMs, j);
      MoveKeepsNotes(old(present[i]), snapshot, j);
      ColumnUpdate(future, old(future), i, snapshot[j..]);
      ColumnUpdate(present, old(present), i, old(present[i]) + snapshot[..j]);
    }

    /** The pass of a sweep over a copy of one column's Present: charges a
        Poor to the score counter for each missed note, in order, and returns
        the notes that stay and the notes that go. */
    method ChargeMisses(snapshot: seq<Note>, gameTime: int, isMissed: (int, int) -> bool)
      returns (kept: seq<Note>, dropped: seq<Note>)
      requires scoreCounter.Valid()
      requires |snapshot| <= scoreCounter.scoresHitOrder.Length - scoreCounter.noteIndex
      modifies scoreCounter, scoreCounter.scores, scoreCounter.scoresHitOrder
      ensures kept == Kept(snapshot, gameTime, isMissed) && dropped == Dropped(snapshot, gameTime, isMissed)
      ensures scoreCounter.Valid()
      ensures ExtendsWithMisses(scoreCounter.hitOrder, old(scoreCounter.hitOrder))
      ensures |scoreCounter.hitOrder| == |old(scoreCounter.hitOrder)| + |dropped|
    {
      kept := [];
      dropped := [];
      ghost var order0 := scoreCounter.hitOrder;
      var j := 0;
      while j < |snapshot|
        invariant 0 <= j <= |snapshot| && |kept| + |dropped| == j
        invariant kept == Kept(snapshot[..j], gameTime, isMissed)
        invariant dropped == Dropped(snapshot[..j], gameTime, isMissed)
        invariant scoreCounter.Valid()
        invariant ExtendsWithMisses(scoreCounter.hitOrder, order0)
        invariant |scoreCounter.hitOrder| == |order0| + |dropped|
      {
        var note := snapshot[j];
        SweepStep(snapshot, j, gameTime, isMissed);
        if isMissed(note.time, gameTime) {
          scoreCounter.Hit(MISS);
          dropped := dropped + [note];
        } else {
          kept := kept + [note];
        }
        j := j + 1;
      }
      assert snapshot[..j] == snapshot;
    }

    /** Moves every missed Present note of column c to Past, recording a
        Poor for each. The column's new Present and Past are written back
        once the pass over its copy is over. */
    method SweepColumn(c: int, gameTime: int, isMissed: (int, int) -> bool)
      requires Valid() && 0 <= c < NUM_COLS
      modifies this, scoreCounter, scoreCounter.scores, scoreCounter.scoresHitOrder
      ensures Valid()
      ensures future == old(future)
      ensures present == old(present)[c := Kept(old(present[c]), gameTime, isMissed)]
      ensures past == old(past)[c := old(past[c]) + Dropped(old(present[c]), gameTime, isMissed)]
      ensures ExtendsWithMisses(scoreCounter.hitOrder, old(scoreCounter.hitOrder))
      ensures |scoreCounter.hitOrder| == |old(scoreCounter.hitOrder)| + |Dropped(old(present[c]), gameTime, isMissed)|
      ensures forall d :: 0 <= d < NUM_COLS ==> Notes(d) == old(Notes(d))
    {
      var snapshot := present[c];
      SumUpdate(present, c, []);
      var kept, dropped := ChargeMisses(snapshot, gameTime, isMissed);
      SweepPartition(snapshot, gameTime, isMissed);
      KeptInColumn(snapshot, c, gameTime, isMissed);
      SumUpdate(present, c, kept);
      present := present[c := kept];
      past := past[c := past[c] + dropped];
    }

    /** The spawn half of a tick: every column in turn. */
    method SpawnAll(gameTime: int, gameSpeedMs: int)
      requires Valid()
      modifies this
      ensures Valid()
      ensures forall c :: 0 <= c < NUM_COLS ==>
        future[c] == old(future[c])[SpawnCount(old(future[c]), gameTime, gameSpeedMs)..]
      ensures forall c :: 0 <= c < NUM_COLS ==>
        present[c] == old(present[c]) + Due(old(future[c]), gameTime, gameSpeedMs)
      ensures past == old(past)
      ensures forall c :: 0 <= c < NUM_COLS ==> Notes(c) == old(Notes(c))
    {
      for i := 0 to NUM_COLS
        invariant Valid()
        invariant forall c :: 0 <= c < i ==>
          future[c] == old(future[c])[SpawnCount(old(future[c]), gameTime, gameSpeedMs)..]
        invariant forall c :: 0 <= c < i ==>
          present[c] == old(present[c]) + Due(old(future[c]), gameTime, gameSpeedMs)
        invariant forall c :: i <= c < NUM_COLS ==> future[c] == old(future[c]) && present[c] == old(present[c])
        invariant past == old(past)
        invariant forall c :: 0 <= c < NUM_COLS ==> Notes(c) == old(Notes(c))
      {
        SpawnColumn(i, gameTime, gameSpeedMs);
      }
    }

    /** The sweep half of a tick: every column in turn. */
    method SweepAll(gameTime: int, isMissed: (int, int) -> bool)
      requires Valid()
      modifies this, scoreCounter, scoreCounter.scores, scoreCounter.scoresHitOrder
      ensures Valid()
      ensures future == old(future)
      ensures forall c :: 0 <= c < NUM_COLS ==> present[c] == Kept(old(present[c]), gameTime, isMissed)
      ensures forall c :: 0 <= c < NUM_COLS ==> past[c] == old(past[c]) + Dropped(old(present[c]), gameTime, isMissed)
      ensures ExtendsWithMisses(scoreCounter.hitOrder, old(scoreCounter.hitOrder))
      ensures forall c :: 0 <= c < NUM_COLS ==> Notes(c) == old(Notes(c))
    {
      ghost var order0 := scoreCounter.hitOrder;
      for c := 0 to NUM_COLS
        invariant Valid()
        invariant future == old(future)
        invariant forall d :: 0 <= d < c ==> present[d] == Kept(old(present[d]), gameTime, isMissed)
        invariant forall d :: 0 <= d < c ==> past[d] == old(past[d]) + Dropped(old(present[d]), gameTime, isMissed)
        invariant forall d :: c <= d < NUM_COLS ==> present[d] == old(present[d]) && past[d] == old(past[d])
        invariant ExtendsWithMisses(scoreCounter.hitOrder, order0)
        invariant forall d :: 0 <= d < NUM_COLS ==> Notes(d) == old(Notes(d))
      {
        ghost var before := scoreCounter.hitOrder;
        SweepColumn(c, gameTime, isMissed);
        ExtendsTrans(scoreCounter.hitOrder, before, order0);
      }
    }

    /** One tick: spawn the due notes of every column, then sweep every
        column for missed notes. */
    method Act(gameTime: int, gameSpeedMs: int, isMissed: (int, int) -> bool)
      requires Valid()
      modifies this, scoreCounter, scoreCounter.scores, scoreCounter.scoresHitOrder
      ensures Valid()
      ensures forall c :: 0 <= c < NUM_COLS ==>
        future[c] == old(future[c])[SpawnCount(old(future[c]), gameTime, gameSpeedMs)..]
      ensures forall c :: 0 <= c < NUM_COLS ==>
        present[c] == Kept(old(present[c]) + Due(old(future[c]), gameTime, gameSpeedMs), gameTime, isMissed)
      ensures forall c :: 0 <= c < NUM_COLS ==>
        past[c] == old(past[c]) + Dropped(old(present[c]) + Due(old(future[c]), gameTime, gameSpeedMs), gameTime, isMissed)
      ensures ExtendsWithMisses(scoreCounter.hitOrder, old(scoreCounter.hitOrder))
      ensures forall c :: 0 <= c < NUM_COLS ==> Notes(c) == old(Notes(c))
    {
      SpawnAll(gameTime, gameSpeedMs);
      SweepAll(gameTime, isMissed);
    }

    /** A keypress on column col at gameTime, judged by calculateHitValue. */
    method Hit(col: int, gameTime: int, calculateHitValue: (int, int) -> int)
      requires Valid() && 0 <= col < NUM_COLS
      requires forall h, t :: NO_JUDGEMENT <= calculateHitValue(h, t) <= 5
      modifies this, scoreCounter, scoreCounter.scores, scoreCounter.scoresHitOrder
      ensures Valid()
      ensures
        if old(present[col]) == [] || calculateHitValue(old(present[col][0]).time, gameTime) == NO_JUDGEMENT then
          && future == old(future) && present == old(present) && past == old(past)
          && unchanged(scoreCounter) && unchanged(scoreCounter.scores) && unchanged(scoreCounter.scoresHitOrder)
        else
          && future == old(future)
          && present == old(present)[col := old(present[col])[1..]]
          && past == old(past)[col := old(past[col]) + [old(present[col])[0]]]
          && scoreCounter.hitOrder == old(scoreCounter.hitOrder) + [calculateHitValue(old(present[col][0]).time, gameTime)]
      ensures forall c :: 0 <= c < NUM_COLS ==> Notes(c) == old(Notes(c))
    {
      if |present[col]| == 0 {
        return;
      }
      var note := present[col][0];
      var hit := calculateHitValue(note.time, gameTime);
      if hit == NO_JUDGEMENT {
        return;
      }
      assert present[col][..0] + present[col][1..] == present[col][1..];
      RegisterHitAndRemoveNote(note, 0, hit);
    }
  }
}
