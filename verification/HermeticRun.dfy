/** `read_run`: one build's event stream, possibly of several invocations, read into one tally. */
module HermeticRun {
  import opened Text

  /** One `runnerCount` row: a count, one that does not parse, or no row at all. */
  datatype Row = Counted(name: string, count: int) | Uncountable | NotARow

  /** One line of the stream. `command` says whether the command line carries the
      all-actions flag; an empty `action` or `completed` is an event without a label. */
  datatype Line =
    | Blank
    | Undecodable
    | Event(uuid: Option<string>, command: Option<bool>, action: Option<string>, completed: Option<string>,
            rows: seq<Row>, finished: bool)

  datatype Tally = Tally(invalidated: set<string>, universe: set<string>, runners: map<string, int>, uuids: set<string>,
                         commands: nat, flagged: nat, finished: bool, malformed: nat)

  datatype Reading = Reading(invalidated: set<string>, universe: set<string>, runners: map<string, int>, attempts: nat)

  datatype Code = MalformedLines | NotAllActions | Truncated | EmptyUniverse

  // ---- counts by runner ----------------------------------------------------------------------------------

  function Get(m: map<string, int>, name: string): int { if name in m then m[name] else 0 }

  function AddCounts(m: map<string, int>, n: map<string, int>): map<string, int> {
    map name | name in m.Keys + n.Keys :: Get(m, name) + Get(n, name)
  }

  lemma AddCountsAssociative(a: map<string, int>, b: map<string, int>, c: map<string, int>)
    ensures AddCounts(AddCounts(a, b), c) == AddCounts(a, AddCounts(b, c))
  {
  }

  lemma AddNoCounts(m: map<string, int>)
    ensures AddCounts(map[], m) == m && AddCounts(m, map[]) == m
  {
  }

  function RunnersIn(rows: seq<Row>): map<string, int> {
    if rows == [] then map[]
    else AddRow(RunnersIn(rows[..|rows| - 1]), rows[|rows| - 1])
  }

  function AddRow(m: map<string, int>, row: Row): map<string, int> {
    if row.Counted? then m[row.name := Get(m, row.name) + row.count] else m
  }

  function UncountableIn(rows: seq<Row>): nat {
    if rows == [] then 0 else UncountableIn(rows[..|rows| - 1]) + if rows[|rows| - 1].Uncountable? then 1 else 0
  }

  // ---- the tally -------------------------------------------------------------------------------------------

  function Nothing(): Tally { Tally({}, {}, map[], {}, 0, 0, false, 0) }

  function Labels(name: Option<string>): set<string> { if name.Some? && name.value != "" then {name.value} else {} }

  /** What one line adds. */
  function OfLine(line: Line): Tally {
    match line
    case Blank => Nothing()
    case Undecodable => Nothing().(malformed := 1)
    case Event(uuid, command, action, completed, rows, finished) =>
      Tally(Labels(action), Labels(completed), RunnersIn(rows), if uuid.Some? then {uuid.value} else {},
            if command.Some? then 1 else 0, if command == Some(true) then 1 else 0, finished,
            UncountableIn(rows) + if action == Some("") then 1 else 0)
  }

  /** Sets are united, counts added. */
  function Merge(a: Tally, b: Tally): Tally {
    Tally(a.invalidated + b.invalidated, a.universe + b.universe, AddCounts(a.runners, b.runners), a.uuids + b.uuids,
          a.commands + b.commands, a.flagged + b.flagged, a.finished || b.finished, a.malformed + b.malformed)
  }

  function TallyOf(lines: seq<Line>): Tally {
    if lines == [] then Nothing() else Merge(TallyOf(lines[..|lines| - 1]), OfLine(lines[|lines| - 1]))
  }

  lemma MergeAssociative(a: Tally, b: Tally, c: Tally)
    ensures Merge(Merge(a, b), c) == Merge(a, Merge(b, c))
  {
    AddCountsAssociative(a.runners, b.runners, c.runners);
  }

  lemma MergeNothing(t: Tally)
    ensures Merge(t, Nothing()) == t && Merge(Nothing(), t) == t
  {
    AddNoCounts(t.runners);
  }

  /** Reading two streams in one file is reading each and merging. */
  lemma {:induction false} TallyConcat(a: seq<Line>, b: seq<Line>)
    ensures TallyOf(a + b) == Merge(TallyOf(a), TallyOf(b))
    decreases |b|
  {
    if b == [] {
      assert a + b == a;
      MergeNothing(TallyOf(a));
    } else {
      var init, last := b[..|b| - 1], b[|b| - 1];
      assert (a + b)[..|a + b| - 1] == a + init;
      TallyConcat(a, init);
      MergeAssociative(TallyOf(a), TallyOf(init), OfLine(last));
    }
  }

  function ReadingOf(t: Tally): Reading {
    Reading(t.invalidated, t.universe, t.runners, if |t.uuids| >= 1 then |t.uuids| else 1)
  }

  /** The findings, in the order they are appended. */
  function FindingsOf(t: Tally): seq<Code> {
    (if t.malformed > 0 then [MalformedLines] else [])
    + (if t.commands == 0 || t.flagged != t.commands then [NotAllActions] else [])
    + (if !t.finished then [Truncated] else [])
    + (if t.universe == {} then [EmptyUniverse] else [])
  }

  // ---- the loop ----------------------------------------------------------------------------------------------

  method ReadRows(runners: map<string, int>, rows: seq<Row>) returns (after: map<string, int>, bad: nat)
    ensures after == AddCounts(runners, RunnersIn(rows)) && bad == UncountableIn(rows)
  {
    after, bad := runners, 0;
    AddNoCounts(runners);
    for i := 0 to |rows|
      invariant after == AddCounts(runners, RunnersIn(rows[..i])) && bad == UncountableIn(rows[..i])
    {
      assert rows[..i + 1][..i] == rows[..i];
      match rows[i] {
        case Counted(name, count) => after := after[name := Get(after, name) + count];
        case Uncountable => bad := bad + 1;
        case NotARow =>
      }
    }
    assert rows[..|rows|] == rows;
  }


  /** `read_run` */
  method ReadRun(lines: seq<Line>) returns (reading: Reading, findings: seq<Code>)
    ensures reading == ReadingOf(TallyOf(lines)) && findings == FindingsOf(TallyOf(lines))
    ensures ReadFrom(lines, reading)
  {
    ReadingIsRead(lines);
    var t := Nothing();
    for i := 0 to |lines|
      invariant t == TallyOf(lines[..i])
    {
      assert lines[..i + 1][..i] == lines[..i];
      t := ReadLine(t, lines[i]);
    }
    assert lines[..|lines|] == lines;
    reading := Reading(t.invalidated, t.universe, t.runners, if |t.uuids| > 1 then |t.uuids| else 1);
    findings := Floors(t);
  }

  /** Every floor the reading failed. */
  method Floors(t: Tally) returns (findings: seq<Code>)
    ensures findings == FindingsOf(t)
  {
    findings := [];
    if t.malformed > 0 { findings := findings + [MalformedLines]; }
    if t.commands == 0 || t.flagged != t.commands { findings := findings + [NotAllActions]; }
    if !t.finished { findings := findings + [Truncated]; }
    if t.universe == {} { findings := findings + [EmptyUniverse]; }
  }

  /** The body of the loop, one event kind after another. */
  method ReadLine(before: Tally, line: Line) returns (t: Tally)
    ensures t == Merge(before, OfLine(line))
  {
    t := before;
    match line {
      case Blank => MergeNothing(before);
      case Undecodable =>
        MergeNothing(before);
        t := t.(malformed := t.malformed + 1);
      case Event(uuid, command, action, completed, rows, finished) =>
        var runners, bad := ReadRows(before.runners, rows);
        var uuids, commands, flagged := ReadStart(before, uuid, command);
        var invalidated, universe, unnamed := ReadLabels(before, action, completed);
        t := Tally(invalidated, universe, runners, uuids, commands, flagged, before.finished || finished,
                   before.malformed + unnamed + bad);
    }
  }

  method ReadStart(t: Tally, uuid: Option<string>, command: Option<bool>)
    returns (uuids: set<string>, commands: nat, flagged: nat)
    ensures uuids == t.uuids + if uuid.Some? then {uuid.value} else {}
    ensures commands == t.commands + (if command.Some? then 1 else 0)
    ensures flagged == t.flagged + if command == Some(true) then 1 else 0
  {
    uuids, commands, flagged := t.uuids, t.commands, t.flagged;
    if uuid.Some? { uuids := uuids + {uuid.value}; }
    if command.Some? {
      commands := commands + 1;
      if command.value { flagged := flagged + 1; }
    }
  }

  method ReadLabels(t: Tally, action: Option<string>, completed: Option<string>)
      returns (invalidated: set<string>, universe: set<string>, unnamed: nat)
    ensures invalidated == t.invalidated + Labels(action) && universe == t.universe + Labels(completed)
    ensures unnamed == if action == Some("") then 1 else 0
  {
    invalidated, universe, unnamed := t.invalidated, t.universe, 0;
    if action.Some? {
      if action.value != "" { invalidated := invalidated + {action.value}; } else { unnamed := 1; }
    }
    if completed.Some? && completed.value != "" { universe := universe + {completed.value}; }
  }

  // ---- what the tally is --------------------------------------------------------------------------------------

  predicate Invalidates(line: Line, name: string) { line.Event? && line.action == Some(name) && name != "" }

  predicate Completes(line: Line, name: string) { line.Event? && line.completed == Some(name) && name != "" }

  predicate Starts(line: Line, uuid: string) { line.Event? && line.uuid == Some(uuid) }

  /** The sets are exactly the labels and ids some event names. */
  lemma {:induction false} SetsAre(lines: seq<Line>, name: string)
    ensures name in TallyOf(lines).invalidated <==> exists k :: 0 <= k < |lines| && Invalidates(lines[k], name)
    ensures name in TallyOf(lines).universe <==> exists k :: 0 <= k < |lines| && Completes(lines[k], name)
    ensures name in TallyOf(lines).uuids <==> exists k :: 0 <= k < |lines| && Starts(lines[k], name)
  {
    if lines != [] {
      var init, last := lines[..|lines| - 1], lines[|lines| - 1];
      SetsAre(init, name);
      assert name in OfLine(last).invalidated <==> Invalidates(last, name);
      assert name in OfLine(last).universe <==> Completes(last, name);
      assert name in OfLine(last).uuids <==> Starts(last, name);
      assert forall k :: 0 <= k < |init| ==> lines[k] == init[k];
    }
  }

  predicate Commands(line: Line) { line.Event? && line.command.Some? }

  predicate Flagged(line: Line) { line.Event? && line.command == Some(true) }

  lemma {:induction false} CommandsAre(lines: seq<Line>)
    ensures TallyOf(lines).flagged <= TallyOf(lines).commands
    ensures TallyOf(lines).commands > 0 <==> exists k :: 0 <= k < |lines| && Commands(lines[k])
    ensures TallyOf(lines).flagged == TallyOf(lines).commands <==>
              forall k :: 0 <= k < |lines| && Commands(lines[k]) ==> Flagged(lines[k])
  {
    if lines != [] {
      var init, last := lines[..|lines| - 1], lines[|lines| - 1];
      CommandsAre(init);
      assert forall k :: 0 <= k < |init| ==> lines[k] == init[k];
      assert OfLine(last).commands > 0 <==> Commands(last);
      assert OfLine(last).flagged > 0 <==> Flagged(last);
    }
  }

  /** The all-actions finding is absent exactly when some command line is recorded and every
      recorded one carries the flag. */
  lemma AllActionsIff(lines: seq<Line>)
    ensures NotAllActions !in FindingsOf(TallyOf(lines))
       <==> && (exists k :: 0 <= k < |lines| && Commands(lines[k]))
            && (forall k :: 0 <= k < |lines| && Commands(lines[k]) ==> Flagged(lines[k]))
  {
    CommandsAre(lines);
    FindingsAre(TallyOf(lines));
  }

  lemma FindingsAre(t: Tally)
    ensures NotAllActions in FindingsOf(t) <==> t.commands == 0 || t.flagged != t.commands
    ensures MalformedLines in FindingsOf(t) <==> t.malformed > 0
    ensures Truncated in FindingsOf(t) <==> !t.finished
    ensures EmptyUniverse in FindingsOf(t) <==> t.universe == {}
  {
  }

  predicate Finishes(line: Line) { line.Event? && line.finished }

  /** A line that does not decode, an action without a label, or a count that does not parse. */
  predicate Malforms(line: Line) {
    line.Undecodable? || (line.Event? && (line.action == Some("") || Uncountable in line.rows))
  }

  lemma {:induction false} UncountableIff(rows: seq<Row>)
    ensures UncountableIn(rows) > 0 <==> Uncountable in rows
  {
    if rows != [] {
      UncountableIff(rows[..|rows| - 1]);
      assert rows == rows[..|rows| - 1] + [rows[|rows| - 1]];
    }
  }

  lemma {:induction false} EndsAre(lines: seq<Line>)
    ensures TallyOf(lines).finished <==> exists k :: 0 <= k < |lines| && Finishes(lines[k])
    ensures TallyOf(lines).malformed > 0 <==> exists k :: 0 <= k < |lines| && Malforms(lines[k])
  {
    if lines != [] {
      var init, last := lines[..|lines| - 1], lines[|lines| - 1];
      EndsAre(init);
      if last.Event? { UncountableIff(last.rows); }
      assert OfLine(last).finished <==> Finishes(last);
      assert OfLine(last).malformed > 0 <==> Malforms(last);
      assert forall k :: 0 <= k < |init| ==> lines[k] == init[k];
    }
  }

  /** The other three findings on the lines: truncated without a finishing event, malformed with
      a line that is, empty without a completed target. */
  lemma OtherFindingsIff(lines: seq<Line>)
    ensures Truncated in FindingsOf(TallyOf(lines)) <==> !exists k :: 0 <= k < |lines| && Finishes(lines[k])
    ensures MalformedLines in FindingsOf(TallyOf(lines)) <==> exists k :: 0 <= k < |lines| && Malforms(lines[k])
    ensures EmptyUniverse in FindingsOf(TallyOf(lines))
       <==> !exists k, name :: 0 <= k < |lines| && Completes(lines[k], name)
  {
    EndsAre(lines);
    FindingsAre(TallyOf(lines));
    if TallyOf(lines).universe != {} {
      var name :| name in TallyOf(lines).universe;
      SetsAre(lines, name);
    }
    if k, name :| 0 <= k < |lines| && Completes(lines[k], name) { SetsAre(lines, name); }
  }

  /** Every runner row of the stream. */
  function AllRows(lines: seq<Line>): seq<Row> {
    if lines == [] then []
    else AllRows(lines[..|lines| - 1]) + if lines[|lines| - 1].Event? then lines[|lines| - 1].rows else []
  }

  /** The sum of the counts given for a runner. */
  function CountFor(rows: seq<Row>, name: string): int {
    if rows == [] then 0
    else CountFor(rows[..|rows| - 1], name)
         + if rows[|rows| - 1].Counted? && rows[|rows| - 1].name == name then rows[|rows| - 1].count else 0
  }

  predicate Counts(row: Row, name: string) { row.Counted? && row.name == name }

  ghost predicate SomeRow(rows: seq<Row>, name: string) { exists k :: 0 <= k < |rows| && Counts(rows[k], name) }

  lemma {:induction false} CountForConcat(a: seq<Row>, b: seq<Row>, name: string)
    ensures CountFor(a + b, name) == CountFor(a, name) + CountFor(b, name)
    decreases |b|
  {
    if b == [] {
      assert a + b == a;
    } else {
      assert (a + b)[..|a + b| - 1] == a + b[..|b| - 1];
      CountForConcat(a, b[..|b| - 1], name);
    }
  }

  lemma {:induction false} RunnersInAre(rows: seq<Row>, name: string)
    ensures Get(RunnersIn(rows), name) == CountFor(rows, name)
    ensures name in RunnersIn(rows) <==> SomeRow(rows, name)
  {
    if rows != [] {
      RunnersInAre(rows[..|rows| - 1], name);
      assert forall k :: 0 <= k < |rows| - 1 ==> rows[k] == rows[..|rows| - 1][k];
    }
  }

  lemma SomeConcat(a: seq<Row>, b: seq<Row>, name: string)
    ensures SomeRow(a + b, name) <==> SomeRow(a, name) || SomeRow(b, name)
  {
    if k :| 0 <= k < |a| && Counts(a[k], name) { assert Counts((a + b)[k], name); }
    if k :| 0 <= k < |b| && Counts(b[k], name) { assert Counts((a + b)[|a| + k], name); }
    if k :| 0 <= k < |a + b| && Counts((a + b)[k], name) {
      if k < |a| { assert Counts(a[k], name); } else { assert Counts(b[k - |a|], name); }
    }
  }

  /** A runner is there exactly when some row counts for it, with the sum of all such rows. */
  lemma {:induction false} RunnersAre(lines: seq<Line>, name: string)
    ensures Get(TallyOf(lines).runners, name) == CountFor(AllRows(lines), name)
    ensures name in TallyOf(lines).runners <==> SomeRow(AllRows(lines), name)
  {
    if lines != [] {
      var init, last := lines[..|lines| - 1], lines[|lines| - 1];
      var rows := if last.Event? then last.rows else [];
      RunnersAre(init, name);
      RunnersInAre(rows, name);
      CountForConcat(AllRows(init), rows, name);
      SomeConcat(AllRows(init), rows, name);
    }
  }

  /** The reading in terms of the lines: the labels, the runners with their sums, and how many
      invocations there were, at least one. */
  ghost predicate ReadFrom(lines: seq<Line>, reading: Reading) {
    && (forall name :: name in reading.invalidated <==> exists k :: 0 <= k < |lines| && Invalidates(lines[k], name))
    && (forall name :: name in reading.universe <==> exists k :: 0 <= k < |lines| && Completes(lines[k], name))
    && (forall name :: Get(reading.runners, name) == CountFor(AllRows(lines), name))
    && (forall name :: name in reading.runners <==> SomeRow(AllRows(lines), name))
    && exists ids: set<string> ::
         (forall id :: id in ids <==> exists k :: 0 <= k < |lines| && Starts(lines[k], id))
         && reading.attempts == if ids == {} then 1 else |ids|
  }

  lemma ReadingIsRead(lines: seq<Line>)
    ensures ReadFrom(lines, ReadingOf(TallyOf(lines)))
  {
    var t := TallyOf(lines);
    forall name
      ensures name in t.invalidated <==> exists k :: 0 <= k < |lines| && Invalidates(lines[k], name)
      ensures name in t.universe <==> exists k :: 0 <= k < |lines| && Completes(lines[k], name)
      ensures name in t.uuids <==> exists k :: 0 <= k < |lines| && Starts(lines[k], name)
    {
      SetsAre(lines, name);
    }
    forall name
      ensures Get(t.runners, name) == CountFor(AllRows(lines), name)
      ensures name in t.runners <==> SomeRow(AllRows(lines), name)
    {
      RunnersAre(lines, name);
    }
    assert ReadingOf(t).attempts == if t.uuids == {} then 1 else |t.uuids|;
  }

  /** What a second stream in the file does to the findings: a malformed line of either shows;
      a truncated or empty stream is hidden by one that is not; the all-actions finding of a
      stream is hidden exactly when that stream records no command line and the other has
      none of it. */
  lemma ConcatFindings(a: seq<Line>, b: seq<Line>)
    ensures var f, g, both := FindingsOf(TallyOf(a)), FindingsOf(TallyOf(b)), FindingsOf(TallyOf(a + b));
            && (MalformedLines in both <==> MalformedLines in f || MalformedLines in g)
            && (Truncated in both <==> Truncated in f && Truncated in g)
            && (EmptyUniverse in both <==> EmptyUniverse in f && EmptyUniverse in g)
            && (NotAllActions in both <==> || (NotAllActions in f && NotAllActions in g)
                                           || (TallyOf(a).commands > 0 && NotAllActions in f)
                                           || (TallyOf(b).commands > 0 && NotAllActions in g))
  {
    TallyConcat(a, b);
    CommandsAre(a);
    CommandsAre(b);
    FindingsAre(TallyOf(a));
    FindingsAre(TallyOf(b));
    FindingsAre(Merge(TallyOf(a), TallyOf(b)));
  }

  // ---- cache hits -----------------------------------------------------------------------------------------------

  function Lower(s: string): string {
    seq(|s|, k requires 0 <= k < |s| => if 'A' <= s[k] <= 'Z' then (s[k] as int + 32) as char else s[k])
  }

  predicate IsCacheHit(runner: string) { Find(Lower(runner), "cache hit").Some? }

  /** The character, or the capital it is the small letter of. */
  predicate IsLetter(c: char, small: char) { c == small || (c as int + 32 == small as int && 'a' <= small <= 'z') }

  /** The runner's name spells `cache hit` somewhere, in letters of either case. */
  ghost predicate SpellsHit(runner: string) {
    exists i :: SpellsAt(runner, i)
  }

  ghost predicate SpellsAt(runner: string, i: int) {
    0 <= i <= |runner| - 9 && forall k :: 0 <= k < 9 ==> IsLetter(runner[i + k], "cache hit"[k])
  }

  lemma HitAt(runner: string, i: int)
    requires 0 <= i <= |runner| - 9
    ensures OccursAt(Lower(runner), "cache hit", i) <==> SpellsAt(runner, i)
  {
    var low, hit := Lower(runner), "cache hit";
    forall k | 0 <= k < 9 ensures low[i + k] == hit[k] <==> IsLetter(runner[i + k], hit[k]) {
      assert hit[k] == ' ' || 'a' <= hit[k] <= 'z';
    }
    var part := low[i..i + 9];
    assert forall k :: 0 <= k < 9 ==> part[k] == low[i + k];
    if SpellsAt(runner, i) { assert part == hit; }
  }

  lemma CacheHitIs(runner: string)
    ensures IsCacheHit(runner) <==> SpellsHit(runner)
  {
    var low := Lower(runner);
    if IsCacheHit(runner) { HitAt(runner, Find(low, "cache hit").value); }
    if i :| SpellsAt(runner, i) { HitAt(runner, i); }
  }

  /** `Reading.reexecuted` */
  predicate Reexecuted(m: map<string, int>) { forall name :: name in m ==> !IsCacheHit(name) }

  function Hitting(m: map<string, int>): set<string> { set name | name in m.Keys && IsCacheHit(name) }

  /** The sum of the counts under some names. */
  ghost function SumOver(names: set<string>, m: map<string, int>): int {
    if names == {} then 0 else var name :| name in names; Get(m, name) + SumOver(names - {name}, m)
  }

  lemma {:induction false} SumPick(names: set<string>, m: map<string, int>, name: string)
    requires name in names
    ensures SumOver(names, m) == Get(m, name) + SumOver(names - {name}, m)
  {
    var first :| first in names && SumOver(names, m) == Get(m, first) + SumOver(names - {first}, m);
    if first != name {
      SumPick(names - {first}, m, name);
      SumPick(names - {name}, m, first);
      assert names - {first} - {name} == names - {name} - {first};
    }
  }

  lemma {:induction false} SumAdds(names: set<string>, m: map<string, int>, n: map<string, int>)
    ensures SumOver(names, AddCounts(m, n)) == SumOver(names, m) + SumOver(names, n)
  {
    if names != {} {
      var name :| name in names;
      SumPick(names, AddCounts(m, n), name);
      SumPick(names, m, name);
      SumPick(names, n, name);
      SumAdds(names - {name}, m, n);
    }
  }

  lemma {:induction false} SumIgnores(names: set<string>, m: map<string, int>, extra: set<string>)
    requires extra !! m.Keys && extra !! names
    ensures SumOver(names + extra, m) == SumOver(names, m)
  {
    if extra == {} {
      assert names + extra == names;
    } else {
      var name :| name in extra;
      SumPick(names + extra, m, name);
      assert names + extra - {name} == names + (extra - {name});
      SumIgnores(names, m, extra - {name});
    }
  }

  ghost function Hits(m: map<string, int>): int { SumOver(Hitting(m), m) }

  lemma HitsOver(m: map<string, int>, names: set<string>)
    requires Hitting(m) <= names && forall name :: name in names ==> IsCacheHit(name)
    ensures SumOver(names, m) == Hits(m)
  {
    var extra := names - Hitting(m);
    SumIgnores(Hitting(m), m, extra);
    assert Hitting(m) + extra == names;
  }

  lemma HittingAdds(m: map<string, int>, n: map<string, int>)
    ensures Hitting(AddCounts(m, n)) == Hitting(m) + Hitting(n)
  {
  }

  /** Hits add over two streams, and the work really ran in both exactly when it did in each. */
  lemma HitsAdd(m: map<string, int>, n: map<string, int>)
    ensures Hits(AddCounts(m, n)) == Hits(m) + Hits(n)
    ensures Reexecuted(AddCounts(m, n)) <==> Reexecuted(m) && Reexecuted(n)
  {
    HittingAdds(m, n);
    var names := Hitting(m) + Hitting(n);
    SumAdds(names, m, n);
    HitsOver(m, names);
    HitsOver(n, names);
  }


  /** `disk_cache_hits` */
  method DiskCacheHits(m: map<string, int>) returns (hits: int)
    ensures hits == Hits(m)
  {
    hits := 0;
    var todo := m.Keys;
    assert Hitting(m) * todo == Hitting(m);
    while todo != {}
      invariant todo <= m.Keys && hits + SumOver(Hitting(m) * todo, m) == Hits(m)
      decreases |todo|
    {
      var name :| name in todo;
      if IsCacheHit(name) {
        SumPick(Hitting(m) * todo, m, name);
        assert Hitting(m) * todo - {name} == Hitting(m) * (todo - {name});
        hits := hits + m[name];
      } else {
        assert Hitting(m) * todo == Hitting(m) * (todo - {name});
      }
      todo := todo - {name};
    }
    assert Hitting(m) * {} == {};
  }
}
