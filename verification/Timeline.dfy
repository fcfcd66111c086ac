/** The timeline reader: windows from a log of start and end marks, sorted by start, and what the
    count of overlapping neighbours says about all pairs. */
module Timeline {
  import opened Text

  /** One log line in whitespace-separated parts, and the third part as a number. */
  datatype Line = Line(parts: seq<string>, at: real)

  datatype Window = Window(start: Option<real>, end: Option<real>)

  datatype Row = Row(start: real, end: real, name: string)

  // ---- the marks of one name --------------------------------------------------------------------------

  /** A mark of this name and kind. */
  predicate Marks(line: Line, name: string, kind: string) {
    |line.parts| == 3 && line.parts[0] == name && line.parts[1] == kind
  }

  /** The last mark of a name and kind. */
  function LastMark(log: seq<Line>, name: string, kind: string): Option<real> {
    if log == [] then None
    else if Marks(log[|log| - 1], name, kind) then Some(log[|log| - 1].at)
    else LastMark(log[..|log| - 1], name, kind)
  }

  function WindowOf(log: seq<Line>, name: string): Window {
    Window(LastMark(log, name, "start"), LastMark(log, name, "end"))
  }

  predicate Accepted(line: Line, names: set<string>) {
    |line.parts| == 3 && line.parts[0] in names && (line.parts[1] == "start" || line.parts[1] == "end")
  }

  /** `windows[name]`, empty when absent. */
  function At(windows: map<string, Window>, name: string): Window {
    if name in windows then windows[name] else Window(None, None)
  }

  function SetMark(w: Window, kind: string, at: real): Window {
    if kind == "start" then w.(start := Some(at)) else w.(end := Some(at))
  }

  ghost predicate Kept(log: seq<Line>, names: set<string>, windows: map<string, Window>) {
    forall name :: At(windows, name) == if name in names then WindowOf(log, name) else Window(None, None)
  }

  lemma LastMarkSnoc(log: seq<Line>, line: Line, name: string, kind: string)
    ensures LastMark(log + [line], name, kind)
         == if Marks(line, name, kind) then Some(line.at) else LastMark(log, name, kind)
  {
    assert (log + [line])[..|log|] == log;
  }

  lemma KindsDiffer()
    ensures "start" != "end"
  {
    assert |"start"| != |"end"|;
  }

  lemma WindowSnoc(log: seq<Line>, line: Line, name: string)
    ensures WindowOf(log + [line], name)
         == if Marks(line, name, "start") || Marks(line, name, "end")
            then SetMark(WindowOf(log, name), line.parts[1], line.at)
            else WindowOf(log, name)
  {
    KindsDiffer();
    LastMarkSnoc(log, line, name, "start");
    LastMarkSnoc(log, line, name, "end");
  }

  lemma KeptSnoc(log: seq<Line>, line: Line, names: set<string>, windows: map<string, Window>)
    requires Kept(log, names, windows)
    ensures Kept(log + [line], names,
                 if Accepted(line, names)
                 then windows[line.parts[0] := SetMark(At(windows, line.parts[0]), line.parts[1], line.at)]
                 else windows)
  {
    var after := if Accepted(line, names)
                 then windows[line.parts[0] := SetMark(At(windows, line.parts[0]), line.parts[1], line.at)]
                 else windows;
    forall name ensures At(after, name) == if name in names then WindowOf(log + [line], name) else Window(None, None) {
      assert At(windows, name) == if name in names then WindowOf(log, name) else Window(None, None);
      WindowSnoc(log, line, name);
    }
  }

  method ReadWindows(log: seq<Line>, names: set<string>) returns (windows: map<string, Window>)
    ensures Kept(log, names, windows)
  {
    windows := map[];
    for i := 0 to |log|
      invariant Kept(log[..i], names, windows)
    {
      assert log[..i + 1] == log[..i] + [log[i]];
      KeptSnoc(log[..i], log[i], names, windows);
      if !Accepted(log[i], names) { continue; }
      var name := log[i].parts[0];
      windows := windows[name := SetMark(At(windows, name), log[i].parts[1], log[i].at)];
    }
    assert log[..|log|] == log;
  }

  // ---- the sort -------------------------------------------------------------------------------------------

  predicate StringLe(a: string, b: string) {
    a == "" || (b != "" && (a[0] < b[0] || (a[0] == b[0] && StringLe(a[1..], b[1..]))))
  }

  lemma {:induction false} StringTotal(a: string, b: string)
    ensures StringLe(a, b) || StringLe(b, a)
  {
    if a != "" && b != "" { StringTotal(a[1..], b[1..]); }
  }

  lemma {:induction false} StringTransitive(a: string, b: string, c: string)
    requires StringLe(a, b) && StringLe(b, c)
    ensures StringLe(a, c)
  {
    if a != "" && a[0] == b[0] == c[0] { StringTransitive(a[1..], b[1..], c[1..]); }
  }

  /** The order of `(start, end, name)` tuples. */
  predicate Le(r: Row, s: Row) {
    r.start < s.start || (r.start == s.start && (r.end < s.end || (r.end == s.end && StringLe(r.name, s.name))))
  }

  lemma LeTotal(r: Row, s: Row)
    ensures Le(r, s) || Le(s, r)
  {
    StringTotal(r.name, s.name);
  }

  lemma LeTransitive(r: Row, s: Row, t: Row)
    requires Le(r, s) && Le(s, t)
    ensures Le(r, t)
  {
    if StringLe(r.name, s.name) && StringLe(s.name, t.name) { StringTransitive(r.name, s.name, t.name); }
  }

  /** A prefix, or smaller where the two first differ. */
  ghost predicate ComesFirst(a: string, b: string) {
    a <= b || exists i :: SmallerAt(a, b, i)
  }

  ghost predicate SmallerAt(a: string, b: string, i: int) {
    0 <= i < |a| && i < |b| && a[..i] == b[..i] && a[i] < b[i]
  }

  lemma SmallerCons(c: char, a: string, b: string, i: int)
    requires SmallerAt([c] + a, [c] + b, i)
    ensures SmallerAt(a, b, i - 1)
  {
    assert i > 0;
    assert a[..i - 1] == ([c] + a)[..i][1..] && b[..i - 1] == ([c] + b)[..i][1..];
  }

  lemma ConsSmaller(c: char, a: string, b: string, i: int)
    requires SmallerAt(a, b, i)
    ensures SmallerAt([c] + a, [c] + b, i + 1)
  {
    assert ([c] + a)[..i + 1] == [c] + a[..i] && ([c] + b)[..i + 1] == [c] + b[..i];
  }

  lemma PrefixCons(c: char, a: string, b: string)
    ensures [c] + a <= [c] + b <==> a <= b
  {
    if [c] + a <= [c] + b { assert a == ([c] + a)[1..] && b[..|a|] == ([c] + b)[..|a| + 1][1..]; }
  }

  lemma ComesFirstCons(c: char, a: string, b: string)
    ensures ComesFirst([c] + a, [c] + b) <==> ComesFirst(a, b)
  {
    PrefixCons(c, a, b);
    if i :| SmallerAt([c] + a, [c] + b, i) { SmallerCons(c, a, b, i); }
    if i :| SmallerAt(a, b, i) { ConsSmaller(c, a, b, i); }
  }

  lemma {:induction false} StringLeIs(a: string, b: string)
    ensures StringLe(a, b) <==> ComesFirst(a, b)
  {
    if a != "" && b != "" && a[0] == b[0] {
      StringLeIs(a[1..], b[1..]);
      ComesFirstCons(a[0], a[1..], b[1..]);
      assert a == [a[0]] + a[1..] && b == [a[0]] + b[1..];
    } else if a != "" && b != "" {
      FirstDiffers(a, b);
    }
  }

  lemma FirstDiffers(a: string, b: string)
    requires a != "" && b != "" && a[0] != b[0]
    ensures ComesFirst(a, b) <==> a[0] < b[0]
  {
    if a[0] < b[0] { assert SmallerAt(a, b, 0); }
    if i :| SmallerAt(a, b, i) {
      if i > 0 { assert a[..i][0] == b[..i][0]; }
    }
  }

  lemma {:induction false} StringAntisymmetric(a: string, b: string)
    requires StringLe(a, b) && StringLe(b, a)
    ensures a == b
  {
    if a != "" {
      StringAntisymmetric(a[1..], b[1..]);
      assert a == [a[0]] + a[1..] && b == [b[0]] + b[1..];
    }
  }

  /** Only a row is level with itself: the sorted order of some rows is one. */
  lemma LeAntisymmetric(r: Row, s: Row)
    requires Le(r, s) && Le(s, r)
    ensures r == s
  {
    StringAntisymmetric(r.name, s.name);
  }

  ghost predicate Sorted(rows: seq<Row>) { forall i, j :: 0 <= i < j < |rows| ==> Le(rows[i], rows[j]) }

  function Insert(rows: seq<Row>, r: Row): seq<Row> {
    if rows == [] || Le(r, rows[0]) then [r] + rows else [rows[0]] + Insert(rows[1..], r)
  }

  lemma {:induction false} InsertKeeps(rows: seq<Row>, r: Row)
    ensures multiset(Insert(rows, r)) == multiset(rows) + multiset{r}
  {
    if rows != [] && !Le(r, rows[0]) {
      InsertKeeps(rows[1..], r);
      assert rows == [rows[0]] + rows[1..];
    }
  }

  lemma InsertMembers(rows: seq<Row>, r: Row, s: Row)
    ensures s in Insert(rows, r) <==> s in rows || s == r
  {
    InsertKeeps(rows, r);
    assert s in multiset(Insert(rows, r)) <==> s in Insert(rows, r);
    assert s in multiset(rows) <==> s in rows;
  }

  lemma SortedCons(r: Row, rows: seq<Row>)
    requires Sorted(rows) && forall s :: s in rows ==> Le(r, s)
    ensures Sorted([r] + rows)
  {
    forall i, j | 0 <= i < j < |[r] + rows| ensures Le(([r] + rows)[i], ([r] + rows)[j]) {
      assert rows[j - 1] in rows;
      if i > 0 { assert Le(rows[i - 1], rows[j - 1]); }
    }
  }

  lemma HeadIsLeast(rows: seq<Row>, r: Row)
    requires Sorted(rows) && rows != [] && Le(r, rows[0])
    ensures forall s :: s in rows ==> Le(r, s)
  {
    forall s | s in rows ensures Le(r, s) {
      var k :| 0 <= k < |rows| && rows[k] == s;
      if k > 0 { LeTransitive(r, rows[0], rows[k]); }
    }
  }

  lemma {:induction false} InsertSorts(rows: seq<Row>, r: Row)
    requires Sorted(rows)
    ensures Sorted(Insert(rows, r))
  {
    if rows == [] {
    } else if Le(r, rows[0]) {
      HeadIsLeast(rows, r);
      SortedCons(r, rows);
    } else {
      var rest := rows[1..];
      InsertSorts(rest, r);
      LeTotal(r, rows[0]);
      forall s | s in Insert(rest, r) ensures Le(rows[0], s) {
        InsertMembers(rest, r, s);
        if s in rest {
          var k :| 0 <= k < |rest| && rest[k] == s;
          assert rows[k + 1] == s;
        }
      }
      SortedCons(rows[0], Insert(rest, r));
    }
  }

  // ---- overlaps --------------------------------------------------------------------------------------------

  /** How many rows end after their right neighbour starts. */
  function Adjacent(rows: seq<Row>): nat {
    if |rows| < 2 then 0
    else Adjacent(rows[..|rows| - 1]) + if rows[|rows| - 2].end > rows[|rows| - 1].start then 1 else 0
  }

  predicate Disjoint(r: Row, s: Row) { r.end <= s.start || s.end <= r.start }

  ghost predicate AllDisjoint(rows: seq<Row>) { forall i, j :: 0 <= i < j < |rows| ==> Disjoint(rows[i], rows[j]) }

  ghost predicate Forward(rows: seq<Row>) { forall k :: 0 <= k < |rows| ==> rows[k].start <= rows[k].end }

  /** How many rows overlap `r`. */
  function Overlapping(rows: seq<Row>, r: Row): nat {
    if rows == [] then 0 else Overlapping(rows[..|rows| - 1], r) + if Disjoint(rows[|rows| - 1], r) then 0 else 1
  }

  /** How many pairs overlap. */
  function Pairs(rows: seq<Row>): nat {
    if rows == [] then 0 else Pairs(rows[..|rows| - 1]) + Overlapping(rows[..|rows| - 1], rows[|rows| - 1])
  }

  /** The row ends after its right neighbour starts, though that one ends before it starts. */
  predicate Inverted(r: Row, s: Row) { s.end <= r.start && r.end > s.start }

  /** How many neighbours are inverted. */
  function Inversions(rows: seq<Row>): nat {
    if |rows| < 2 then 0
    else Inversions(rows[..|rows| - 1]) + if Inverted(rows[|rows| - 2], rows[|rows| - 1]) then 1 else 0
  }

  /** What a counted neighbour is: an overlapping one or an inverted one, never both. */
  lemma CountedIsOverlapOrInversion(r: Row, s: Row)
    requires Le(r, s)
    ensures r.end > s.start <==> !Disjoint(r, s) || Inverted(r, s)
    ensures !(!Disjoint(r, s) && Inverted(r, s))
  {
  }

  /** A window that goes forward is not inverted with a forward neighbour. */
  lemma {:induction false} ForwardHasNoInversions(rows: seq<Row>)
    requires Sorted(rows) && Forward(rows)
    ensures Inversions(rows) == 0
  {
    if |rows| >= 2 {
      ForwardHasNoInversions(rows[..|rows| - 1]);
      assert Le(rows[|rows| - 2], rows[|rows| - 1]);
    }
  }

  /** No neighbours overlapping puts every row before all later ones, forward or not. */
  lemma {:induction false} NoNeighboursNoPairs(rows: seq<Row>, i: nat, j: nat)
    requires Sorted(rows) && Adjacent(rows) == 0 && i < j < |rows|
    ensures rows[i].end <= rows[j].start
  {
    var init := rows[..|rows| - 1];
    if j < |rows| - 1 {
      NoNeighboursNoPairs(init, i, j);
    } else if i < j - 1 {
      NoNeighboursNoPairs(init, i, j - 1);
      assert Le(rows[j - 1], rows[j]);
    }
  }

  lemma {:induction false} NoInversionsCounted(rows: seq<Row>)
    requires Adjacent(rows) == 0
    ensures Inversions(rows) == 0
  {
    if |rows| >= 2 { NoInversionsCounted(rows[..|rows| - 1]); }
  }

  lemma {:induction false} DisjointNoNeighbours(rows: seq<Row>)
    requires Sorted(rows) && AllDisjoint(rows) && Inversions(rows) == 0
    ensures Adjacent(rows) == 0
  {
    if |rows| >= 2 {
      DisjointNoNeighbours(rows[..|rows| - 1]);
      CountedIsOverlapOrInversion(rows[|rows| - 2], rows[|rows| - 1]);
    }
  }

  /** The count is zero exactly when all windows are pairwise disjoint and no neighbours are
      inverted, for all sorted rows. */
  lemma ZeroIff(rows: seq<Row>)
    requires Sorted(rows)
    ensures Adjacent(rows) == 0 <==> AllDisjoint(rows) && Inversions(rows) == 0
  {
    if Adjacent(rows) == 0 {
      forall i, j | 0 <= i < j < |rows| ensures Disjoint(rows[i], rows[j]) { NoNeighboursNoPairs(rows, i, j); }
      NoInversionsCounted(rows);
    } else if AllDisjoint(rows) && Inversions(rows) == 0 {
      DisjointNoNeighbours(rows);
    }
  }

  /** For forward windows: exactly when all are pairwise disjoint. */
  lemma ZeroIffDisjoint(rows: seq<Row>)
    requires Sorted(rows) && Forward(rows)
    ensures Adjacent(rows) == 0 <==> AllDisjoint(rows)
  {
    ZeroIff(rows);
    ForwardHasNoInversions(rows);
  }

  /** The count never exceeds the overlapping pairs and the inversions together. */
  lemma {:induction false} CountBelowPairs(rows: seq<Row>)
    requires Sorted(rows)
    ensures Adjacent(rows) <= Pairs(rows) + Inversions(rows)
  {
    if |rows| >= 2 {
      var init := rows[..|rows| - 1];
      CountBelowPairs(init);
      CountedIsOverlapOrInversion(rows[|rows| - 2], rows[|rows| - 1]);
      assert init[|init| - 1] == rows[|rows| - 2];
    }
  }

  /** An inverted pair needs a window that ends before it starts, is disjoint, and is counted. */
  lemma BackwardWindowCounts(r: Row, s: Row)
    requires Le(r, s) && Inverted(r, s)
    ensures s.end < s.start && Sorted([r, s]) && AllDisjoint([r, s]) && Adjacent([r, s]) == 1
  {
    assert [r, s][..1] == [r];
  }

  // ---- the numbers are numbers of things ----------------------------------------------------------------------

  predicate CountedAt(rows: seq<Row>, i: int) { 0 <= i < |rows| - 1 && rows[i].end > rows[i + 1].start }

  predicate InvertsAt(rows: seq<Row>, i: int) { 0 <= i < |rows| - 1 && Inverted(rows[i], rows[i + 1]) }

  predicate OverlapAt(rows: seq<Row>, i: int, j: int) { 0 <= i < j < |rows| && !Disjoint(rows[i], rows[j]) }

  function Neighbours(rows: seq<Row>): set<int> { set i | 0 <= i < |rows| && CountedAt(rows, i) }

  function InvertedAt(rows: seq<Row>): set<int> { set i | 0 <= i < |rows| && InvertsAt(rows, i) }

  function OverlapsWith(rows: seq<Row>, r: Row): set<int> { set i | 0 <= i < |rows| && !Disjoint(rows[i], r) }

  function PairsIn(rows: seq<Row>): set<(int, int)> {
    set i, j | 0 <= i < |rows| && 0 <= j < |rows| && OverlapAt(rows, i, j) :: (i, j)
  }

  lemma NeighbourStep(rows: seq<Row>, n: int)
    requires n == |rows| - 2 >= 0
    ensures Neighbours(rows) == Neighbours(rows[..n + 1]) + if rows[n].end > rows[n + 1].start then {n} else {}
    ensures InvertedAt(rows) == InvertedAt(rows[..n + 1]) + if Inverted(rows[n], rows[n + 1]) then {n} else {}
  {
    var init := rows[..n + 1];
    forall i
      ensures CountedAt(rows, i) <==> CountedAt(init, i) || (i == n && rows[n].end > rows[n + 1].start)
      ensures InvertsAt(rows, i) <==> InvertsAt(init, i) || (i == n && Inverted(rows[n], rows[n + 1]))
    {
    }
  }

  lemma {:induction false} NeighboursCounted(rows: seq<Row>)
    ensures Adjacent(rows) == |Neighbours(rows)| && Inversions(rows) == |InvertedAt(rows)|
  {
    if |rows| >= 2 {
      NeighboursCounted(rows[..|rows| - 1]);
      NeighbourStep(rows, |rows| - 2);
    } else {
      assert Neighbours(rows) == {} && InvertedAt(rows) == {};
    }
  }

  lemma OverlapStep(rows: seq<Row>, r: Row, n: int)
    requires n == |rows| - 1 >= 0
    ensures OverlapsWith(rows, r) == OverlapsWith(rows[..n], r) + if Disjoint(rows[n], r) then {} else {n}
    ensures n !in OverlapsWith(rows[..n], r)
  {
  }

  function With(s: set<int>, n: int): set<(int, int)> { set i | i in s :: (i, n) }

  lemma WithStep(s: set<int>, m: int, n: int)
    requires m !in s
    ensures With(s + {m}, n) == With(s, n) + {(m, n)} && (m, n) !in With(s, n)
  {
  }

  lemma {:induction false} OverlapsCounted(rows: seq<Row>, r: Row, n: int)
    ensures Overlapping(rows, r) == |With(OverlapsWith(rows, r), n)|
  {
    if rows == [] {
      assert With(OverlapsWith(rows, r), n) == {};
    } else {
      var init, m := rows[..|rows| - 1], |rows| - 1;
      OverlapsCounted(init, r, n);
      OverlapStep(rows, r, m);
      WithStep(OverlapsWith(init, r), m, n);
      assert Disjoint(rows[m], r) ==> OverlapsWith(rows, r) == OverlapsWith(init, r);
    }
  }

  lemma PairStep(rows: seq<Row>, n: int)
    requires n == |rows| - 1 >= 0
    ensures PairsIn(rows) == PairsIn(rows[..n]) + With(OverlapsWith(rows[..n], rows[n]), n)
    ensures PairsIn(rows[..n]) !! With(OverlapsWith(rows[..n], rows[n]), n)
  {
    var init := rows[..n];
    forall i, j
      ensures OverlapAt(rows, i, j) <==> OverlapAt(init, i, j) || (j == n && i in OverlapsWith(init, rows[n]))
    {
    }
  }

  lemma {:induction false} PairsCounted(rows: seq<Row>)
    ensures Pairs(rows) == |PairsIn(rows)|
  {
    if rows != [] {
      var init, n := rows[..|rows| - 1], |rows| - 1;
      PairsCounted(init);
      OverlapsCounted(init, rows[n], n);
      PairStep(rows, n);
    }
  }

  // ---- the reader -------------------------------------------------------------------------------------------

  /** The last line `<name> <kind> <at>` of the log. */
  ghost predicate LastSaid(log: seq<Line>, name: string, kind: string, at: real) {
    exists i :: Says(log, i, name, kind) && log[i].at == at && forall j :: i < j ==> !Says(log, j, name, kind)
  }

  predicate Says(log: seq<Line>, i: int, name: string, kind: string) {
    0 <= i < |log| && |log[i].parts| == 3 && log[i].parts[0] == name && log[i].parts[1] == kind
  }

  lemma {:induction false} LastMarkIs(log: seq<Line>, name: string, kind: string, at: real)
    ensures LastMark(log, name, kind) == Some(at) <==> LastSaid(log, name, kind, at)
  {
    if log != [] {
      var init, n := log[..|log| - 1], |log| - 1;
      LastMarkIs(init, name, kind, at);
      assert forall i :: 0 <= i < n ==> (Says(log, i, name, kind) <==> Says(init, i, name, kind));
      if Says(log, n, name, kind) {
        assert forall j :: n < j ==> !Says(log, j, name, kind);
      } else {
        assert forall i :: Says(log, i, name, kind) <==> Says(init, i, name, kind);
      }
    }
  }

  /** The row is a name's window, both of whose marks were logged. */
  ghost predicate IsWindow(log: seq<Line>, names: set<string>, r: Row) {
    r.name in names && LastSaid(log, r.name, "start", r.start) && LastSaid(log, r.name, "end", r.end)
  }

  lemma IsWindowIff(log: seq<Line>, names: set<string>, r: Row)
    ensures IsWindow(log, names, r) <==> r.name in names && WindowOf(log, r.name) == Window(Some(r.start), Some(r.end))
  {
    LastMarkIs(log, r.name, "start", r.start);
    LastMarkIs(log, r.name, "end", r.end);
  }

  /** `timeline_overlaps`: the complete windows in start order, and the count, which is zero
      exactly when no two of them overlap and no neighbours are inverted. */
  method TimelineOverlaps(log: seq<Line>, names: set<string>) returns (rows: seq<Row>, overlaps: nat)
    ensures Sorted(rows) && NoRepeats(rows) && forall r :: r in rows <==> IsWindow(log, names, r)
    ensures overlaps == |Neighbours(rows)|
    ensures overlaps == 0 <==> AllDisjoint(rows) && InvertedAt(rows) == {}
    ensures overlaps <= |PairsIn(rows)| + |InvertedAt(rows)| && (Forward(rows) ==> InvertedAt(rows) == {})
  {
    var windows := ReadWindows(log, names);
    rows := SortRows(windows);
    forall r ensures r in rows <==> IsWindow(log, names, r) {
      IsWindowIff(log, names, r);
      assert At(windows, r.name) == if r.name in names then WindowOf(log, r.name) else Window(None, None);
    }
    NeighboursCounted(rows);
    PairsCounted(rows);
    overlaps := CountNeighbours(rows);
    ZeroIff(rows);
    CountBelowPairs(rows);
    if Forward(rows) { ForwardHasNoInversions(rows); }
  }

  method CountNeighbours(rows: seq<Row>) returns (overlaps: nat)
    ensures overlaps == Adjacent(rows)
  {
    overlaps := 0;
    var i := 0;
    while i < |rows| - 1
      invariant 0 <= i && (i < |rows| || rows == []) && overlaps == Adjacent(rows[..if rows == [] then 0 else i + 1])
    {
      assert rows[..i + 2][..i + 1] == rows[..i + 1];
      if rows[i].end > rows[i + 1].start { overlaps := overlaps + 1; }
      i := i + 1;
    }
    assert rows[..|rows|] == rows;
  }

  /** No row stands twice. */
  ghost predicate NoRepeats(rows: seq<Row>) { forall r :: multiset(rows)[r] <= 1 }

  predicate IsRow(windows: map<string, Window>, r: Row) { At(windows, r.name) == Window(Some(r.start), Some(r.end)) }

  method SortRows(windows: map<string, Window>) returns (rows: seq<Row>)
    ensures Sorted(rows) && NoRepeats(rows) && forall r :: r in rows <==> IsRow(windows, r)
  {
    rows := [];
    var todo := windows.Keys;
    while todo != {}
      invariant todo <= windows.Keys && Sorted(rows) && NoRepeats(rows)
      invariant forall r :: r in rows <==> IsRow(windows, r) && r.name !in todo
      decreases |todo|
    {
      var name :| name in todo;
      todo := todo - {name};
      var w := windows[name];
      if w.start.Some? && w.end.Some? {
        var row := Row(w.start.value, w.end.value, name);
        InsertSorts(rows, row);
        InsertKeeps(rows, row);
        forall r ensures r in Insert(rows, row) <==> r in rows || r == row { InsertMembers(rows, row, r); }
        rows := Insert(rows, row);
      }
    }
  }
}
