/** String helpers shared by the models: characters, splitting and joining on one character,
    lines, and the first occurrence of a text, with the laws the proofs rest on. */
module Text {

  datatype Option<+T> = None | Some(value: T)

  predicate IsDigit(c: char) { '0' <= c <= '9' }

  predicate IsDigits(s: string) { s != "" && forall k :: 0 <= k < |s| ==> IsDigit(s[k]) }

  predicate IsWordChar(c: char) { 'a' <= c <= 'z' || 'A' <= c <= 'Z' || IsDigit(c) || c == '_' }

  /** Python's `table.get(key)`. */
  function Look<V>(table: map<string, V>, key: string): Option<V> { if key in table then Some(table[key]) else None }

  /** The position of the first occurrence of a character, or the length. */
  function IndexOf(s: string, c: char): (i: nat)
    ensures i <= |s| && c !in s[..i] && (i < |s| ==> s[i] == c)
  {
    if s == "" || s[0] == c then 0
    else
      var i := IndexOf(s[1..], c);
      assert s[..i + 1] == [s[0]] + s[1..][..i];
      i + 1
  }

  lemma {:induction false} IndexPast(a: string, b: string, c: char)
    requires c !in a
    ensures IndexOf(a + [c] + b, c) == |a|
    ensures IndexOf(a, c) == |a|
  {
    if a != "" {
      assert (a + [c] + b)[1..] == a[1..] + [c] + b;
      IndexPast(a[1..], b, c);
    }
  }

  /** Python's `s.split(sep)` for a one-character separator: never empty. */
  function Split(s: string, sep: char): (parts: seq<string>)
    ensures |parts| >= 1
  {
    if s == "" then [""]
    else
      var rest := Split(s[1..], sep);
      if s[0] == sep then [""] + rest else Prepend(s[0], rest)
  }

  function Prepend(c: char, parts: seq<string>): (r: seq<string>)
    requires |parts| >= 1
    ensures |r| == |parts|
  {
    [[c] + parts[0]] + parts[1..]
  }

  lemma PrependConcat(c: char, a: seq<string>, b: seq<string>)
    requires |a| >= 1
    ensures Prepend(c, a + b) == Prepend(c, a) + b
  {
    assert (a + b)[1..] == a[1..] + b;
  }

  /** Python's `sep.join(parts)` for a one-character separator. */
  function Join(parts: seq<string>, sep: char): string {
    if parts == [] then ""
    else if |parts| == 1 then parts[0]
    else parts[0] + [sep] + Join(parts[1..], sep)
  }

  lemma SplitHead(s: string, sep: char)
    requires s != "" && s[0] != sep
    ensures Split(s, sep)[0] != "" && Split(s, sep)[0][0] == s[0]
  {
  }

  lemma {:induction false} SplitFree(s: string, sep: char)
    ensures forall k :: 0 <= k < |Split(s, sep)| ==> sep !in Split(s, sep)[k]
  {
    if s != "" { SplitFree(s[1..], sep); }
  }

  lemma {:induction false} JoinSplit(s: string, sep: char)
    ensures Join(Split(s, sep), sep) == s
  {
    if s != "" {
      JoinSplit(s[1..], sep);
      var rest := Split(s[1..], sep);
      if s[0] == sep {
        assert Split(s, sep)[1..] == rest;
      } else {
        assert Split(s, sep)[1..] == rest[1..];
      }
    }
  }

  /** Splitting at a separator splits the two sides independently. */
  lemma {:induction false} SplitConcat(a: string, b: string, sep: char)
    ensures Split(a + [sep] + b, sep) == Split(a, sep) + Split(b, sep)
  {
    if a == "" {
      assert a + [sep] + b == [sep] + b;
      assert ([sep] + b)[1..] == b;
    } else {
      var s := a[1..] + [sep] + b;
      assert a + [sep] + b == [a[0]] + s;
      assert ([a[0]] + s)[1..] == s;
      SplitConcat(a[1..], b, sep);
      if a[0] == sep {
        assert [""] + (Split(a[1..], sep) + Split(b, sep)) == [""] + Split(a[1..], sep) + Split(b, sep);
      } else {
        PrependConcat(a[0], Split(a[1..], sep), Split(b, sep));
      }
    }
  }

  lemma {:induction false} SplitPlain(s: string, sep: char)
    requires sep !in s
    ensures Split(s, sep) == [s]
  {
    if s != "" {
      SplitPlain(s[1..], sep);
      assert [s[0]] + s[1..] == s;
    }
  }

  lemma {:induction false} SplitJoin(parts: seq<string>, sep: char)
    requires parts != [] && forall k :: 0 <= k < |parts| ==> sep !in parts[k]
    ensures Split(Join(parts, sep), sep) == parts
  {
    SplitPlain(parts[0], sep);
    if |parts| > 1 {
      SplitJoin(parts[1..], sep);
      SplitConcat(parts[0], Join(parts[1..], sep), sep);
    }
  }

  /** Joining two non-empty lists joins their joins. */
  lemma {:induction false} JoinConcat(a: seq<string>, b: seq<string>, sep: char)
    requires a != [] && b != []
    ensures Join(a + b, sep) == Join(a, sep) + [sep] + Join(b, sep)
  {
    if |a| == 1 {
      assert (a + b)[1..] == b;
    } else {
      assert (a + b)[1..] == a[1..] + b;
      JoinConcat(a[1..], b, sep);
    }
  }

  predicate EndsWith(s: string, suffix: string) {
    |suffix| <= |s| && s[|s| - |suffix|..] == suffix
  }

  predicate OccursAt(s: string, pat: string, i: int) {
    0 <= i && i + |pat| <= |s| && s[i..i + |pat|] == pat
  }

  ghost predicate Occurs(s: string, pat: string) {
    exists i :: OccursAt(s, pat, i)
  }

  /** `text.find(m)`, looking from `i` on. */
  function FindFrom(text: string, m: string, i: nat): (r: Option<nat>)
    requires i <= |text|
    ensures r.Some? ==> i <= r.value && OccursAt(text, m, r.value)
    ensures r.Some? ==> forall j :: i <= j < r.value ==> !OccursAt(text, m, j)
    ensures r.None? ==> forall j :: i <= j ==> !OccursAt(text, m, j)
    decreases |text| - i
  {
    if OccursAt(text, m, i) then Some(i) else if i == |text| then None else FindFrom(text, m, i + 1)
  }

  function Find(text: string, m: string): Option<nat> { FindFrom(text, m, 0) }

  lemma FindIs(text: string, m: string, at: nat)
    requires OccursAt(text, m, at) && forall j :: 0 <= j < at ==> !OccursAt(text, m, j)
    ensures Find(text, m) == Some(at)
  {
  }

  lemma FindNothing(text: string, m: string)
    requires forall j :: 0 <= j ==> !OccursAt(text, m, j)
    ensures Find(text, m) == None
  {
  }

  lemma FindIffOccurs(text: string, m: string)
    ensures Find(text, m).Some? <==> Occurs(text, m)
  {
    if Find(text, m).Some? { assert OccursAt(text, m, Find(text, m).value); }
  }

  // ---- lines --------------------------------------------------------------------------------------------

  /** The characters `str.splitlines` ends a line at. */
  predicate IsBreak(c: char) {
    '\U{0a}' <= c <= '\U{0d}' || '\U{1c}' <= c <= '\U{1e}' || c == '\U{85}' || c == '\U{2028}' || c == '\U{2029}'
  }

  /** The text is on one line. */
  predicate OneLine(s: string) { forall k :: 0 <= k < |s| ==> !IsBreak(s[k]) }

  /** Every line end as a line feed, `\r\n` as one. */
  function Unified(text: string): string {
    if text == "" then "" else Feed(text[0], StartsWithFeed(text[1..])) + Unified(text[1..])
  }

  function Feed(c: char, beforeFeed: bool): string {
    if c == '\r' && beforeFeed then "" else if IsBreak(c) then "\n" else [c]
  }

  /** `text.splitlines()` */
  function SplitLines(text: string): seq<string> { SplitFeeds(Unified(text)) }

  function SplitFeeds(u: string): seq<string> {
    if u == "" then [] else if u[|u| - 1] == '\n' then Split(u[..|u| - 1], '\n') else Split(u, '\n')
  }

  /** Only line feeds end lines. */
  ghost predicate OnlyLineFeeds(text: string) { forall k :: 0 <= k < |text| && IsBreak(text[k]) ==> text[k] == '\n' }

  lemma {:induction false} UnifiedSame(text: string)
    requires OnlyLineFeeds(text)
    ensures Unified(text) == text
  {
    if text != "" {
      assert text[0] != '\r';
      UnifiedSame(text[1..]);
      assert text == [text[0]] + text[1..];
    }
  }

  lemma {:induction false} UnifiedFeeds(text: string)
    ensures OnlyLineFeeds(Unified(text))
  {
    if text != "" { UnifiedFeeds(text[1..]); }
  }

  /** Line ends are found part by part, unless a `\r\n` is cut in two. */
  lemma {:induction false} UnifiedConcat(a: string, b: string)
    requires a == "" || b == "" || a[|a| - 1] != '\r' || b[0] != '\n'
    ensures Unified(a + b) == Unified(a) + Unified(b)
    decreases |a|
  {
    if b == "" {
      assert a + b == a;
    } else if a == "" {
      assert a + b == b;
    } else {
      UnifiedConcat(a[1..], b);
      SameFeed(a[0], a[1..], b);
      TailOf(a, b);
      Assemble(Unified(a + b), Feed(a[0], StartsWithFeed(a[1..])), Unified(a[1..] + b), Unified(a[1..]), Unified(b),
               Unified(a));
    }
  }

  lemma TailOf(a: string, b: string)
    requires a != ""
    ensures a + b != "" && (a + b)[0] == a[0] && (a + b)[1..] == a[1..] + b
  {
  }

  lemma Assemble(whole: string, head: string, rest: string, x: string, y: string, first: string)
    requires whole == head + rest && rest == x + y && first == head + x
    ensures whole == first + y
  {
  }

  predicate StartsWithFeed(s: string) { s != "" && s[0] == '\n' }

  lemma SameFeed(c: char, t: string, b: string)
    requires t != "" || c != '\r' || !StartsWithFeed(b)
    ensures Feed(c, StartsWithFeed(t + b)) == Feed(c, StartsWithFeed(t))
  {
    if t == "" { assert t + b == b; }
  }

  lemma {:induction false} SplitOneLine(s: string)
    requires OnlyLineFeeds(s)
    ensures forall k :: 0 <= k < |Split(s, '\n')| ==> OneLine(Split(s, '\n')[k])
  {
    if s != "" { SplitOneLine(s[1..]); }
  }

  /** No line holds a line end. */
  lemma LinesAreLines(text: string)
    ensures forall k :: 0 <= k < |SplitLines(text)| ==> OneLine(SplitLines(text)[k])
  {
    var u := Unified(text);
    UnifiedFeeds(text);
    if u != "" {
      SplitOneLine(u);
      SplitOneLine(u[..|u| - 1]);
    }
  }

  lemma OneLineHasNoFeed(s: string)
    requires OneLine(s)
    ensures '\n' !in s
  {
  }

  lemma {:induction false} JoinFeeds(lines: seq<string>)
    requires forall k :: 0 <= k < |lines| ==> OneLine(lines[k])
    ensures OnlyLineFeeds(Join(lines, '\n'))
  {
    if |lines| > 1 { JoinFeeds(lines[1..]); }
  }

  lemma {:induction false} JoinEnds(lines: seq<string>)
    requires lines != [] && lines[|lines| - 1] != ""
    ensures var s, last := Join(lines, '\n'), lines[|lines| - 1];
            s != "" && s[|s| - 1] == last[|last| - 1]
  {
    if |lines| > 1 { JoinEnds(lines[1..]); }
  }

  /** Lines joined with line feeds are the lines again, unless the last one is empty. */
  lemma SplitLinesJoin(lines: seq<string>)
    requires forall k :: 0 <= k < |lines| ==> OneLine(lines[k])
    requires lines == [] || lines[|lines| - 1] != ""
    ensures SplitLines(Join(lines, '\n')) == lines
  {
    JoinFeeds(lines);
    UnifiedSame(Join(lines, '\n'));
    if lines != [] {
      JoinEnds(lines);
      SplitJoin(lines, '\n');
    }
  }

  lemma OneLineConcat(a: string, b: string)
    requires OneLine(a) && OneLine(b)
    ensures OneLine(a + b)
  {
  }
}
