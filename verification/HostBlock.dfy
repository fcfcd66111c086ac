/** Splicing the marker-delimited host block into an rc text. */
module HostBlock {
  import opened Text

  /** The two marker lines around a block. */
  datatype Markers = Markers(begin: string, end: string) {
    ghost predicate Valid() { Marker(begin) && Marker(end) }
  }

  const OCX: Markers := Markers("# >>> ocx bazel doctor >>>", "# <<< ocx bazel doctor <<<")

  // ---- finding ---------------------------------------------------------------------------------------

  /** A text that starts with `#`, has no other, and stays on its line. */
  ghost predicate Marker(m: string) {
    |m| >= 1 && m[0] == '#' && (forall k :: 1 <= k < |m| ==> m[k] != '#') && (forall k :: 0 <= k < |m| ==> m[k] != '\n')
  }

  lemma OcxMarkers()
    ensures OCX.Valid() && OCX.begin == "# >>> ocx bazel doctor >>>" && OCX.end == "# <<< ocx bazel doctor <<<"
  {
  }

  lemma OccursInPrefix(a: string, b: string, m: string, j: int)
    requires j + |m| <= |a|
    ensures OccursAt(a + b, m, j) <==> OccursAt(a, m, j)
  {
    if 0 <= j { assert (a + b)[j..j + |m|] == a[j..j + |m|]; }
  }

  lemma OccursInSuffix(a: string, b: string, m: string, j: int)
    requires 0 <= j
    ensures OccursAt(a + b, m, |a| + j) <==> OccursAt(b, m, j)
  {
    if j + |m| <= |b| { assert (a + b)[|a| + j..|a| + j + |m|] == b[j..j + |m|]; }
  }

  lemma Differs(s: string, m: string, j: nat, k: nat)
    requires j + |m| <= |s| && k < |m| && s[j + k] != m[k]
    ensures !OccursAt(s, m, j)
  {
    assert s[j..j + |m|][k] == s[j + k];
  }

  /** No marker begins in one text and runs into a `#` of the next. */
  lemma NoStraddle(a: string, b: string, m: string, j: int)
    requires Marker(m) && b != "" && b[0] == '#' && 0 <= j < |a| < j + |m|
    ensures !OccursAt(a + b, m, j)
  {
    if j + |m| <= |a + b| { Differs(a + b, m, j, |a| - j); }
  }

  /** Past a text without the marker, the first occurrence is the next text's first. */
  lemma FindAfter(a: string, b: string, m: string, at: nat)
    requires Marker(m) && b != "" && b[0] == '#' && Find(a, m) == None && Find(b, m) == Some(at)
    ensures Find(a + b, m) == Some(|a| + at)
  {
    OccursInSuffix(a, b, m, at);
    forall j | 0 <= j < |a| + at ensures !OccursAt(a + b, m, j) {
      if j + |m| <= |a| {
        OccursInPrefix(a, b, m, j);
      } else if j < |a| {
        NoStraddle(a, b, m, j);
      } else {
        OccursInSuffix(a, b, m, j - |a|);
      }
    }
    FindIs(a + b, m, |a| + at);
  }

  /** What follows does not change a first occurrence. */
  lemma FindWithin(a: string, b: string, m: string, at: nat)
    requires Find(a, m) == Some(at)
    ensures Find(a + b, m) == Some(at)
  {
    forall j | 0 <= j <= at ensures OccursAt(a + b, m, j) <==> OccursAt(a, m, j) { OccursInPrefix(a, b, m, j); }
    FindIs(a + b, m, at);
  }

  lemma FindBefore(a: string, b: string, m: string)
    requires Find(a + b, m).Some? ==> Find(a + b, m).value >= |a|
    requires |m| >= 1
    ensures Find(a, m) == None
  {
    if Find(a, m).Some? { FindWithin(a, b, m, Find(a, m).value); }
  }

  lemma LineEndHidesNothing(a: string, m: string)
    requires Marker(m) && Find(a, m) == None
    ensures Find(a + "\n", m) == None
  {
    forall j | 0 <= j ensures !OccursAt(a + "\n", m, j) {
      if j + |m| <= |a| {
        OccursInPrefix(a, "\n", m, j);
      } else {
        if j + |m| <= |a + "\n"| { Differs(a + "\n", m, j, |m| - 1); }
      }
    }
    FindNothing(a + "\n", m);
  }

  // ---- the splice --------------------------------------------------------------------------------------

  predicate Delimited(m: Markers, text: string) {
    var begin, end := Find(text, m.begin), Find(text, m.end);
    begin.Some? && end.Some? && end.value > begin.value
  }

  predicate Unmarked(m: Markers, text: string) { Find(text, m.begin).None? && Find(text, m.end).None? }

  /** Where the text past a line's end starts. */
  function PastLineEnd(text: string, at: nat): (tail: nat)
    requires at <= |text|
    ensures at <= tail <= |text|
  {
    if at < |text| && text[at] == '\n' then at + 1 else at
  }

  /** The text an appended block follows. */
  function Ground(text: string): (ground: string)
    ensures text <= ground
  {
    var lined := if text != "" && text[|text| - 1] != '\n' then text + "\n" else text;
    if lined != "" then lined + "\n" else lined
  }

  /** `splice_block` */
  function Splice(m: Markers, text: string, block: string): string {
    if Delimited(m, text)
    then text[..Find(text, m.begin).value] + block + text[PastLineEnd(text, Find(text, m.end).value + |m.end|)..]
    else Ground(text) + block
  }

  /** What `host_block` renders: BEGIN first, the first END last but for its line end. */
  ghost predicate IsBlock(m: Markers, block: string) {
    && m.begin <= block && |block| > |m.end|
    && Find(block, m.end) == Some(|block| - |m.end| - 1) && 0 < |block| - |m.end| - 1 && block[|block| - 1] == '\n'
  }

  lemma BlockFinds(m: Markers, block: string)
    requires m.Valid() && IsBlock(m, block)
    ensures Find(block, m.begin) == Some(0) && block[0] == '#'
  {
    assert block[0..|m.begin|] == m.begin;
    FindIs(block, m.begin, 0);
  }

  /** `host_block` renders a block, whatever its settings, unless they spell the END marker. */
  lemma RenderedIsBlock(m: Markers, settings: string)
    requires m.Valid() && Find(m.begin + settings, m.end) == None
    ensures IsBlock(m, m.begin + settings + (m.end + "\n"))
  {
    var head, foot := m.begin + settings, m.end + "\n";
    assert foot[0..|m.end|] == m.end;
    FindIs(foot, m.end, 0);
    FindAfter(head, foot, m.end, 0);
  }

  lemma SpliceAt(m: Markers, text: string, block: string, begin: nat, end: nat)
    requires Find(text, m.begin) == Some(begin) && Find(text, m.end) == Some(end) && begin < end
    ensures Splice(m, text, block) == text[..begin] + block + text[PastLineEnd(text, end + |m.end|)..]
  {
  }

  lemma FindBetween(pre: string, mid: string, post: string, mark: string, at: nat)
    requires Marker(mark) && mid != "" && mid[0] == '#' && Find(pre, mark) == None && Find(mid, mark) == Some(at)
    ensures Find(pre + mid + post, mark) == Some(|pre| + at)
  {
    FindAfter(pre, mid, mark, at);
    FindWithin(pre + mid, post, mark, |pre| + at);
  }

  /** Where the markers are in a text of unmarked `pre`, a block and anything. */
  lemma FindsBlock(m: Markers, pre: string, prior: string, post: string)
    requires m.Valid() && Unmarked(m, pre) && IsBlock(m, prior)
    ensures Find(pre + prior + post, m.begin) == Some(|pre|)
    ensures Find(pre + prior + post, m.end) == Some(|pre| + |prior| - |m.end| - 1)
  {
    BlockFinds(m, prior);
    FindBetween(pre, prior, post, m.begin, 0);
    FindBetween(pre, prior, post, m.end, |prior| - |m.end| - 1);
  }

  lemma Parts(pre: string, prior: string, post: string)
    requires prior != "" && prior[|prior| - 1] == '\n'
    ensures var text := pre + prior + post;
            text[..|pre|] == pre && text[PastLineEnd(text, |pre| + |prior| - 1)..] == post
  {
    var text := pre + prior + post;
    assert text[|pre| + |prior| - 1] == prior[|prior| - 1];
    assert text[|pre| + |prior|..] == post;
  }

  /** A splice replaces exactly the block of such a text. */
  lemma SpliceReplaces(m: Markers, pre: string, prior: string, post: string, block: string)
    requires m.Valid() && Unmarked(m, pre) && IsBlock(m, prior)
    ensures Splice(m, pre + prior + post, block) == pre + block + post
  {
    FindsBlock(m, pre, prior, post);
    SpliceAt(m, pre + prior + post, block, |pre|, |pre| + |prior| - |m.end| - 1);
    Parts(pre, prior, post);
  }

  lemma GroundUnmarked(text: string, mark: string)
    requires Marker(mark) && Find(text, mark) == None
    ensures Find(Ground(text), mark) == None
  {
    LineEndHidesNothing(text, mark);
    LineEndHidesNothing(text + "\n", mark);
  }

  lemma PrefixUnmarked(m: Markers, text: string)
    requires m.Valid() && Delimited(m, text)
    ensures Unmarked(m, text[..Find(text, m.begin).value])
  {
    var begin := Find(text, m.begin).value;
    assert text == text[..begin] + text[begin..];
    FindBefore(text[..begin], text[begin..], m.begin);
    FindBefore(text[..begin], text[begin..], m.end);
  }

  /** For a text with no marker, or whose first END follows its first BEGIN, a later splice
      undoes an earlier one and leaves no trace of it. */
  lemma LaterBlockWins(m: Markers, text: string, block: string, later: string)
    requires m.Valid() && IsBlock(m, block) && (Unmarked(m, text) || Delimited(m, text))
    ensures Splice(m, Splice(m, text, block), later) == Splice(m, text, later)
  {
    if Delimited(m, text) { LaterReplaces(m, text, block, later); } else { LaterAppends(m, text, block, later); }
  }

  lemma LaterReplaces(m: Markers, text: string, block: string, later: string)
    requires m.Valid() && IsBlock(m, block) && Delimited(m, text)
    ensures Splice(m, Splice(m, text, block), later) == Splice(m, text, later)
  {
    var pre, post := text[..Find(text, m.begin).value], text[PastLineEnd(text, Find(text, m.end).value + |m.end|)..];
    PrefixUnmarked(m, text);
    assert Splice(m, text, block) == pre + block + post && Splice(m, text, later) == pre + later + post;
    SpliceReplaces(m, pre, block, post, later);
  }

  lemma LaterAppends(m: Markers, text: string, block: string, later: string)
    requires m.Valid() && IsBlock(m, block) && Unmarked(m, text)
    ensures Splice(m, Splice(m, text, block), later) == Splice(m, text, later)
  {
    var ground := Ground(text);
    GroundUnmarked(text, m.begin);
    GroundUnmarked(text, m.end);
    SpliceReplaces(m, ground, block, "", later);
    assert ground + block + "" == ground + block && ground + later + "" == ground + later;
  }

  // ---- where idempotence fails ----------------------------------------------------------------------------

  lemma GroundKeeps(text: string, mark: string, at: nat)
    requires Find(text, mark) == Some(at)
    ensures Find(Ground(text), mark) == Some(at)
  {
    FindWithin(text, "\n", mark, at);
    FindWithin(text + "\n", "\n", mark, at);
  }

  /** Where the markers are once a block was appended after an unclosed BEGIN. */
  lemma FindsUnclosed(m: Markers, text: string, block: string, begin: nat)
    requires m.Valid() && IsBlock(m, block) && Find(text, m.begin) == Some(begin) && Find(text, m.end) == None
    ensures begin < |text|
    ensures Find(Ground(text) + block, m.begin) == Some(begin)
    ensures Find(Ground(text) + block, m.end) == Some(|Ground(text)| + |block| - |m.end| - 1)
  {
    BlockFinds(m, block);
    GroundKeeps(text, m.begin, begin);
    FindWithin(Ground(text), block, m.begin, begin);
    GroundUnmarked(text, m.end);
    FindAfter(Ground(text), block, m.end, |block| - |m.end| - 1);
  }

  /** A BEGIN without an END: the second splice takes away everything from that BEGIN on. */
  lemma UnclosedLosesText(m: Markers, text: string, block: string)
    requires m.Valid() && IsBlock(m, block) && Find(text, m.begin).Some? && Find(text, m.end).None?
    ensures Splice(m, Splice(m, text, block), block) == text[..Find(text, m.begin).value] + block
    ensures |Splice(m, Splice(m, text, block), block)| < |Splice(m, text, block)|
  {
    var begin := Find(text, m.begin).value;
    FindsUnclosed(m, text, block, begin);
    SpliceLast(m, Ground(text), block, begin);
    assert (Ground(text) + block)[..begin] == text[..begin];
  }

  lemma SpliceLast(m: Markers, ground: string, block: string, begin: nat)
    requires block != "" && block[|block| - 1] == '\n' && begin <= |ground| && |block| > |m.end| + 1
    requires Find(ground + block, m.begin) == Some(begin)
    requires Find(ground + block, m.end) == Some(|ground| + |block| - |m.end| - 1)
    ensures Splice(m, ground + block, block) == (ground + block)[..begin] + block
  {
    SpliceAt(m, ground + block, block, begin, |ground| + |block| - |m.end| - 1);
    Parts(ground, block, "");
    assert ground + block + "" == ground + block;
  }

  /** The first markers of a text stay first when a block is appended. */
  lemma FindsStrayEnd(m: Markers, text: string, block: string)
    requires m.Valid() && IsBlock(m, block) && Find(text, m.end).Some? && !Delimited(m, text)
    ensures Find(Ground(text) + block, m.end).Some? && !Delimited(m, Ground(text) + block)
  {
    var end := Find(text, m.end).value;
    GroundKeeps(text, m.end, end);
    FindWithin(Ground(text), block, m.end, end);
    if Find(text, m.begin).Some? {
      GroundKeeps(text, m.begin, Find(text, m.begin).value);
      FindWithin(Ground(text), block, m.begin, Find(text, m.begin).value);
    } else {
      BlockFinds(m, block);
      GroundUnmarked(text, m.begin);
      FindAfter(Ground(text), block, m.begin, 0);
    }
  }

  /** An END before any BEGIN: every splice adds one more block. */
  lemma StrayEndGrows(m: Markers, text: string, block: string)
    requires m.Valid() && IsBlock(m, block) && Find(text, m.end).Some? && !Delimited(m, text)
    ensures var once := Splice(m, text, block);
            Find(once, m.end).Some? && !Delimited(m, once) && Splice(m, once, block) == once + "\n" + block
  {
    FindsStrayEnd(m, text, block);
    LastOf(Ground(text), block);
    AppendsAgain(m, Ground(text) + block, block);
  }

  lemma LastOf(a: string, b: string)
    requires b != ""
    ensures (a + b)[|a + b| - 1] == b[|b| - 1]
  {
  }

  lemma AppendsAgain(m: Markers, once: string, block: string)
    requires once != "" && once[|once| - 1] == '\n' && !Delimited(m, once)
    ensures Splice(m, once, block) == once + "\n" + block
  {
  }

  /** Splicing the block is idempotent exactly for a text with neither marker or whose first
      END follows its first BEGIN. */
  lemma IdempotentIff(m: Markers, text: string, block: string)
    requires m.Valid() && IsBlock(m, block)
    ensures Splice(m, Splice(m, text, block), block) == Splice(m, text, block) <==>
              Unmarked(m, text) || Delimited(m, text)
  {
    if Unmarked(m, text) || Delimited(m, text) {
      LaterBlockWins(m, text, block, block);
    } else if Find(text, m.end).None? {
      UnclosedLosesText(m, text, block);
    } else {
      StrayEndGrows(m, text, block);
    }
  }

  /** The marker stands at a position of the region and ends it, but for the line end it has. */
  ghost predicate Closes(mark: string, region: string, at: int, post: string) {
    && OccursAt(region, mark, at)
    && (region[at + |mark|..] == "\n" || (region[at + |mark|..] == "" && !StartsWithFeed(post)))
  }

  /** What separates an appended block from the text: an empty line. */
  function Gap(text: string): string { if text == "" then "" else if text[|text| - 1] == '\n' then "\n" else "\n\n" }

  /** What a splice leaves alone: the whole text, or all before the first BEGIN and all past
      the line of the first END, which follows it with no marker before. */
  lemma KeepsOutside(m: Markers, text: string, block: string)
    returns (pre: string, prior: string, gap: string, post: string)
    requires m.Valid()
    ensures text == pre + prior + post && Splice(m, text, block) == pre + gap + block + post
    ensures if Delimited(m, text) then Unmarked(m, pre) && m.begin <= prior && gap == ""
                                     && Closes(m.end, prior, Find(text, m.end).value - |pre|, post)
            else prior == "" && post == "" && gap == Gap(text)
  {
    if Delimited(m, text) {
      gap := "";
      pre, prior, post := KeepsAround(m, text, block, Find(text, m.begin).value, Find(text, m.end).value);
    } else {
      pre, prior, gap, post := text, "", Gap(text), "";
      GroundIs(text);
    }
  }

  lemma KeepsAround(m: Markers, text: string, block: string, begin: nat, end: nat)
    returns (pre: string, prior: string, post: string)
    requires m.Valid() && Find(text, m.begin) == Some(begin) && Find(text, m.end) == Some(end) && begin < end
    ensures text == pre + prior + post && Splice(m, text, block) == pre + "" + block + post
    ensures Unmarked(m, pre) && m.begin <= prior && |pre| == begin && Closes(m.end, prior, end - begin, post)
  {
    var tail := PastLineEnd(text, end + |m.end|);
    PrefixUnmarked(m, text);
    SpliceAt(m, text, block, begin, end);
    pre, prior, post := text[..begin], text[begin..tail], text[tail..];
    BeginsThere(text, m.begin, m.end, begin, end, tail);
    ClosesThere(text, m.end, begin, end, tail);
    ThreeParts(text, begin, tail);
  }

  lemma ThreeParts(text: string, begin: nat, tail: nat)
    requires begin <= tail <= |text|
    ensures text == text[..begin] + text[begin..tail] + text[tail..] && text[..begin] + "" == text[..begin]
  {
  }

  lemma BeginsThere(text: string, b: string, e: string, begin: nat, end: nat, tail: nat)
    requires Marker(b) && Marker(e) && OccursAt(text, b, begin) && OccursAt(text, e, end) && begin < end
    requires end <= tail <= |text|
    ensures b <= text[begin..tail]
  {
    NoOverlap(text, b, e, begin, end);
    HeadOf(text, b, begin, tail);
  }

  lemma ClosesThere(text: string, e: string, begin: nat, end: nat, tail: nat)
    requires OccursAt(text, e, end) && begin <= end && tail == PastLineEnd(text, end + |e|)
    ensures Closes(e, text[begin..tail], end - begin, text[tail..])
  {
    var region, at := text[begin..tail], end - begin;
    assert region[at..at + |e|] == text[end..end + |e|];
    assert region[at + |e|..] == text[end + |e|..tail];
  }

  lemma NoOverlap(text: string, b: string, e: string, begin: nat, end: nat)
    requires Marker(b) && Marker(e) && OccursAt(text, b, begin) && OccursAt(text, e, end) && begin < end
    ensures begin + |b| <= end
  {
    assert text[end] == text[end..end + |e|][0];
    if end < begin + |b| {
      Differs(text, b, begin, end - begin);
      assert false;
    }
  }

  lemma HeadOf(text: string, b: string, begin: nat, tail: nat)
    requires OccursAt(text, b, begin) && begin + |b| <= tail <= |text|
    ensures b <= text[begin..tail]
  {
    assert text[begin..tail][..|b|] == text[begin..begin + |b|];
  }

  lemma GroundIs(text: string)
    ensures Ground(text) == text + Gap(text)
  {
  }
}
