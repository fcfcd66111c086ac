/** The laws of the reader over whole printed texts: two texts set one under the other, and a
    text with one header line taken out. */
module PrintedTexts {
  import opened Text
  import opened BuildText
  import opened BuildPrinter

  predicate AllWellFormed(rs: seq<Rule>) { forall k :: 0 <= k < |rs| ==> WellFormed(rs[k]) }

  lemma BlocksConcat(a: seq<Rule>, b: seq<Rule>)
    ensures BlocksOf(a + b) == BlocksOf(a) + BlocksOf(b)
  {
  }

  lemma Regrouped<T>(a: seq<T>, b: seq<T>, c: seq<T>)
    ensures a + b + c == a + (b + c)
  {
  }

  lemma PrintAllSnoc(a: seq<Rule>, b: seq<Rule>, r: Rule) returns (lines: seq<string>)
    ensures PrintAll(a + [r]) == PrintAll(a) + lines && PrintAll(b + [r]) == PrintAll(b) + lines
  {
    lines := Print(r);
    assert (a + [r])[..|a|] == a && (b + [r])[..|b|] == b;
  }

  lemma {:induction false} PrintAllConcat(a: seq<Rule>, b: seq<Rule>)
    ensures PrintAll(a + b) == PrintAll(a) + PrintAll(b)
    decreases |b|, 0
  {
    if b == [] {
      assert a + b == a;
    } else {
      var init, last := b[..|b| - 1], b[|b| - 1];
      assert b == init + [last];
      Regrouped(a, init, [last]);
      ConcatStep(a, init, last);
    }
  }

  lemma {:induction false} ConcatStep(a: seq<Rule>, b: seq<Rule>, r: Rule)
    ensures PrintAll(a + b + [r]) == PrintAll(a) + PrintAll(b + [r])
    decreases |b|, 1
  {
    PrintAllConcat(a, b);
    var lines := PrintAllSnoc(a + b, b, r);
    Regrouped(PrintAll(a), PrintAll(b), lines);
  }

  lemma StackedIsPrinted(a: seq<Rule>, b: seq<Rule>)
    requires AllWellFormed(a) && AllWellFormed(b) && a != [] && b != []
    ensures PrintText(a) + ['\n'] + PrintText(b) == PrintText(a + b)
  {
    PrintAllOneLine(a);
    PrintAllOneLine(b);
    PrintAllConcat(a, b);
    JoinConcat(PrintAll(a), PrintAll(b), '\n');
  }

  /** One printed text under another reads as their two readings merged: label sets united,
      tallies added, the lower text's rows winning. */
  lemma StackedTexts(a: seq<Rule>, b: seq<Rule>)
    requires AllWellFormed(a) && AllWellFormed(b) && a != [] && b != []
    ensures ReadText(PrintText(a) + ['\n'] + PrintText(b)) == Merge(ReadText(PrintText(a)), ReadText(PrintText(b)))
  {
    StackedIsPrinted(a, b);
    PrintedTextRead(a);
    PrintedTextRead(b);
    PrintedTextRead(a + b);
    BlocksConcat(a, b);
    MergeAllConcat(BlocksOf(a), BlocksOf(b));
  }

  // ---- a header line taken out ------------------------------------------------------------------------

  /** The lines of the records with one of them printed without its first line. */
  function LinesWithout(pre: seq<Rule>, r: Rule, post: seq<Rule>): seq<string> {
    PrintAll(pre) + Print(r)[1..] + PrintAll(post)
  }

  function Bare(r: Rule): Block { BlockOf(r).(header := None) }

  lemma BareClassified(r: Rule)
    requires WellFormed(r)
    ensures ClassifyAll(Print(r)[1..]) == BlockLines(Bare(r))
  {
    PrintClassified(r);
    assert ClassifyAll(Print(r)[1..]) == ClassifyAll(Print(r))[1..];
    BareLines(BlockOf(r));
  }

  lemma BareLines(b: Block)
    requires b.header.Some?
    ensures BlockLines(b)[1..] == BlockLines(b.(header := None))
  {
    var rest := [Open(b.kind)] + b.attrs + [Close] + seq(b.trailing, _ => Other);
    assert BlockLines(b) == [Header(b.header.value)] + rest;
    assert BlockLines(b.(header := None)) == rest;
  }

  lemma TextSnoc(bs: seq<Block>, b: Block)
    ensures TextOf(bs + [b]) == TextOf(bs) + BlockLines(b)
  {
    assert (bs + [b])[..|bs|] == bs;
  }

  lemma {:induction false} TextConcat(a: seq<Block>, b: seq<Block>)
    ensures TextOf(a + b) == TextOf(a) + TextOf(b)
    decreases |b|
  {
    if b == [] {
      assert a + b == a;
    } else {
      var init, last := b[..|b| - 1], b[|b| - 1];
      TextConcat(a, init);
      Regrouped(a, init, [last]);
      assert b == init + [last];
      TextSnoc(a + init, last);
      TextSnoc(init, last);
      Regrouped(TextOf(a), TextOf(init), BlockLines(last));
    }
  }

  lemma TextAround(a: seq<Block>, b: Block, c: seq<Block>)
    ensures TextOf(a + [b] + c) == TextOf(a) + BlockLines(b) + TextOf(c)
  {
    TextSnoc(a, b);
    TextConcat(a + [b], c);
  }

  lemma WithoutClassified(pre: seq<Rule>, r: Rule, post: seq<Rule>)
    requires AllWellFormed(pre) && WellFormed(r) && AllWellFormed(post)
    ensures ClassifyAll(LinesWithout(pre, r, post)) == TextOf(BlocksOf(pre) + [Bare(r)] + BlocksOf(post))
  {
    ClassifyConcat(PrintAll(pre), Print(r)[1..]);
    ClassifyConcat(PrintAll(pre) + Print(r)[1..], PrintAll(post));
    PrintAllClassified(pre);
    PrintAllClassified(post);
    BareClassified(r);
    TextAround(BlocksOf(pre), Bare(r), BlocksOf(post));
  }

  predicate EndsNonEmpty(lines: seq<string>) { lines != [] && lines[|lines| - 1] != "" }

  lemma PrintEnds(r: Rule)
    ensures |Print(r)| >= 2 && EndsNonEmpty(Print(r)[1..])
  {
    EndsAfter(HeadLines(r) + OptionalLines(r) + DepsLines(r) + ProcMacroLines(r), ")", INSTANTIATED);
  }

  lemma EndsAfter(a: seq<string>, b: string, c: string)
    requires |a| >= 1 && c != ""
    ensures EndsNonEmpty((a + [b, c])[1..])
  {
  }

  /** Lines of which a text can be made and split again. */
  lemma Around(a: seq<string>, b: seq<string>, c: seq<string>)
    requires AllOneLine(a) && b != [] && AllOneLine(b) && AllOneLine(c)
    requires EndsNonEmpty(b[1..]) && (c == [] || EndsNonEmpty(c))
    ensures AllOneLine(a + b[1..] + c) && EndsNonEmpty(a + b[1..] + c)
  {
  }

  lemma WithoutRead(pre: seq<Rule>, r: Rule, post: seq<Rule>)
    requires AllWellFormed(pre) && WellFormed(r) && AllWellFormed(post)
    ensures ReadText(Join(LinesWithout(pre, r, post), '\n')) == Read(ClassifyAll(LinesWithout(pre, r, post)))
  {
    PrintAllOneLine(pre);
    PrintOneLine(r);
    PrintEnds(r);
    PrintAllOneLine(post);
    Around(PrintAll(pre), Print(r), PrintAll(post));
    SplitLinesJoin(LinesWithout(pre, r, post));
  }

  lemma FullRead(pre: seq<Rule>, r: Rule, post: seq<Rule>)
    requires AllWellFormed(pre) && WellFormed(r) && AllWellFormed(post)
    ensures ReadText(PrintText(pre + [r] + post)) == Read(TextOf(BlocksOf(pre) + [BlockOf(r)] + BlocksOf(post)))
  {
    BlocksAround(pre, r, post);
    BlocksValid(pre + [r] + post);
    PrintedTextRead(pre + [r] + post);
    TextRead(BlocksOf(pre + [r] + post));
  }

  /** Taking one record's header line out of a printed text: one more orphan, that record's own
      edges, package and row gone, and everything else read as before. */
  lemma TextWithoutHeader(pre: seq<Rule>, r: Rule, post: seq<Rule>)
    requires AllWellFormed(pre) && WellFormed(r) && AllWellFormed(post)
    ensures HeaderLost(ReadText(PrintText(pre + [r] + post)), ReadText(Join(LinesWithout(pre, r, post), '\n')),
                       r.pkg, r.name, KeptEdges(r.pkg, r.deps + r.procMacro))
  {
    FullRead(pre, r, post);
    WithoutRead(pre, r, post);
    WithoutClassified(pre, r, post);
    BlocksValid(pre);
    AttrsValid(r);
    BlocksValid(post);
    MissingHeader(BlocksOf(pre), BlockOf(r), BlocksOf(post));
    ContributionOf(r);
  }

  lemma ContributionOf(r: Rule)
    ensures BodyOf(BlockOf(r).attrs).name == r.name
    ensures Contribution(BlockOf(r)).edges == KeptEdges(r.pkg, r.deps + r.procMacro)
  {
    BodyOfRule(r);
  }

  lemma BlocksAround(pre: seq<Rule>, r: Rule, post: seq<Rule>)
    ensures BlocksOf(pre + [r] + post) == BlocksOf(pre) + [BlockOf(r)] + BlocksOf(post)
  {
  }
}
