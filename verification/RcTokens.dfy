/** How an rc line becomes tokens: the POSIX shell tokenizer with its quoting and escapes, the
    whitespace fallback for an unbalanced line, and which lines are live at all. */
module RcTokens {
  import opened Text

  // ---- the tokenizer ------------------------------------------------------------------------------------

  /** Between words; in a word; inside a quotation; or past a backslash, in a word or in a
      double quotation. A word is never empty unless quoted. */
  datatype Scan = Idle | Word(token: string) | Quote(mark: char, token: string) | Escape(token: string, quoted: bool)

  predicate Separates(c: char) { c == ' ' || c == '\t' || c == '\r' || c == '\n' }

  predicate Quotes(c: char) { c == '\'' || c == '"' }

  /** A character that stands for itself outside quotations. */
  predicate Plain(c: char) { !Separates(c) && !Quotes(c) && c != '\\' }

  function InWord(token: string, c: char): Scan {
    if Quotes(c) then Quote(c, token) else if c == '\\' then Escape(token, false) else Word(token + [c])
  }

  function Next(state: Scan, c: char): Scan {
    match state
    case Idle => if Separates(c) then Idle else InWord("", c)
    case Word(token) => if Separates(c) then Idle else InWord(token, c)
    case Quote(mark, token) =>
      if c == mark then Word(token)
      else if c == '\\' && mark == '"' then Escape(token, true)
      else Quote(mark, token + [c])
    case Escape(token, quoted) =>
      if !quoted then Word(token + [c])
      else if c == '\\' || c == '"' then Quote('"', token + [c]) else Quote('"', token + ['\\', c])
  }

  /** The tokens of the rest of a line; `None` where the tokenizer raises, on a quotation or
      escape the line does not end. */
  function Tokens(state: Scan, s: string): Option<seq<string>>
    decreases |s|
  {
    if s == "" then
      match state
      case Idle => Some([])
      case Word(token) => Some([token])
      case _ => None
    else if state.Word? && Separates(s[0]) then Emit(state.token, Tokens(Idle, s[1..]))
    else Tokens(Next(state, s[0]), s[1..])
  }

  function Emit(token: string, rest: Option<seq<string>>): Option<seq<string>> {
    if rest.None? then None else Some([token] + rest.value)
  }

  /** `str.split()` of the rest of a line, in the middle of a word. */
  function Words(word: string, s: string): seq<string>
    decreases |s|
  {
    if s == "" then (if word == "" then [] else [word])
    else if Blank(s[0]) then (if word == "" then [] else [word]) + Words("", s[1..])
    else Words(word + [s[0]], s[1..])
  }

  // ---- lines ----------------------------------------------------------------------------------------

  /** What `str.strip` and `str.split` take for whitespace. */
  predicate Blank(c: char) {
    || IsBreak(c) || c == ' ' || c == '\t' || c == '\U{1f}' || c == '\U{a0}' || c == '\U{1680}'
    || '\U{2000}' <= c <= '\U{200a}' || c == '\U{202f}' || c == '\U{205f}' || c == '\U{3000}'
  }

  function StripLeft(s: string): string { if s != "" && Blank(s[0]) then StripLeft(s[1..]) else s }

  function StripRight(s: string): string { if s != "" && Blank(s[|s| - 1]) then StripRight(s[..|s| - 1]) else s }

  function Strip(s: string): string { StripRight(StripLeft(s)) }

  predicate Live(raw: string) { Strip(raw) != "" && Strip(raw)[0] != '#' }

  function AllTokens(stripped: string): seq<string> {
    match Tokens(Idle, stripped)
    case Some(tokens) => tokens
    case None => Words("", stripped)
  }

  /** The tokens of one line past its command word, if it is live. */
  function LineTokens(raw: string): seq<seq<string>> {
    if Live(raw) && AllTokens(Strip(raw)) != [] then [AllTokens(Strip(raw))[1..]] else []
  }

  /** The token lists of the live lines, in order. */
  function RcOf(lines: seq<string>): seq<seq<string>> {
    if lines == [] then [] else RcOf(lines[..|lines| - 1]) + LineTokens(lines[|lines| - 1])
  }

  datatype RcLine = RcLine(number: nat, tokens: seq<string>)

  function TokenLists(lines: seq<RcLine>): seq<seq<string>> {
    seq(|lines|, k requires 0 <= k < |lines| => lines[k].tokens)
  }

  /** The tokens are those of the live line with this number, among the first `n`. */
  predicate IsLine(line: RcLine, raws: seq<string>, n: nat) {
    1 <= line.number <= n <= |raws| && LineTokens(raws[line.number - 1]) == [line.tokens]
  }

  /** The numbers are those of the lines the tokens came from, in increasing order. */
  ghost predicate Numbered(lines: seq<RcLine>, raws: seq<string>, n: nat) {
    && (forall k :: 0 <= k < |lines| ==> IsLine(lines[k], raws, n))
    && (forall j, k :: 0 <= j < k < |lines| ==> lines[j].number < lines[k].number)
  }

  /** What the first `n` lines give. */
  ghost predicate ReadUpTo(lines: seq<RcLine>, raws: seq<string>, n: nat) {
    n <= |raws| && TokenLists(lines) == RcOf(raws[..n]) && Numbered(lines, raws, n)
  }

  lemma ReadSkips(lines: seq<RcLine>, raws: seq<string>, n: nat)
    requires n < |raws| && ReadUpTo(lines, raws, n) && LineTokens(raws[n]) == []
    ensures ReadUpTo(lines, raws, n + 1)
  {
    assert raws[..n + 1][..n] == raws[..n];
    assert forall k :: 0 <= k < |lines| && IsLine(lines[k], raws, n) ==> IsLine(lines[k], raws, n + 1);
  }

  lemma ReadAdds(lines: seq<RcLine>, raws: seq<string>, n: nat, tokens: seq<string>)
    requires n < |raws| && ReadUpTo(lines, raws, n) && LineTokens(raws[n]) == [tokens]
    ensures ReadUpTo(lines + [RcLine(n + 1, tokens)], raws, n + 1)
  {
    assert raws[..n + 1][..n] == raws[..n];
    assert TokenLists(lines + [RcLine(n + 1, tokens)]) == TokenLists(lines) + [tokens];
    NumberedAdds(lines, raws, n, RcLine(n + 1, tokens));
  }

  lemma NumberedAdds(lines: seq<RcLine>, raws: seq<string>, n: nat, line: RcLine)
    requires n < |raws| && Numbered(lines, raws, n) && IsLine(line, raws, n + 1) && line.number == n + 1
    ensures Numbered(lines + [line], raws, n + 1)
  {
    forall k | 0 <= k < |lines| ensures IsLine(lines[k], raws, n + 1) { assert IsLine(lines[k], raws, n); }
  }

  /** `rc_lines` */
  method RcLines(text: string) returns (lines: seq<RcLine>)
    ensures TokenLists(lines) == RcOf(SplitLines(text))
    ensures Numbered(lines, SplitLines(text), |SplitLines(text)|)
  {
    lines := [];
    var raws := SplitLines(text);
    for n := 0 to |raws|
      invariant ReadUpTo(lines, raws, n)
    {
      var stripped := Strip(raws[n]);
      if stripped == "" || stripped[0] == '#' {
        ReadSkips(lines, raws, n);
        continue;
      }
      var tokens := AllTokens(stripped);
      if tokens == [] {
        ReadSkips(lines, raws, n);
        continue;
      }
      ReadAdds(lines, raws, n, tokens[1..]);
      lines := lines + [RcLine(n + 1, tokens[1..])];
    }
    assert raws[..|raws|] == raws;
  }

  // ---- laws of the tokenizer --------------------------------------------------------------------------------

  lemma ScanStep(state: Scan, c: char, rest: string)
    requires !(state.Word? && Separates(c))
    ensures Tokens(state, [c] + rest) == Tokens(Next(state, c), rest)
  {
    assert ([c] + rest)[1..] == rest;
  }

  lemma ScanSeparator(token: string, c: char, rest: string)
    requires Separates(c)
    ensures Tokens(Word(token), [c] + rest) == Emit(token, Tokens(Idle, rest))
  {
    assert ([c] + rest)[1..] == rest;
  }

  /** Plain characters extend the word. */
  lemma {:induction false} ScanPlain(token: string, p: string, rest: string)
    requires forall k :: 0 <= k < |p| ==> Plain(p[k])
    ensures Tokens(Word(token), p + rest) == Tokens(Word(token + p), rest)
    decreases |p|
  {
    if p == "" {
      assert p + rest == rest && token + p == token;
    } else {
      var tail := p[1..] + rest;
      assert p + rest == [p[0]] + tail;
      ScanStep(Word(token), p[0], tail);
      ScanPlain(token + [p[0]], p[1..], rest);
      assert token + [p[0]] + p[1..] == token + p;
    }
  }

  /** Inside a double quotation all but the mark and the backslash stand for themselves. */
  lemma {:induction false} ScanQuoted(token: string, p: string, rest: string)
    requires forall k :: 0 <= k < |p| ==> p[k] != '"' && p[k] != '\\'
    ensures Tokens(Quote('"', token), p + rest) == Tokens(Quote('"', token + p), rest)
    decreases |p|
  {
    if p == "" {
      assert p + rest == rest && token + p == token;
    } else {
      var tail := p[1..] + rest;
      assert p + rest == [p[0]] + tail;
      ScanStep(Quote('"', token), p[0], tail);
      ScanQuoted(token + [p[0]], p[1..], rest);
      assert token + [p[0]] + p[1..] == token + p;
    }
  }

  lemma ScanWord(word: string, rest: string)
    requires word != "" && forall k :: 0 <= k < |word| ==> Plain(word[k])
    ensures Tokens(Idle, word + rest) == Tokens(Word(word), rest)
  {
    assert word + rest == [word[0]] + (word[1..] + rest);
    ScanStep(Idle, word[0], word[1..] + rest);
    assert "" + [word[0]] == [word[0]];
    ScanPlain([word[0]], word[1..], rest);
    assert [word[0]] + word[1..] == word;
  }

  lemma ScanClosed(word: string, quoted: string)
    requires forall k :: 0 <= k < |quoted| ==> quoted[k] != '"' && quoted[k] != '\\'
    ensures Tokens(Word(word), ['"'] + (quoted + ['"'])) == Some([word + quoted])
  {
    ScanStep(Word(word), '"', quoted + ['"']);
    ScanQuoted(word, quoted, ['"']);
    assert ['"'] == ['"'] + "";
    ScanStep(Quote('"', word + quoted), '"', "");
  }

  /** A word up to a quotation that ends the line. */
  lemma ScanWordThenQuoted(word: string, quoted: string)
    requires word != "" && (forall k :: 0 <= k < |word| ==> Plain(word[k]))
    requires forall k :: 0 <= k < |quoted| ==> quoted[k] != '"' && quoted[k] != '\\'
    ensures Tokens(Idle, word + (['"'] + (quoted + ['"']))) == Some([word + quoted])
  {
    ScanWord(word, ['"'] + (quoted + ['"']));
    ScanClosed(word, quoted);
  }

  /** A command word in front adds one token. */
  lemma ScanCommand(word: string, rest: string)
    requires word != "" && forall k :: 0 <= k < |word| ==> Plain(word[k])
    ensures Tokens(Idle, word + ([' '] + rest)) == Emit(word, Tokens(Idle, rest))
  {
    ScanWord(word, [' '] + rest);
    ScanSeparator(word, ' ', rest);
  }

  // ---- every text has a spelling --------------------------------------------------------------------------

  /** A text with the double quotation's two special characters escaped. */
  function Escaped(s: string): string {
    if s == "" then "" else OneEscaped(s[0]) + Escaped(s[1..])
  }

  function OneEscaped(c: char): string { if c == '"' || c == '\\' then ['\\', c] else [c] }

  lemma ScanOneEscaped(token: string, c: char, rest: string)
    ensures Tokens(Quote('"', token), OneEscaped(c) + rest) == Tokens(Quote('"', token + [c]), rest)
  {
    if c == '"' || c == '\\' {
      assert OneEscaped(c) + rest == ['\\'] + ([c] + rest);
      ScanStep(Quote('"', token), '\\', [c] + rest);
      ScanStep(Escape(token, true), c, rest);
    } else {
      ScanStep(Quote('"', token), c, rest);
    }
  }

  function DoubleQuoted(s: string): string { ['"'] + (Escaped(s) + ['"']) }

  /** A text with a backslash before every character. */
  function Backslashed(s: string): string { if s == "" then "" else ['\\', s[0]] + Backslashed(s[1..]) }

  lemma {:induction false} ScanEscaped(token: string, s: string)
    ensures Tokens(Quote('"', token), Escaped(s) + ['"']) == Some([token + s])
    decreases |s|
  {
    if s == "" {
      assert Escaped(s) + ['"'] == ['"'] + "";
      ScanStep(Quote('"', token), '"', "");
      assert token + s == token;
    } else {
      ScanEscaped(token + [s[0]], s[1..]);
      ScanOneEscaped(token, s[0], Escaped(s[1..]) + ['"']);
      assert Escaped(s) + ['"'] == OneEscaped(s[0]) + (Escaped(s[1..]) + ['"']);
      assert token + [s[0]] + s[1..] == token + s;
    }
  }

  /** Any text, quoted, is one token: the text itself. */
  lemma QuotingRoundTrip(s: string)
    ensures Tokens(Idle, DoubleQuoted(s)) == Some([s])
  {
    ScanStep(Idle, '"', Escaped(s) + ['"']);
    ScanEscaped("", s);
    assert "" + s == s;
  }

  lemma {:induction false} ScanBackslashed(token: string, s: string)
    ensures Tokens(Word(token), Backslashed(s)) == Some([token + s])
    decreases |s|
  {
    if s == "" {
      assert token + s == token;
    } else {
      var rest := Backslashed(s[1..]);
      assert Backslashed(s) == ['\\'] + ([s[0]] + rest);
      ScanStep(Word(token), '\\', [s[0]] + rest);
      ScanStep(Escape(token, false), s[0], rest);
      ScanBackslashed(token + [s[0]], s[1..]);
      assert token + [s[0]] + s[1..] == token + s;
    }
  }

  /** So is any non-empty text with every character escaped. */
  lemma EscapingRoundTrip(s: string)
    requires s != ""
    ensures Tokens(Idle, Backslashed(s)) == Some([s])
  {
    var rest := Backslashed(s[1..]);
    assert Backslashed(s) == ['\\'] + ([s[0]] + rest);
    ScanStep(Idle, '\\', [s[0]] + rest);
    ScanStep(Escape("", false), s[0], rest);
    ScanBackslashed("" + [s[0]], s[1..]);
    assert "" + [s[0]] + s[1..] == s;
  }

  lemma {:induction false} ScanSingle(token: string, p: string)
    requires '\'' !in p
    ensures Tokens(Quote('\'', token), p + ['\'']) == Some([token + p])
    decreases |p|
  {
    if p == "" {
      assert p + ['\''] == ['\''] + "";
      ScanStep(Quote('\'', token), '\'', "");
      assert token + p == token;
    } else {
      var rest := p[1..] + ['\''];
      assert p + ['\''] == [p[0]] + rest;
      ScanStep(Quote('\'', token), p[0], rest);
      ScanSingle(token + [p[0]], p[1..]);
      assert token + [p[0]] + p[1..] == token + p;
    }
  }

  /** Single quotation marks keep everything but themselves, backslashes included. */
  lemma SingleQuotesKeep(p: string)
    requires '\'' !in p
    ensures Tokens(Idle, ['\''] + (p + ['\''])) == Some([p])
  {
    ScanStep(Idle, '\'', p + ['\'']);
    ScanSingle("", p);
    assert "" + p == p;
  }

  /** In a double quotation a backslash before any other character stays. */
  lemma OtherEscapesStay(c: char)
    requires c != '"' && c != '\\'
    ensures Tokens(Idle, ['"'] + (['\\'] + ([c] + ['"']))) == Some([['\\', c]])
  {
    ScanStep(Idle, '"', ['\\'] + ([c] + ['"']));
    ScanStep(Quote('"', ""), '\\', [c] + ['"']);
    ScanStep(Escape("", true), c, ['"']);
    assert ['"'] == ['"'] + "" && "" + ['\\', c] == ['\\', c];
    ScanStep(Quote('"', ['\\', c]), '"', "");
  }

  // ---- tokens of an unquoted line are parts of the line ----------------------------------------------------

  lemma OccursWider(pre: string, s: string, post: string, pat: string)
    requires Occurs(s, pat)
    ensures Occurs(pre + s + post, pat)
  {
    var i :| OccursAt(s, pat, i);
    assert (pre + s + post)[|pre| + i..|pre| + i + |pat|] == s[i..i + |pat|];
    assert OccursAt(pre + s + post, pat, |pre| + i);
  }

  lemma OccursSelf(s: string)
    ensures Occurs(s, s)
  {
    assert s[0..|s|] == s;
    assert OccursAt(s, s, 0);
  }

  ghost predicate AllOccur(tokens: seq<string>, s: string) { forall k :: 0 <= k < |tokens| ==> Occurs(s, tokens[k]) }

  lemma AllOccurAfter(token: string, c: char, tokens: seq<string>, rest: string)
    requires AllOccur(tokens, rest)
    ensures AllOccur([token] + tokens, token + ([c] + rest))
  {
    var s := token + ([c] + rest);
    forall k | 0 <= k < |[token] + tokens| ensures Occurs(s, ([token] + tokens)[k]) {
      if k == 0 {
        OccursSelf(token);
        OccursWider("", token, [c] + rest, token);
        assert "" + token + ([c] + rest) == s;
      } else {
        OccursWider(token + [c], rest, "", tokens[k - 1]);
        assert token + [c] + rest + "" == s;
      }
    }
  }

  /** No quotation mark and no backslash. */
  predicate Unquoted(s: string) { forall k :: 0 <= k < |s| ==> !Quotes(s[k]) && s[k] != '\\' }

  lemma {:induction false} UnquotedTokens(word: string, s: string)
    requires Unquoted(s)
    ensures Tokens(Word(word), s).Some? && AllOccur(Tokens(Word(word), s).value, word + s)
    ensures Tokens(Idle, s).Some? && AllOccur(Tokens(Idle, s).value, s)
    decreases |s|
  {
    if s == "" {
      OccursSelf(word);
      assert word + s == word;
    } else {
      var c, rest := s[0], s[1..];
      assert s == [c] + rest;
      UnquotedTokens(word + [c], rest);
      UnquotedTokens([c], rest);
      if Separates(c) {
        UnquotedSeparator(word, c, rest);
      } else {
        ScanStep(Word(word), c, rest);
        assert word + [c] + rest == word + s;
        ScanStep(Idle, c, rest);
        assert "" + [c] == [c];
      }
    }
  }

  lemma UnquotedSeparator(word: string, c: char, rest: string)
    requires Separates(c) && Tokens(Idle, rest).Some? && AllOccur(Tokens(Idle, rest).value, rest)
    ensures Tokens(Word(word), [c] + rest).Some? && AllOccur(Tokens(Word(word), [c] + rest).value, word + ([c] + rest))
    ensures Tokens(Idle, [c] + rest).Some? && AllOccur(Tokens(Idle, [c] + rest).value, [c] + rest)
  {
    ScanSeparator(word, c, rest);
    ScanStep(Idle, c, rest);
    AllOccurAfter(word, c, Tokens(Idle, rest).value, rest);
    WiderAll(Tokens(Idle, rest).value, c, rest);
  }

  lemma WiderAll(tokens: seq<string>, c: char, rest: string)
    requires AllOccur(tokens, rest)
    ensures AllOccur(tokens, [c] + rest)
  {
    forall k | 0 <= k < |tokens| ensures Occurs([c] + rest, tokens[k]) {
      OccursWider([c], rest, "", tokens[k]);
      assert [c] + rest + "" == [c] + rest;
    }
  }

  lemma {:induction false} WordsOccur(word: string, s: string)
    ensures AllOccur(Words(word, s), word + s)
    decreases |s|
  {
    if s == "" {
      OccursSelf(word);
      assert word + s == word;
    } else {
      var c, rest := s[0], s[1..];
      assert s == [c] + rest;
      if Blank(c) {
        WordsOccur("", rest);
        assert "" + rest == rest;
        WordsBlank(word, c, rest);
      } else {
        WordsOccur(word + [c], rest);
        assert word + [c] + rest == word + s;
      }
    }
  }

  lemma WordsBlank(word: string, c: char, rest: string)
    requires AllOccur(Words("", rest), rest)
    ensures AllOccur((if word == "" then [] else [word]) + Words("", rest), word + ([c] + rest))
  {
    if word == "" {
      WiderAll(Words("", rest), c, rest);
      assert [] + Words("", rest) == Words("", rest) && word + ([c] + rest) == [c] + rest;
    } else {
      AllOccurAfter(word, c, Words("", rest), rest);
    }
  }

  // ---- stripping -------------------------------------------------------------------------------------------

  lemma {:induction false} StripLeftIs(s: string) returns (k: nat)
    ensures k <= |s| && StripLeft(s) == s[k..]
  {
    k := 0;
    if s != "" && Blank(s[0]) {
      var rest := StripLeftIs(s[1..]);
      k := rest + 1;
      assert s[1..][rest..] == s[k..];
    }
  }

  lemma {:induction false} StripRightIs(s: string) returns (k: nat)
    ensures k <= |s| && StripRight(s) == s[..k]
  {
    k := |s|;
    if s != "" && Blank(s[|s| - 1]) {
      k := StripRightIs(s[..|s| - 1]);
      assert s[..|s| - 1][..k] == s[..k];
    }
  }

  lemma OccursInSlice(s: string, from: nat, to: nat, pat: string)
    requires from <= to <= |s| && Occurs(s[from..to], pat)
    ensures Occurs(s, pat)
  {
    var i :| OccursAt(s[from..to], pat, i);
    var at, slice := from + i, s[from..to];
    forall k | 0 <= k < |pat| ensures s[at..at + |pat|][k] == pat[k] {
      assert slice[i..i + |pat|][k] == slice[i + k] == s[at + k];
    }
    assert OccursAt(s, pat, at);
  }

  lemma OccursStripped(raw: string, pat: string)
    requires Occurs(Strip(raw), pat)
    ensures Occurs(raw, pat)
  {
    var from := StripLeftIs(raw);
    var n := StripRightIs(raw[from..]);
    assert raw[from..][..n] == raw[from..from + n];
    OccursInSlice(raw, from, from + n, pat);
  }

  lemma StripNothing(s: string)
    requires s != "" && !Blank(s[0]) && !Blank(s[|s| - 1])
    ensures Strip(s) == s
  {
  }

  lemma {:induction false} StripRightKeepsFirst(s: string)
    requires s != "" && !Blank(s[0])
    ensures StripRight(s) != "" && StripRight(s)[0] == s[0]
  {
    if Blank(s[|s| - 1]) { StripRightKeepsFirst(s[..|s| - 1]); }
  }

  /** A comment or an empty line is not live. */
  lemma NotLive(raw: string)
    requires raw == "" || raw[0] == '#'
    ensures LineTokens(raw) == []
  {
    if raw != "" { StripRightKeepsFirst(raw); }
  }

  // ---- words, separators and blanks, spelled out ----------------------------------------------------------------

  /** Anything but the four separators, the two quotation marks and the backslash. */
  predicate PlainWord(word: string) {
    word != "" && forall k :: 0 <= k < |word| ==> word[k] !in {' ', '\t', '\r', '\n', '\'', '"', '\\'}
  }

  /** A plain word is one token; any of the four separators ends it, and before a word they say
      nothing. */
  lemma PlainWords(word: string, c: char, rest: string)
    requires PlainWord(word) && c in {' ', '\t', '\r', '\n'}
    ensures Tokens(Idle, word) == Some([word])
    ensures Tokens(Idle, word + ([c] + rest)) == Emit(word, Tokens(Idle, rest))
    ensures Tokens(Idle, [c] + rest) == Tokens(Idle, rest)
  {
    WordStarts(word, "");
    WordStarts(word, [c] + rest);
    assert word + "" == word;
    assert ([c] + rest)[1..] == rest;
  }

  lemma WordStarts(word: string, rest: string)
    requires PlainWord(word)
    ensures Tokens(Idle, word + rest) == Tokens(Word(word), rest)
  {
    assert forall k :: 0 <= k < |word| ==> Plain(word[k]);
    ScanWord(word, rest);
  }

  /** The whitespace of `str.strip` and `str.split`, one character after another. */
  lemma BlankIs(c: char)
    ensures Blank(c) <==>
              c in {'\U{09}', '\U{0a}', '\U{0b}', '\U{0c}', '\U{0d}', '\U{1c}', '\U{1d}', '\U{1e}', '\U{1f}', '\U{20}',
                    '\U{85}', '\U{a0}', '\U{1680}', '\U{2000}', '\U{2001}', '\U{2002}', '\U{2003}', '\U{2004}',
                    '\U{2005}', '\U{2006}', '\U{2007}', '\U{2008}', '\U{2009}', '\U{200a}', '\U{2028}', '\U{2029}',
                    '\U{202f}', '\U{205f}', '\U{3000}'}
  {
  }

  predicate AllBlank(s: string) { forall k :: 0 <= k < |s| ==> Blank(s[k]) }

  /** Stripping takes blanks off both ends and leaves none there. */
  lemma StripIs(s: string) returns (pre: string, post: string)
    ensures s == pre + Strip(s) + post && AllBlank(pre) && AllBlank(post)
    ensures Strip(s) == "" || (!Blank(Strip(s)[0]) && !Blank(Strip(s)[|Strip(s)| - 1]))
  {
    pre := LeftBlanks(s);
    post := RightBlanks(StripLeft(s));
    if StripLeft(s) != "" { StripRightKeepsFirst(StripLeft(s)); }
  }

  lemma {:induction false} LeftBlanks(s: string) returns (pre: string)
    ensures s == pre + StripLeft(s) && AllBlank(pre) && (StripLeft(s) == "" || !Blank(StripLeft(s)[0]))
  {
    pre := "";
    if s != "" && Blank(s[0]) {
      pre := LeftBlanks(s[1..]);
      pre := [s[0]] + pre;
    }
  }

  lemma {:induction false} RightBlanks(s: string) returns (post: string)
    ensures s == StripRight(s) + post && AllBlank(post)
    ensures StripRight(s) == "" || !Blank(StripRight(s)[|StripRight(s)| - 1])
  {
    post := "";
    if s != "" && Blank(s[|s| - 1]) {
      post := RightBlanks(s[..|s| - 1]);
      post := post + [s[|s| - 1]];
    }
  }

  lemma {:induction false} WordGrows(word: string, more: string, rest: string)
    requires forall k :: 0 <= k < |more| ==> !Blank(more[k])
    ensures Words(word, more + rest) == Words(word + more, rest)
    decreases |more|
  {
    if more == "" {
      assert more + rest == rest && word + more == word;
    } else {
      assert (more + rest)[1..] == more[1..] + rest;
      WordGrows(word + [more[0]], more[1..], rest);
      assert word + [more[0]] + more[1..] == word + more;
    }
  }

  /** The fallback: words between blanks. */
  lemma FallbackWords(word: string, c: char, rest: string)
    requires word != "" && (forall k :: 0 <= k < |word| ==> !Blank(word[k])) && Blank(c)
    ensures Words("", word) == [word] && Words("", "") == []
    ensures Words("", word + ([c] + rest)) == [word] + Words("", rest)
    ensures Words("", [c] + rest) == Words("", rest)
  {
    WordGrows("", word, "");
    WordGrows("", word, [c] + rest);
    assert word + "" == word && "" + word == word;
    assert ([c] + rest)[1..] == rest;
  }

  /** The words of a line: the tokenizer's, or those between blanks where it raises. */
  ghost predicate WordsOf(line: string, words: seq<string>) {
    Tokens(Idle, line) == Some(words) || (Tokens(Idle, line).None? && words == Words("", line))
  }

  /** A line gives tokens exactly when, stripped, it is not empty, is no comment and has a
      command word; they are the words after it. */
  lemma LineTokensIs(raw: string, tokens: seq<string>)
    ensures LineTokens(raw) == [tokens] <==>
              && Strip(raw) != "" && Strip(raw)[0] != '#'
              && exists command :: WordsOf(Strip(raw), [command] + tokens)
    ensures LineTokens(raw) == [] || |LineTokens(raw)| == 1
  {
    var line := Strip(raw);
    if LineTokens(raw) == [tokens] {
      var all := AllTokens(line);
      assert all == [all[0]] + tokens;
      assert WordsOf(line, [all[0]] + tokens);
    }
    if line != "" && line[0] != '#' {
      if command :| WordsOf(line, [command] + tokens) {
        assert AllTokens(line) == [command] + tokens;
        assert ([command] + tokens)[1..] == tokens;
      }
    }
  }
}
