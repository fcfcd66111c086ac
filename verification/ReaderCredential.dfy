/** Setting the reader credential: every line that mentions the header flag is replaced by one
    correctly quoted line, and what the tokenizer then makes of the file. */
module ReaderCredential {
  import opened Text
  import opened RcTokens
  import opened RcHeaders

  // ---- the rewriting ---------------------------------------------------------------------------------------

  predicate IsComment(raw: string) { Strip(raw) != "" && Strip(raw)[0] == '#' }

  predicate Keeps(raw: string) { Find(raw, FLAG).None? || IsComment(raw) }

  function Keep(lines: seq<string>): seq<string> {
    if lines == [] then [] else AddKept(Keep(lines[..|lines| - 1]), lines[|lines| - 1])
  }

  function AddKept(kept: seq<string>, raw: string): seq<string> { if Keeps(raw) then kept + [raw] else kept }

  function DropLineEnds(s: string): string {
    if s != "" && s[|s| - 1] == '\n' then DropLineEnds(s[..|s| - 1]) else s
  }

  const BASIC := "authorization=Basic "

  /** `credential_line`, given the base64 of the credential. */
  function CredentialLine(token: string): string { "build" + ([' '] + (HEADER + (['"'] + ((BASIC + token) + ['"'])))) }

  const HOST := "bazel-cache.ocx.sh"

  function RealmComment(user: string): string { "# " + (HOST + " reader realm (" + user + "). Reads only.") }

  const QUOTES_COMMENT := "# The quotes are load-bearing."

  function Body(text: string): string { DropLineEnds(Join(Keep(SplitLines(text)), '\n')) }

  /** `set_reader_credential`, given the base64 of the credential. */
  function SetReader(text: string, user: string, token: string): string {
    Body(text) + "\n\n" + RealmComment(user) + Foot(token)
  }

  function Foot(token: string): string { ['\n'] + (QUOTES_COMMENT + ['\n'] + CredentialLine(token)) + ['\n'] }

  /** Base64's alphabet has no quotation mark, backslash or line end. */
  predicate IsBase64(token: string) {
    forall k :: 0 <= k < |token| ==>
      'a' <= token[k] <= 'z' || 'A' <= token[k] <= 'Z' || '0' <= token[k] <= '9' || token[k] in {'+', '/', '='}
  }

  // ---- the credential line, tokenized --------------------------------------------------------------------------

  function CredentialToken(token: string): string { HEADER + (BASIC + token) }

  lemma CredentialTokens(token: string)
    requires IsBase64(token)
    ensures Tokens(Idle, CredentialLine(token)) == Some(["build", CredentialToken(token)])
  {
    var rest := HEADER + (['"'] + ((BASIC + token) + ['"']));
    assert Tokens(Idle, rest) == Some([CredentialToken(token)]) by {
      PlainHeader();
      BasicQuotes(token);
      ScanWordThenQuoted(HEADER, BASIC + token);
    }
    ScanCommand("build", rest);
    assert ["build"] + [CredentialToken(token)] == ["build", CredentialToken(token)];
  }

  lemma PlainHeader()
    ensures forall k :: 0 <= k < |HEADER| ==> Plain(HEADER[k])
  {
  }

  lemma BasicQuotes(token: string)
    requires IsBase64(token)
    ensures forall k :: 0 <= k < |BASIC + token| ==> (BASIC + token)[k] != '"' && (BASIC + token)[k] != '\\'
  {
    assert forall k :: 0 <= k < |BASIC| ==> BASIC[k] != '"' && BASIC[k] != '\\';
  }

  lemma CredentialRc(token: string)
    requires IsBase64(token)
    ensures LineTokens(CredentialLine(token)) == [[CredentialToken(token)]]
  {
    var line := CredentialLine(token);
    assert line[0] == 'b' && line[|line| - 1] == '"';
    StripNothing(line);
    CredentialTokens(token);
  }

  /** Its one token is a whole header carrying the intended pair. */
  lemma CredentialPair(token: string)
    ensures EndsInHeader([CredentialToken(token)]) && !SplitsHeader([CredentialToken(token)])
    ensures HeaderPair([CredentialToken(token)]) == Some(("authorization", "Basic " + token))
  {
    var value := BASIC + token;
    assert CredentialToken(token) == FLAG + (['='] + value);
    PartitionAt(FLAG, value);
    assert value == "authorization" + (['='] + ("Basic " + token));
    PartitionAt("authorization", "Basic " + token);
  }

  lemma CredentialDropped(token: string)
    requires IsBase64(token)
    ensures !Keeps(CredentialLine(token))
  {
    var line := CredentialLine(token);
    assert line[0] == 'b' && line[|line| - 1] == '"';
    StripNothing(line);
    assert line[6..21] == FLAG;
    assert OccursAt(line, FLAG, 6);
  }

  // ---- what is written, in words -------------------------------------------------------------------------------

  /** A line that mentions the flag outside a comment. */
  ghost predicate Mentions(raw: string) {
    (exists pre, post :: raw == pre + "--remote_header" + post) && !IsComment(raw)
  }

  lemma MiddleIs(raw: string, pre: string, mid: string, post: string)
    ensures raw == pre + mid + post ==> OccursAt(raw, mid, |pre|)
  {
    if raw == pre + mid + post { assert raw[|pre|..|pre| + |mid|] == mid; }
  }

  lemma OccursBetween(raw: string, mid: string, i: nat)
    requires OccursAt(raw, mid, i)
    ensures raw == raw[..i] + mid + raw[i + |mid|..]
  {
  }

  lemma KeepsIs(raw: string)
    ensures Keeps(raw) <==> !Mentions(raw)
  {
    if pre, post :| raw == pre + "--remote_header" + post { MiddleIs(raw, pre, FLAG, post); }
    if Find(raw, FLAG).Some? { OccursBetween(raw, FLAG, Find(raw, FLAG).value); }
  }

  lemma {:induction false} DropsOnlyEnds(s: string) returns (n: nat)
    ensures s == DropLineEnds(s) + Feeds(n)
    ensures DropLineEnds(s) == "" || DropLineEnds(s)[|DropLineEnds(s)| - 1] != '\n'
  {
    if s != "" && s[|s| - 1] == '\n' {
      n := DropsOnlyEnds(s[..|s| - 1]);
      assert s == s[..|s| - 1] + "\n" && Feeds(n + 1) == Feeds(n) + "\n";
      n := n + 1;
    } else {
      n := 0;
    }
  }

  function Feeds(n: nat): string { seq(n, _ => '\n') }

  /** The new text: the lines that do not mention the flag, without the line ends after the last;
      an empty line; the two comments; and the credential, quoted. */
  lemma WhatIsWritten(text: string, user: string, token: string) returns (body: string, n: nat)
    ensures Join(Keep(SplitLines(text)), '\n') == body + Feeds(n) && (body == "" || body[|body| - 1] != '\n')
    ensures SetReader(text, user, token)
         == body + "\n\n" + ("# " + "bazel-cache.ocx.sh" + " reader realm (" + user + "). Reads only.") + "\n"
            + "# The quotes are load-bearing." + "\n"
            + ("build " + "--remote_header=" + "\"authorization=Basic " + token + "\"") + "\n"
  {
    body := Body(text);
    n := DropsOnlyEnds(Join(Keep(SplitLines(text)), '\n'));
    RealmIs(user);
    CredentialIs(token);
    Written(body, RealmComment(user), QUOTES_COMMENT, CredentialLine(token));
  }

  lemma Written(body: string, a: string, b: string, c: string)
    ensures body + "\n\n" + a + (['\n'] + (b + ['\n'] + c) + ['\n'])
         == body + "\n\n" + a + "\n" + b + "\n" + c + "\n"
  {
  }

  lemma RealmIs(user: string)
    ensures RealmComment(user) == "# " + "bazel-cache.ocx.sh" + " reader realm (" + user + "). Reads only."
  {
  }

  lemma CredentialIs(token: string)
    ensures CredentialLine(token) == "build " + "--remote_header=" + "\"authorization=Basic " + token + "\""
  {
    assert ['"'] + BASIC == "\"authorization=Basic ";
    assert "build" + [' '] == "build ";
  }

  // ---- lists of lines ------------------------------------------------------------------------------------------

  lemma {:induction false} RcConcat(a: seq<string>, b: seq<string>)
    ensures RcOf(a + b) == RcOf(a) + RcOf(b)
    decreases |b|
  {
    if b == [] {
      assert a + b == a;
    } else {
      assert (a + b)[..|a + b| - 1] == a + b[..|b| - 1];
      RcConcat(a, b[..|b| - 1]);
    }
  }

  lemma {:induction false} KeepConcat(a: seq<string>, b: seq<string>)
    ensures Keep(a + b) == Keep(a) + Keep(b)
    decreases |b|
  {
    if b == [] {
      assert a + b == a;
    } else {
      assert (a + b)[..|a + b| - 1] == a + b[..|b| - 1];
      KeepConcat(a, b[..|b| - 1]);
    }
  }

  lemma KeepOne(raw: string)
    ensures Keep([raw]) == (if Keeps(raw) then [raw] else []) && RcOf([raw]) == LineTokens(raw)
  {
    assert [raw][..0] == [];
  }

  ghost predicate AllKept(lines: seq<string>) { forall k :: 0 <= k < |lines| ==> Keeps(lines[k]) }

  lemma {:induction false} KeepsAll(lines: seq<string>)
    requires AllKept(lines)
    ensures Keep(lines) == lines
  {
    if lines != [] { KeepsAll(lines[..|lines| - 1]); }
  }

  lemma {:induction false} KeptAreKept(lines: seq<string>)
    ensures AllKept(Keep(lines))
  {
    if lines != [] { KeptAreKept(lines[..|lines| - 1]); }
  }

  ghost predicate OnOneLine(lines: seq<string>) { forall k :: 0 <= k < |lines| ==> OneLine(lines[k]) }

  lemma {:induction false} KeepOnOneLine(lines: seq<string>)
    requires OnOneLine(lines)
    ensures OnOneLine(Keep(lines))
  {
    if lines != [] { KeepOnOneLine(lines[..|lines| - 1]); }
  }

  lemma EmptyLine()
    ensures Keeps("") && LineTokens("") == []
  {
    NotLive("");
  }

  /** Dropping line ends drops lines that are kept and not live. */
  lemma {:induction false} DroppedLines(s: string)
    requires AllKept(Split(s, '\n'))
    ensures RcOf(Split(DropLineEnds(s), '\n')) == RcOf(Split(s, '\n')) && AllKept(Split(DropLineEnds(s), '\n'))
  {
    if s != "" && s[|s| - 1] == '\n' {
      LastLine(s);
      DroppedLines(s[..|s| - 1]);
    }
  }

  lemma LastLine(s: string)
    requires s != "" && s[|s| - 1] == '\n' && AllKept(Split(s, '\n'))
    ensures var lines := Split(s[..|s| - 1], '\n'); RcOf(Split(s, '\n')) == RcOf(lines) && AllKept(lines)
  {
    SplitTrailing(s);
    EmptyLast(Split(s[..|s| - 1], '\n'));
  }

  lemma SplitTrailing(s: string)
    requires s != "" && s[|s| - 1] == '\n'
    ensures Split(s, '\n') == Split(s[..|s| - 1], '\n') + [""]
  {
    var init := s[..|s| - 1];
    assert s == init + ['\n'] + "";
    SplitConcat(init, "", '\n');
  }

  lemma EmptyLast(lines: seq<string>)
    requires AllKept(lines + [""])
    ensures RcOf(lines + [""]) == RcOf(lines) && AllKept(lines)
  {
    AllKeptFirst(lines, [""]);
    RcConcat(lines, [""]);
    KeepOne("");
    EmptyLine();
  }

  lemma AllKeptFirst(a: seq<string>, b: seq<string>)
    requires AllKept(a + b)
    ensures AllKept(a)
  {
    assert forall k :: 0 <= k < |a| ==> (a + b)[k] == a[k];
  }

  /** The body's lines give the kept lines' tokens, and all of them are kept again. */
  lemma BodyLines(text: string)
    ensures RcOf(Split(Body(text), '\n')) == RcOf(Keep(SplitLines(text))) && AllKept(Split(Body(text), '\n'))
  {
    var kept := Keep(SplitLines(text));
    var joined := Join(kept, '\n');
    LinesAreLines(text);
    KeepOnOneLine(SplitLines(text));
    KeptAreKept(SplitLines(text));
    SplitOfJoin(kept);
    DroppedLines(joined);
  }

  lemma SplitOfJoin(kept: seq<string>)
    requires OnOneLine(kept) && AllKept(kept)
    ensures AllKept(Split(Join(kept, '\n'), '\n')) && RcOf(Split(Join(kept, '\n'), '\n')) == RcOf(kept)
  {
    if kept == [] {
      KeepOne("");
      EmptyLine();
    } else {
      SplitJoin(kept, '\n');
    }
  }

  // ---- the file afterwards -------------------------------------------------------------------------------------

  /** The lines of the realm comment: one, unless the user name holds a line end. */
  function Comments(user: string): seq<string> { Split(Unified(RealmComment(user)), '\n') }

  function Added(user: string, token: string): seq<string> {
    [""] + (Comments(user) + ([QUOTES_COMMENT] + [CredentialLine(token)]))
  }

  lemma {:induction false} DropKeepsFeeds(s: string)
    requires OnlyLineFeeds(s)
    ensures OnlyLineFeeds(DropLineEnds(s))
  {
    if s != "" && s[|s| - 1] == '\n' { DropKeepsFeeds(s[..|s| - 1]); }
  }

  lemma BodyFeeds(text: string)
    ensures OnlyLineFeeds(Body(text))
  {
    LinesAreLines(text);
    KeepOnOneLine(SplitLines(text));
    JoinFeeds(Keep(SplitLines(text)));
    DropKeepsFeeds(Join(Keep(SplitLines(text)), '\n'));
  }

  lemma QuotesOneLine()
    ensures OneLine(QUOTES_COMMENT)
  {
  }

  lemma CredentialOneLine(token: string)
    requires IsBase64(token)
    ensures OneLine(CredentialLine(token))
  {
    assert OneLine("build" + [' ']) && OneLine(HEADER);
    OneLineConcat(BASIC, token);
    OneLineConcat(HEADER, ['"'] + ((BASIC + token) + ['"']));
  }

  lemma FootFeeds(token: string)
    requires IsBase64(token)
    ensures OnlyLineFeeds(Foot(token))
  {
    QuotesOneLine();
    CredentialOneLine(token);
  }

  /** The line ends of the new text: those of the user name, and line feeds. */
  lemma UnifiedAfter(head: string, realm: string, foot: string)
    requires OnlyLineFeeds(head) && OnlyLineFeeds(foot) && realm != "" && realm[0] != '\n' && realm[|realm| - 1] != '\r'
    ensures Unified(head + realm + foot) == head + Unified(realm) + foot
  {
    UnifiedHead(head, realm);
    LastOfConcat(head, realm);
    UnifiedSame(foot);
    UnifiedConcat(head + realm, foot);
  }

  lemma UnifiedHead(head: string, realm: string)
    requires OnlyLineFeeds(head) && (realm == "" || realm[0] != '\n')
    ensures Unified(head + realm) == head + Unified(realm)
  {
    UnifiedSame(head);
    UnifiedConcat(head, realm);
  }

  lemma LastOfConcat(a: string, b: string)
    requires b != ""
    ensures (a + b)[|a + b| - 1] == b[|b| - 1]
  {
  }

  lemma SplitFour(body: string, a: string, b: string, c: string)
    requires '\n' !in b && '\n' !in c
    ensures SplitFeeds(body + "\n\n" + a + (['\n'] + (b + ['\n'] + c) + ['\n']))
         == Split(body, '\n') + ([""] + (Split(a, '\n') + ([b] + [c])))
  {
    var bc := b + ['\n'] + c;
    var rest := "" + ['\n'] + (a + ['\n'] + bc);
    var all := body + ['\n'] + rest;
    SplitConcat(body, rest, '\n');
    SplitRest(a, b, c);
    Regroup(body, a, bc);
    FeedsOf(all);
  }

  lemma Regroup(body: string, a: string, bc: string)
    ensures body + "\n\n" + a + (['\n'] + bc + ['\n']) == body + ['\n'] + ("" + ['\n'] + (a + ['\n'] + bc)) + ['\n']
  {
  }

  lemma FeedsOf(s: string)
    ensures SplitFeeds(s + ['\n']) == Split(s, '\n')
  {
    assert (s + ['\n'])[..|s|] == s;
  }

  lemma SplitRest(a: string, b: string, c: string)
    requires '\n' !in b && '\n' !in c
    ensures Split("" + ['\n'] + (a + ['\n'] + (b + ['\n'] + c)), '\n') == [""] + (Split(a, '\n') + ([b] + [c]))
  {
    SplitPlain(c, '\n');
    SplitPlain(b, '\n');
    SplitConcat(b, c, '\n');
    SplitConcat(a, b + ['\n'] + c, '\n');
    SplitConcat("", a + ['\n'] + (b + ['\n'] + c), '\n');
  }

  lemma RealmEnds(user: string)
    ensures var realm := RealmComment(user); realm != "" && realm[0] == '#' && realm[|realm| - 1] == '.'
  {
  }

  lemma LinesAfter(text: string, user: string, token: string)
    requires IsBase64(token)
    ensures SplitLines(SetReader(text, user, token)) == Split(Body(text), '\n') + Added(user, token)
  {
    BodyFeeds(text);
    FootFeeds(token);
    RealmEnds(user);
    UnifiedAfter(Body(text) + "\n\n", RealmComment(user), Foot(token));
    QuotesOneLine();
    CredentialOneLine(token);
    SplitFour(Body(text), Unified(RealmComment(user)), QUOTES_COMMENT, CredentialLine(token));
  }

  /** The realm comment starts as a comment whatever the user name. */
  lemma FirstComment(user: string)
    ensures Comments(user)[0] != "" && Comments(user)[0][0] == '#'
  {
    RealmEnds(user);
    SplitHead(Unified(RealmComment(user)), '\n');
  }

  lemma CommentLine(raw: string)
    requires raw != "" && raw[0] == '#'
    ensures Keeps(raw) && LineTokens(raw) == []
  {
    NotLive(raw);
    StripRightKeepsFirst(raw);
  }

  /** The live lines a user name with line ends would smuggle in. */
  function Strays(user: string): seq<seq<string>> { RcOf(Comments(user)) }

  /** A user name on one line adds none. */
  lemma OneLineUser(user: string)
    requires OneLine(user)
    ensures Comments(user) == [RealmComment(user)] && Strays(user) == [] && RcOf(Keep(Comments(user))) == []
  {
    var realm := RealmComment(user);
    RealmOneLine(user);
    UnifiedSame(realm);
    OneLineHasNoFeed(realm);
    SplitPlain(realm, '\n');
    RealmEnds(user);
    CommentLine(realm);
    KeepOne(realm);
  }

  lemma RealmOneLine(user: string)
    requires OneLine(user)
    ensures OneLine(RealmComment(user))
  {
    assert OneLine("# ") && OneLine(HOST + " reader realm (") && OneLine("). Reads only.");
    OneLineConcat(HOST + " reader realm (", user);
    OneLineConcat(HOST + " reader realm (" + user, "). Reads only.");
    OneLineConcat("# ", HOST + " reader realm (" + user + "). Reads only.");
  }

  lemma AroundComments(comments: seq<string>, a: string, b: string, c: string)
    requires Keeps(a) && Keeps(b) && !Keeps(c) && LineTokens(a) == [] && LineTokens(b) == []
    ensures RcOf([a] + (comments + ([b] + [c]))) == RcOf(comments) + LineTokens(c)
    ensures Keep([a] + (comments + ([b] + [c]))) == [a] + (Keep(comments) + [b])
    ensures RcOf([a] + (Keep(comments) + [b])) == RcOf(Keep(comments))
  {
    KeepOne(a);
    KeepOne(b);
    KeepOne(c);
    RcAround(comments, a, b, c);
    KeepConcat([b], [c]);
    KeepConcat(comments, [b] + [c]);
    KeepConcat([a], comments + ([b] + [c]));
    RcConcat(Keep(comments), [b]);
    RcConcat([a], Keep(comments) + [b]);
  }

  lemma RcAround(comments: seq<string>, a: string, b: string, c: string)
    requires LineTokens(a) == [] && LineTokens(b) == []
    ensures RcOf([a] + (comments + ([b] + [c]))) == RcOf(comments) + LineTokens(c)
  {
    KeepOne(a);
    KeepOne(b);
    KeepOne(c);
    RcConcat([b], [c]);
    RcConcat(comments, [b] + [c]);
    RcConcat([a], comments + ([b] + [c]));
  }

  lemma AddedRc(user: string, token: string)
    requires IsBase64(token)
    ensures RcOf(Added(user, token)) == Strays(user) + [[CredentialToken(token)]]
    ensures Keep(Added(user, token)) == [""] + (Keep(Comments(user)) + [QUOTES_COMMENT])
    ensures RcOf(Keep(Added(user, token))) == RcOf(Keep(Comments(user)))
  {
    CommentLine(QUOTES_COMMENT);
    EmptyLine();
    CredentialRc(token);
    CredentialDropped(token);
    AroundComments(Comments(user), "", QUOTES_COMMENT, CredentialLine(token));
  }

  /** Tokenized, the new file is the kept lines' tokens, in order, what the user name smuggles
      in, and the credential's. */
  lemma TokensAfter(text: string, user: string, token: string)
    requires IsBase64(token)
    ensures RcOf(SplitLines(SetReader(text, user, token)))
         == RcOf(Keep(SplitLines(text))) + (Strays(user) + [[CredentialToken(token)]])
  {
    LinesAfter(text, user, token);
    RcConcat(Split(Body(text), '\n'), Added(user, token));
    BodyLines(text);
    AddedRc(user, token);
  }

  lemma KeptAgain(body: seq<string>, more: seq<string>)
    requires AllKept(body)
    ensures Keep(body + more) == body + Keep(more) && RcOf(Keep(body + more)) == RcOf(body) + RcOf(Keep(more))
  {
    KeepsAll(body);
    KeepConcat(body, more);
    RcConcat(body, Keep(more));
  }

  /** What the second application keeps of the first one's lines. */
  lemma KeptOfOnce(text: string, once: string, user: string, token: string)
    requires IsBase64(token) && once == SetReader(text, user, token)
    ensures Keep(SplitLines(once)) == Split(Body(text), '\n') + ([""] + (Keep(Comments(user)) + [QUOTES_COMMENT]))
    ensures RcOf(Keep(SplitLines(once))) == RcOf(Keep(SplitLines(text))) + RcOf(Keep(Comments(user)))
  {
    LinesAfter(text, user, token);
    BodyLines(text);
    AddedRc(user, token);
    KeptAgain(Split(Body(text), '\n'), Added(user, token));
  }

  lemma SameTail<T>(a: seq<T>, k: seq<T>, b: seq<T>)
    ensures (a + k) + b == a + b <==> k == []
  {
    if k == [] { assert a + k == a; }
    assert |(a + k) + b| == |a + b| + |k|;
  }

  /** A second application gives the same token lists exactly when the realm comment keeps no
      live line, as for every user name on one line. */
  lemma SecondApplicationIff(text: string, user: string, token: string)
    requires IsBase64(token)
    ensures var once := SetReader(text, user, token);
            RcOf(SplitLines(SetReader(once, user, token))) == RcOf(SplitLines(once)) <==>
              RcOf(Keep(Comments(user))) == []
    ensures OneLine(user) ==> RcOf(Keep(Comments(user))) == []
  {
    var once := SetReader(text, user, token);
    TokensAfter(text, user, token);
    TokensAfter(once, user, token);
    KeptOfOnce(text, once, user, token);
    SameTail(RcOf(Keep(SplitLines(text))), RcOf(Keep(Comments(user))), Strays(user) + [[CredentialToken(token)]]);
    if OneLine(user) { OneLineUser(user); }
  }

  lemma BodyIsJoin(kept: seq<string>)
    requires OnOneLine(kept) && kept != [] && kept[|kept| - 1] != ""
    ensures Split(DropLineEnds(Join(kept, '\n')), '\n') == kept
  {
    JoinEnds(kept);
    LastIsNoLineEnd(kept[|kept| - 1]);
    NoFeeds(kept);
    SplitJoin(kept, '\n');
  }

  lemma NoFeeds(lines: seq<string>)
    requires OnOneLine(lines)
    ensures forall k :: 0 <= k < |lines| ==> '\n' !in lines[k]
  {
    forall k | 0 <= k < |lines| ensures '\n' !in lines[k] { OneLineHasNoFeed(lines[k]); }
  }

  lemma LastIsNoLineEnd(s: string)
    requires s != "" && OneLine(s)
    ensures s[|s| - 1] != '\n'
  {
  }

  lemma LastOfKept(body: seq<string>, comments: seq<string>, last: string)
    ensures var kept := body + ([""] + (comments + [last])); kept != [] && kept[|kept| - 1] == last
  {
  }

  /** The text itself is not the same: the second application keeps the blank line and the
      comments of the first, and adds them once more. */
  lemma CommentsAccumulate(text: string, user: string, token: string)
    requires IsBase64(token)
    ensures var once := SetReader(text, user, token);
            SplitLines(SetReader(once, user, token)) == Keep(SplitLines(once)) + Added(user, token)
    ensures |SplitLines(SetReader(SetReader(text, user, token), user, token))|
         >= |SplitLines(SetReader(text, user, token))| + 3
  {
    var once := SetReader(text, user, token);
    LinesAfter(once, user, token);
    BodyOfOnce(text, once, user, token);
    LinesGrow(text, once, user, token);
  }

  lemma BodyOfOnce(text: string, once: string, user: string, token: string)
    requires IsBase64(token) && once == SetReader(text, user, token)
    ensures Split(Body(once), '\n') == Keep(SplitLines(once))
  {
    KeptOfOnce(text, once, user, token);
    LastOfKept(Split(Body(text), '\n'), Keep(Comments(user)), QUOTES_COMMENT);
    LinesAreLines(once);
    KeepOnOneLine(SplitLines(once));
    BodyIsJoin(Keep(SplitLines(once)));
  }

  lemma KeepsFirst(lines: seq<string>)
    requires lines != [] && Keeps(lines[0])
    ensures |Keep(lines)| >= 1
  {
    KeepConcat([lines[0]], lines[1..]);
    KeepOne(lines[0]);
    assert [lines[0]] + lines[1..] == lines;
  }

  lemma LinesGrow(text: string, once: string, user: string, token: string)
    requires IsBase64(token) && once == SetReader(text, user, token)
    ensures |Keep(SplitLines(once))| + |Added(user, token)| >= |SplitLines(once)| + 3
  {
    KeptOfOnce(text, once, user, token);
    LinesAfter(text, user, token);
    FirstComment(user);
    CommentLine(Comments(user)[0]);
    KeepsFirst(Comments(user));
  }

  // ---- exactly one header ----------------------------------------------------------------------------------------

  /** A live line that is kept although one of its tokens is the header: the flag is spelt
      only through quoting. */
  predicate Hides(raw: string) { Keeps(raw) && LineTokens(raw) != [] && HasHeader(LineTokens(raw)[0]) }

  predicate NoneHides(lines: seq<string>) {
    lines == [] || (NoneHides(lines[..|lines| - 1]) && !Hides(lines[|lines| - 1]))
  }

  ghost predicate NoHeader(rc: seq<seq<string>>) { forall k :: 0 <= k < |rc| ==> !HasHeader(rc[k]) }

  lemma {:induction false} HiddenAre(lines: seq<string>)
    ensures NoHeader(RcOf(Keep(lines))) <==> NoneHides(lines)
  {
    if lines != [] {
      var init, raw := lines[..|lines| - 1], lines[|lines| - 1];
      HiddenAre(init);
      NoHeaderSnoc(Keep(init), raw);
    }
  }

  lemma NoHeaderSnoc(kept: seq<string>, raw: string)
    ensures NoHeader(RcOf(AddKept(kept, raw))) <==> NoHeader(RcOf(kept)) && !Hides(raw)
  {
    if Keeps(raw) {
      RcConcat(kept, [raw]);
      KeepOne(raw);
      NoHeaderConcat(RcOf(kept), LineTokens(raw));
    }
  }

  lemma NoHeaderConcat(a: seq<seq<string>>, b: seq<seq<string>>)
    ensures NoHeader(a + b) <==> NoHeader(a) && NoHeader(b)
  {
    assert forall k :: 0 <= k < |a| ==> (a + b)[k] == a[k];
    assert forall k :: 0 <= k < |b| ==> (a + b)[|a| + k] == b[k];
  }

  lemma {:induction false} NoGoodNoSplit(rc: seq<seq<string>>)
    ensures Good(rc) == [] && !AnySplit(rc) <==> NoHeader(rc)
  {
    if rc != [] {
      var init, tokens := rc[..|rc| - 1], rc[|rc| - 1];
      NoGoodNoSplit(init);
      assert rc == init + [tokens];
      SplitSnoc(init, tokens);
      NoHeaderConcat(init, [tokens]);
    }
  }

  lemma SplitSnoc(rc: seq<seq<string>>, tokens: seq<string>)
    ensures AnySplit(rc + [tokens]) <==> AnySplit(rc) || SplitsHeader(tokens)
  {
    assert forall k :: 0 <= k < |rc| ==> (rc + [tokens])[k] == rc[k];
    assert (rc + [tokens])[|rc|] == tokens;
  }

  /** The file has exactly the one header, whole, and none that is split. */
  ghost predicate OneHeader(rc: seq<seq<string>>, token: string) {
    Good(rc) == [[CredentialToken(token)]] && Broken(rc) == []
  }

  lemma OneHeaderLast(rc: seq<seq<string>>, token: string)
    ensures OneHeader(rc + [[CredentialToken(token)]], token) <==> NoHeader(rc)
  {
    var last := [CredentialToken(token)];
    CredentialPair(token);
    SplitSnoc(rc, last);
    NoneBroken(rc + [last]);
    assert (rc + [last])[..|rc|] == rc;
    assert Good(rc + [last]) == Good(rc) + [last];
    NoGoodNoSplit(rc);
  }

  /** After the rewriting, tokenizing gives exactly one header, whole, with the intended pair,
      and no split one, exactly when no line spelt the flag only through quoting and the user
      name smuggles none in. */
  lemma OneHeaderIff(text: string, user: string, token: string)
    requires IsBase64(token)
    ensures OneHeader(RcOf(SplitLines(SetReader(text, user, token))), token)
       <==> NoneHides(SplitLines(text)) && NoHeader(Strays(user))
    ensures OneLine(user) ==> Strays(user) == []
  {
    var kept := RcOf(Keep(SplitLines(text)));
    TokensAfter(text, user, token);
    assert kept + (Strays(user) + [[CredentialToken(token)]]) == (kept + Strays(user)) + [[CredentialToken(token)]];
    OneHeaderLast(kept + Strays(user), token);
    NoHeaderConcat(kept, Strays(user));
    HiddenAre(SplitLines(text));
    if OneLine(user) { OneLineUser(user); }
  }

  lemma HeaderMentions(raw: string, token: string)
    requires IsHeader(token) && Occurs(raw, token)
    ensures Occurs(raw, FLAG)
  {
    var i :| OccursAt(raw, token, i);
    assert token[..15] == FLAG;
    assert raw[i..i + 15] == raw[i..i + |token|][..15];
    assert OccursAt(raw, FLAG, i);
  }

  /** A line without quotation marks or backslashes, or one the tokenizer rejects, hides nothing. */
  lemma PlainLinesHideNothing(raw: string)
    requires Unquoted(Strip(raw)) || Tokens(Idle, Strip(raw)).None?
    ensures !Hides(raw)
  {
    var s := Strip(raw);
    if Unquoted(s) { UnquotedTokens("", s); }
    WordsOccur("", s);
    assert "" + s == s;
    assert AllOccur(AllTokens(s), s);
    if Live(raw) && Keeps(raw) {
      FindIffOccurs(raw, FLAG);
      forall k | 0 <= k < |AllTokens(s)| ensures !IsHeader(AllTokens(s)[k]) {
        if IsHeader(AllTokens(s)[k]) {
          OccursStripped(raw, AllTokens(s)[k]);
          HeaderMentions(raw, AllTokens(s)[k]);
        }
      }
    }
  }

  /** A line that spells the flag only through quoting is kept, and is read as a header. */
  lemma QuotedFlagIsHidden()
    ensures Hides("build --remote" + (['"'] + ("_header=a=b" + ['"'])))
  {
    var word, quoted := "--remote", "_header=a=b";
    var rest := word + (['"'] + (quoted + ['"']));
    var raw := "build --remote" + (['"'] + (quoted + ['"']));
    assert raw == "build" + ([' '] + rest);
    ScanWordThenQuoted(word, quoted);
    ScanCommand("build", rest);
    NotMentioned(raw);
    QuotedTokens(raw, word + quoted);
  }

  lemma QuotedTokens(raw: string, token: string)
    requires raw != "" && raw[0] == 'b' && raw[|raw| - 1] == '"' && Find(raw, FLAG).None?
    requires Tokens(Idle, raw) == Some(["build"] + [token]) && IsHeader(token)
    ensures Hides(raw)
  {
    StripNothing(raw);
    var tokens := ["build"] + [token];
    assert tokens[1..] == [token];
    assert IsHeader([token][0]);
  }

  lemma NotMentioned(raw: string)
    requires raw == "build --remote" + (['"'] + ("_header=a=b" + ['"']))
    ensures Find(raw, FLAG).None?
  {
    forall i ensures !OccursAt(raw, FLAG, i) {
      if 0 <= i && i + |FLAG| <= |raw| {
        assert raw[i..i + |FLAG|][0] == raw[i] && raw[i..i + |FLAG|][8] == raw[i + 8];
        assert raw[i] == '-' ==> i == 6 || i == 7;
        assert raw[14] == '"' && raw[15] == '_';
        assert raw[i..i + |FLAG|][1] == raw[i + 1];
      }
    }
  }

  // ---- the value in force -------------------------------------------------------------------------------------

  /** The credential is the value in force, even where a hidden spelling of the flag survives. */
  lemma CredentialIsLast(text: string, user: string, token: string)
    requires IsBase64(token)
    ensures LastValue(AllIn(RcOf(SplitLines(SetReader(text, user, token)))), FLAG) == Some(BASIC + token)
  {
    var kept := RcOf(Keep(SplitLines(text)));
    TokensAfter(text, user, token);
    assert kept + (Strays(user) + [[CredentialToken(token)]]) == (kept + Strays(user)) + [[CredentialToken(token)]];
    CredentialValue(token);
    LastOfAll(kept + Strays(user), CredentialToken(token), FLAG, BASIC + token);
  }

  lemma CredentialValue(token: string)
    ensures ValueOf(CredentialToken(token), FLAG) == Some(BASIC + token)
  {
    assert CredentialToken(token) == FLAG + (['='] + (BASIC + token));
    PartitionAt(FLAG, BASIC + token);
  }

  lemma LastOfAll(kept: seq<seq<string>>, last: string, name: string, value: string)
    requires ValueOf(last, name) == Some(value)
    ensures LastValue(AllIn(kept + [[last]]), name) == Some(value)
  {
    assert (kept + [[last]])[..|kept|] == kept;
    LastValueSnoc(AllIn(kept), last, name);
  }
}
