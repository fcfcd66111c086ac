/** The header flag among a file's tokens: whole and split headers, the pair one carries, and the
    last value of any flag. */
module RcHeaders {
  import opened Text
  import opened RcTokens

  const FLAG := "--remote_header"
  const HEADER := "--remote_header="

  // ---- headers among tokens ------------------------------------------------------------------------------

  predicate IsHeader(token: string) { HEADER <= token }

  /** A header token whose value the tokenizer left whole. */
  predicate EndsInHeader(tokens: seq<string>) { tokens != [] && IsHeader(tokens[|tokens| - 1]) }

  /** A header token with more tokens after it. */
  predicate SplitsHeader(tokens: seq<string>) { exists k :: 0 <= k < |tokens| - 1 && IsHeader(tokens[k]) }

  predicate HasHeader(tokens: seq<string>) { exists k :: 0 <= k < |tokens| && IsHeader(tokens[k]) }

  function Good(rc: seq<seq<string>>): seq<seq<string>> {
    if rc == [] then [] else AddGood(Good(rc[..|rc| - 1]), rc[|rc| - 1])
  }

  function AddGood(good: seq<seq<string>>, tokens: seq<string>): seq<seq<string>> {
    if EndsInHeader(tokens) then good + [tokens] else good
  }

  /** How many header tokens stand before the last token. */
  function SplitTimes(tokens: seq<string>): nat { if tokens == [] then 0 else HeadersUpTo(tokens, |tokens| - 1) }

  function HeadersUpTo(tokens: seq<string>, n: nat): nat
    requires n <= |tokens|
  {
    if n == 0 then 0 else HeadersUpTo(tokens, n - 1) + if IsHeader(tokens[n - 1]) then 1 else 0
  }

  function Times<T>(x: T, n: nat): seq<T> { seq(n, _ => x) }

  /** Each line once for every header token it splits, in order. */
  function Broken(rc: seq<seq<string>>): seq<seq<string>> {
    if rc == [] then [] else Broken(rc[..|rc| - 1]) + Times(rc[|rc| - 1], SplitTimes(rc[|rc| - 1]))
  }

  predicate AnySplit(rc: seq<seq<string>>) { exists k :: 0 <= k < |rc| && SplitsHeader(rc[k]) }

  lemma {:induction false} SomeHeaderUpTo(tokens: seq<string>, n: nat)
    requires n <= |tokens|
    ensures HeadersUpTo(tokens, n) > 0 <==> exists k :: 0 <= k < n && IsHeader(tokens[k])
  {
    if n > 0 { SomeHeaderUpTo(tokens, n - 1); }
  }

  lemma SplitsIff(tokens: seq<string>)
    ensures SplitTimes(tokens) > 0 <==> SplitsHeader(tokens)
  {
    if tokens != [] { SomeHeaderUpTo(tokens, |tokens| - 1); }
  }

  /** A line is reported broken exactly when one of its header tokens is split. */
  lemma {:induction false} BrokenAre(rc: seq<seq<string>>, tokens: seq<string>)
    ensures tokens in Broken(rc) <==> tokens in rc && SplitsHeader(tokens)
  {
    if rc != [] {
      var init, last := rc[..|rc| - 1], rc[|rc| - 1];
      BrokenAre(init, tokens);
      SplitsIff(last);
      assert rc == init + [last];
      assert tokens in Times(last, SplitTimes(last)) <==> tokens == last && SplitTimes(last) > 0 by {
        if SplitTimes(last) > 0 { assert Times(last, SplitTimes(last))[0] == last; }
      }
    }
  }

  lemma NoneBroken(rc: seq<seq<string>>)
    ensures Broken(rc) == [] <==> !AnySplit(rc)
  {
    if Broken(rc) != [] { BrokenAre(rc, Broken(rc)[0]); }
    if k :| 0 <= k < |rc| && SplitsHeader(rc[k]) { BrokenAre(rc, rc[k]); }
  }

  /** `split_header_lines`: the lines ending in a whole header, and each line once for every
      header token it splits, both in order. */
  method SplitHeaderLines(lines: seq<RcLine>) returns (good: seq<RcLine>, broken: seq<RcLine>)
    ensures TokenLists(good) == Good(TokenLists(lines)) && TokenLists(broken) == Broken(TokenLists(lines))
    ensures forall line :: line in good + broken ==> line in lines
  {
    good, broken := [], [];
    for i := 0 to |lines|
      invariant TokenLists(good) == Good(TokenLists(lines[..i])) && TokenLists(broken) == Broken(TokenLists(lines[..i]))
      invariant forall line :: line in good + broken ==> line in lines
    {
      var more, split := HeadersOf(lines[i]);
      GoodStep(lines, i, good);
      BrokenStep(lines, i, broken);
      good, broken := good + more, broken + split;
    }
    assert lines[..|lines|] == lines;
  }

  lemma ListsConcat(a: seq<RcLine>, b: seq<RcLine>)
    ensures TokenLists(a + b) == TokenLists(a) + TokenLists(b)
  {
  }

  lemma ListsPrefix(lines: seq<RcLine>, i: nat)
    requires i < |lines|
    ensures TokenLists(lines[..i + 1])[..i] == TokenLists(lines[..i])
    ensures TokenLists(lines[..i + 1])[i] == lines[i].tokens
  {
  }

  lemma GoodStep(lines: seq<RcLine>, i: nat, good: seq<RcLine>)
    requires i < |lines| && TokenLists(good) == Good(TokenLists(lines[..i]))
    ensures TokenLists(good + if EndsInHeader(lines[i].tokens) then [lines[i]] else [])
         == Good(TokenLists(lines[..i + 1]))
  {
    ListsPrefix(lines, i);
    ListsConcat(good, [lines[i]]);
    assert good + [] == good;
  }

  lemma BrokenStep(lines: seq<RcLine>, i: nat, broken: seq<RcLine>)
    requires i < |lines| && TokenLists(broken) == Broken(TokenLists(lines[..i]))
    ensures TokenLists(broken + Times(lines[i], SplitTimes(lines[i].tokens))) == Broken(TokenLists(lines[..i + 1]))
  {
    ListsPrefix(lines, i);
    ListsConcat(broken, Times(lines[i], SplitTimes(lines[i].tokens)));
    assert TokenLists(Times(lines[i], SplitTimes(lines[i].tokens)))
        == Times(lines[i].tokens, SplitTimes(lines[i].tokens));
  }

  /** How many of the first `index` of `n` tokens are not the last. */
  function ButLast(index: nat, n: nat): nat { if index < n then index else if n == 0 then 0 else n - 1 }

  /** The inner loop over one line's tokens. */
  method HeadersOf(line: RcLine) returns (good: seq<RcLine>, split: seq<RcLine>)
    ensures good == if EndsInHeader(line.tokens) then [line] else []
    ensures split == Times(line, SplitTimes(line.tokens))
  {
    good, split := [], [];
    for index := 0 to |line.tokens|
      invariant good == if index == |line.tokens| && EndsInHeader(line.tokens) then [line] else []
      invariant split == Times(line, HeadersUpTo(line.tokens, ButLast(index, |line.tokens|)))
    {
      if !IsHeader(line.tokens[index]) { continue; }
      if index + 1 < |line.tokens| { split := split + [line]; } else { good := good + [line]; }
    }
  }

  function Partition(s: string): (string, string) {
    if s == "" then ("", "")
    else if s[0] == '=' then ("", s[1..])
    else var rest := Partition(s[1..]); ([s[0]] + rest.0, rest.1)
  }

  lemma {:induction false} PartitionAt(a: string, b: string)
    requires '=' !in a
    ensures Partition(a + (['='] + b)) == (a, b)
  {
    var s := a + (['='] + b);
    if a == "" {
      assert s == ['='] + b && s[1..] == b;
    } else {
      assert s[1..] == a[1..] + (['='] + b);
      PartitionAt(a[1..], b);
      assert [a[0]] + a[1..] == a;
    }
  }

  /** `header_pair` */
  function HeaderPair(tokens: seq<string>): Option<(string, string)> {
    if tokens == [] then None
    else
      var pair := Partition(Partition(tokens[0]).1);
      if IsHeader(tokens[0]) && pair.0 != "" && pair.1 != "" then Some(pair) else HeaderPair(tokens[1..])
  }

  // ---- the last value of a flag ------------------------------------------------------------------------------------

  function ValueOf(token: string, name: string): Option<string> {
    if token == name then Some("") else if name + "=" <= token then Some(Partition(token).1) else None
  }

  function AllIn(rc: seq<seq<string>>): seq<string> { if rc == [] then [] else AllIn(rc[..|rc| - 1]) + rc[|rc| - 1] }

  /** The value the last token with this name gives. */
  function LastValue(tokens: seq<string>, name: string): Option<string> {
    if tokens == [] then None
    else if ValueOf(tokens[|tokens| - 1], name).Some? then ValueOf(tokens[|tokens| - 1], name)
    else LastValue(tokens[..|tokens| - 1], name)
  }

  lemma LastValueSnoc(tokens: seq<string>, token: string, name: string)
    ensures LastValue(tokens + [token], name)
         == if ValueOf(token, name).Some? then ValueOf(token, name) else LastValue(tokens, name)
  {
    assert (tokens + [token])[..|tokens|] == tokens;
  }

  lemma AllInSnoc(lines: seq<RcLine>, i: nat)
    requires i < |lines|
    ensures AllIn(TokenLists(lines[..i + 1])) == AllIn(TokenLists(lines[..i])) + lines[i].tokens
  {
    assert TokenLists(lines[..i + 1])[..i] == TokenLists(lines[..i]);
  }

  lemma NextToken(before: seq<string>, tokens: seq<string>, j: nat)
    requires j < |tokens|
    ensures before + tokens[..j + 1] == before + tokens[..j] + [tokens[j]]
  {
  }

  /** `rc_flag`'s inner loop: the tokens of one line, after those before it. */
  method FlagIn(ghost before: seq<string>, tokens: seq<string>, name: string, value: Option<string>)
    returns (last: Option<string>)
    requires value == LastValue(before, name)
    ensures last == LastValue(before + tokens, name)
  {
    last := value;
    assert before + tokens[..0] == before;
    for j := 0 to |tokens|
      invariant last == LastValue(before + tokens[..j], name)
    {
      NextToken(before, tokens, j);
      LastValueSnoc(before + tokens[..j], tokens[j], name);
      if tokens[j] == name {
        last := Some("");
      } else if name + "=" <= tokens[j] {
        last := Some(Partition(tokens[j]).1);
      }
    }
    assert tokens[..|tokens|] == tokens;
  }

  /** `rc_flag` */
  method RcFlag(lines: seq<RcLine>, name: string) returns (value: Option<string>)
    ensures value == LastValue(AllIn(TokenLists(lines)), name)
  {
    value := None;
    for i := 0 to |lines|
      invariant value == LastValue(AllIn(TokenLists(lines[..i])), name)
    {
      value := FlagIn(AllIn(TokenLists(lines[..i])), lines[i].tokens, name, value);
      AllInSnoc(lines, i);
    }
    assert lines[..|lines|] == lines;
  }

  // ---- the same, in words -----------------------------------------------------------------------------------------

  lemma {:induction false} PartitionNone(s: string)
    requires '=' !in s
    ensures Partition(s) == (s, "")
  {
    if s != "" {
      PartitionNone(s[1..]);
      assert [s[0]] + s[1..] == s;
    }
  }

  lemma {:induction false} PartitionIs(s: string)
    ensures '=' !in Partition(s).0
    ensures '=' in s ==> s == Partition(s).0 + "=" + Partition(s).1
  {
    if s != "" && s[0] != '=' {
      PartitionIs(s[1..]);
      assert s == [s[0]] + s[1..];
    } else if s != "" {
      assert s == "" + "=" + s[1..];
    }
  }

  /** The token gives the header `name` the value `value`. */
  predicate GivesHeader(token: string, name: string, value: string) {
    name != "" && value != "" && '=' !in name && token == "--remote_header=" + name + "=" + value
  }

  function PairIn(token: string): Option<(string, string)> {
    var pair := Partition(Partition(token).1);
    if IsHeader(token) && pair.0 != "" && pair.1 != "" then Some(pair) else None
  }

  lemma PairInIs(token: string, name: string, value: string)
    ensures PairIn(token) == Some((name, value)) <==> GivesHeader(token, name, value)
  {
    if GivesHeader(token, name, value) {
      assert token == FLAG + (['='] + (name + (['='] + value)));
      PartitionAt(FLAG, name + (['='] + value));
      PartitionAt(name, value);
      assert HEADER <= token;
    }
    if PairIn(token) == Some((name, value)) {
      var rest := token[16..];
      assert token == FLAG + (['='] + rest);
      PartitionAt(FLAG, rest);
      PartitionIs(rest);
      if '=' !in rest { PartitionNone(rest); }
      assert token == "--remote_header=" + rest;
    }
  }

  /** The pair a line carries is that of the first token that gives a header one. */
  lemma {:induction false} HeaderPairIs(tokens: seq<string>)
    ensures HeaderPair(tokens).None? <==> forall k :: 0 <= k < |tokens| ==> PairIn(tokens[k]).None?
    ensures HeaderPair(tokens).Some? ==>
              exists k :: && 0 <= k < |tokens| && PairIn(tokens[k]) == HeaderPair(tokens)
                          && forall j :: 0 <= j < k ==> PairIn(tokens[j]).None?
  {
    if tokens != [] && PairIn(tokens[0]).None? {
      var rest := tokens[1..];
      HeaderPairIs(rest);
      assert forall k :: 1 <= k < |tokens| ==> tokens[k] == rest[k - 1];
      if HeaderPair(rest).Some? {
        var k :| && 0 <= k < |rest| && PairIn(rest[k]) == HeaderPair(rest)
                 && forall j :: 0 <= j < k ==> PairIn(rest[j]).None?;
        assert PairIn(tokens[k + 1]) == HeaderPair(tokens);
      }
    }
  }

  lemma IsHeaderIs(token: string)
    ensures IsHeader(token) <==> exists value :: token == "--remote_header=" + value
  {
    if IsHeader(token) { assert token == "--remote_header=" + token[16..]; }
  }

  /** The token gives the flag the value: none after the bare flag, else what follows the sign. */
  predicate Gives(token: string, name: string, value: string) {
    (token == name && value == "") || token == name + "=" + value
  }

  lemma ValueIs(token: string, name: string, value: string)
    requires '=' !in name
    ensures ValueOf(token, name) == Some(value) <==> Gives(token, name, value)
  {
    if token == name + "=" + value {
      assert token == name + (['='] + value);
      PartitionAt(name, value);
    }
    if name + "=" <= token {
      var rest := token[|name| + 1..];
      assert token == name + (['='] + rest);
      PartitionAt(name, rest);
    }
  }

  /** The value in force is the one the last token with the flag gives. */
  lemma {:induction false} LastValueIs(tokens: seq<string>, name: string, value: string)
    requires '=' !in name
    ensures LastValue(tokens, name) == Some(value) <==>
              exists k :: 0 <= k < |tokens| && Gives(tokens[k], name, value) && LastGiving(tokens, name, k)
  {
    if tokens != [] {
      var init, n := tokens[..|tokens| - 1], |tokens| - 1;
      LastValueIs(init, name, value);
      ValueIs(tokens[n], name, value);
      var got := ValueOf(tokens[n], name);
      if got.Some? { ValueIs(tokens[n], name, got.value); }
      forall v ensures got == Some(v) <==> Gives(tokens[n], name, v) { ValueIs(tokens[n], name, v); }
      assert forall k :: 0 <= k < n ==> tokens[k] == init[k];
      assert forall k :: 0 <= k < n ==> (LastGiving(tokens, name, k) <==> LastGiving(init, name, k) && got.None?);
    }
  }

  ghost predicate LastGiving(tokens: seq<string>, name: string, k: int) {
    forall j, v :: k < j < |tokens| && 0 <= j ==> !Gives(tokens[j], name, v)
  }

  /** The well-formed lines are those whose last token is a header. */
  lemma {:induction false} GoodAre(rc: seq<seq<string>>, tokens: seq<string>)
    ensures tokens in Good(rc) <==>
              tokens in rc && tokens != [] && exists value :: tokens[|tokens| - 1] == "--remote_header=" + value
  {
    if tokens != [] { IsHeaderIs(tokens[|tokens| - 1]); }
    if rc != [] {
      GoodAre(rc[..|rc| - 1], tokens);
      assert rc == rc[..|rc| - 1] + [rc[|rc| - 1]];
    }
  }
}
