/** The repo-relative path algebra of the tag guard: `_normal`, `_join` and `_parent`
    over `posixpath.normpath` and `posixpath.join`, on strings. */
module Paths {
  import opened Text

  /** A path after parsing: how many leading slashes survive (POSIX keeps exactly two
      as two), and its segments. */
  datatype Canon = Canon(slashes: nat, segs: seq<string>)

  predicate Plain(seg: string) {
    seg != "" && seg != "." && seg != ".." && '/' !in seg
  }

  /** One component of `normpath`'s loop over `path.split("/")`. */
  function Push(absolute: bool, stack: seq<string>, comp: string): seq<string> {
    if comp == "" || comp == "." then stack
    else if comp != ".." || (!absolute && stack == []) || (stack != [] && stack[|stack| - 1] == "..") then
      stack + [comp]
    else if stack != [] then stack[..|stack| - 1]
    else stack
  }

  function PushAll(absolute: bool, stack: seq<string>, comps: seq<string>): seq<string>
    decreases |comps|
  {
    if comps == [] then stack else PushAll(absolute, Push(absolute, stack, comps[0]), comps[1..])
  }

  function LeadingSlashes(path: string): nat {
    if |path| == 0 || path[0] != '/' then 0
    else if |path| >= 2 && path[1] == '/' && (|path| == 2 || path[2] != '/') then 2
    else 1
  }

  function Parse(path: string): Canon {
    var n := LeadingSlashes(path);
    Canon(n, PushAll(n > 0, [], Split(path, '/')))
  }

  function Show(c: Canon): string {
    Slashes(c.slashes) + Join(c.segs, '/')
  }

  function Slashes(n: nat): string {
    if n == 0 then "" else "/" + Slashes(n - 1)
  }

  /** `posixpath.normpath`. */
  function NormPath(path: string): string {
    if path == "" then "."
    else if Show(Parse(path)) == "" then "." else Show(Parse(path))
  }

  /** `_normal`: the root is `""`. */
  function Normal(path: string): string {
    if path == "" then ""
    else if NormPath(path) == "." then "" else NormPath(path)
  }

  /** `posixpath.join` of two arguments. */
  function PosixJoin(a: string, b: string): string {
    if "/" <= b then b
    else if a == "" || EndsWith(a, "/") then a + b
    else a + "/" + b
  }

  /** `_join`. */
  function JoinPath(base: string, segment: string): string {
    Normal(if base != "" then PosixJoin(base, segment) else segment)
  }

  /** `_parent`. */
  function Parent(path: string): string {
    if path != "" then Normal(path + "/..") else ".."
  }

  /** `x.parents[n]`: `_parent` applied `n + 1` times. */
  function Ancestor(path: string, steps: nat): string
    decreases steps
  {
    if steps == 0 then path else Ancestor(Parent(path), steps - 1)
  }

  /** Some `..` segments followed by plain ones; no `..` below an absolute root. */
  ghost predicate Proper(c: Canon) {
    && c.slashes <= 2
    && exists ups: nat :: UpsThenPlain(c.segs, ups) && (c.slashes > 0 ==> ups == 0)
  }

  predicate UpsThenPlain(segs: seq<string>, ups: nat) {
    && ups <= |segs|
    && (forall k :: 0 <= k < ups ==> segs[k] == "..")
    && (forall k :: ups <= k < |segs| ==> Plain(segs[k]))
  }

  /** The shape every result of `_normal` has. */
  ghost predicate IsNormal(path: string) {
    exists c :: Proper(c) && path == Show(c)
  }

  // ---- the fold keeps the shape ------------------------------------------------

  lemma PushProper(absolute: bool, stack: seq<string>, comp: string, ups: nat) returns (ups': nat)
    requires UpsThenPlain(stack, ups) && (absolute ==> ups == 0) && '/' !in comp
    ensures UpsThenPlain(Push(absolute, stack, comp), ups') && (absolute ==> ups' == 0)
  {
    if comp == ".." && ups == |stack| && (stack != [] || !absolute) {
      ups' := ups + 1;
    } else {
      ups' := ups;
    }
  }

  lemma {:induction false} PushAllProper(absolute: bool, stack: seq<string>, comps: seq<string>, ups: nat)
      returns (ups': nat)
    requires UpsThenPlain(stack, ups) && (absolute ==> ups == 0)
    requires forall k :: 0 <= k < |comps| ==> '/' !in comps[k]
    ensures UpsThenPlain(PushAll(absolute, stack, comps), ups') && (absolute ==> ups' == 0)
    decreases |comps|
  {
    if comps == [] {
      ups' := ups;
    } else {
      var mid := PushProper(absolute, stack, comps[0], ups);
      ups' := PushAllProper(absolute, Push(absolute, stack, comps[0]), comps[1..], mid);
    }
  }

  lemma ParseProper(path: string)
    ensures Proper(Parse(path))
  {
    SplitFree(path, '/');
    var _ := PushAllProper(LeadingSlashes(path) > 0, [], Split(path, '/'), 0);
  }

  lemma {:induction false} PushAllConcat(absolute: bool, stack: seq<string>, a: seq<string>, b: seq<string>)
    ensures PushAll(absolute, stack, a + b) == PushAll(absolute, PushAll(absolute, stack, a), b)
    decreases |a|
  {
    if a == [] {
      assert a + b == b;
    } else {
      assert (a + b)[1..] == a[1..] + b;
      PushAllConcat(absolute, Push(absolute, stack, a[0]), a[1..], b);
    }
  }

  /** Segments already in shape are pushed one by one and none is dropped. */
  lemma {:induction false} PushAllKeeps(absolute: bool, segs: seq<string>, ups: nat, done: nat)
    requires UpsThenPlain(segs, ups) && (absolute ==> ups == 0) && done <= |segs|
    ensures PushAll(absolute, segs[..done], segs[done..]) == segs
    decreases |segs| - done
  {
    if done < |segs| {
      assert segs[..done] + [segs[done]] == segs[..done + 1];
      assert segs[done..][1..] == segs[done + 1..];
      PushAllKeeps(absolute, segs, ups, done + 1);
    } else {
      assert segs[..done] == segs;
    }
  }

  // ---- parse and show ----------------------------------------------------------

  lemma ShowHead(segs: seq<string>, ups: nat)
    requires UpsThenPlain(segs, ups)
    ensures Join(segs, '/') == "" <==> segs == []
    ensures segs != [] ==> Join(segs, '/')[0] != '/'
    ensures Join(segs, '/') != "."
  {
    if |segs| > 1 {
      assert Join(segs, '/') == segs[0] + ['/'] + Join(segs[1..], '/');
    }
  }

  lemma {:induction false} PushSlashes(absolute: bool, n: nat, rest: string)
    ensures PushAll(absolute, [], Split(Slashes(n) + rest, '/')) == PushAll(absolute, [], Split(rest, '/'))
  {
    if n == 0 {
      assert Slashes(n) + rest == rest;
    } else {
      var less := Slashes(n - 1) + rest;
      assert Slashes(n) + rest == "" + ['/'] + less;
      SplitConcat("", less, '/');
      assert ([""] + Split(less, '/'))[1..] == Split(less, '/');
      PushSlashes(absolute, n - 1, rest);
    }
  }

  lemma ShowSlashes(c: Canon, ups: nat)
    requires Proper(c) && UpsThenPlain(c.segs, ups)
    ensures LeadingSlashes(Show(c)) == c.slashes && Show(c) == Slashes(c.slashes) + Join(c.segs, '/')
  {
    ShowHead(c.segs, ups);
    assert Slashes(0) == "" && Slashes(1) == "/" && Slashes(2) == "//";
  }

  lemma PushJoined(absolute: bool, segs: seq<string>, ups: nat)
    requires UpsThenPlain(segs, ups) && (absolute ==> ups == 0)
    ensures PushAll(absolute, [], Split(Join(segs, '/'), '/')) == segs
  {
    if segs != [] {
      SplitJoin(segs, '/');
      PushAllKeeps(absolute, segs, ups, 0);
      assert segs[..0] == [] && segs[0..] == segs;
    }
  }

  /** Parsing undoes showing on every proper path. */
  lemma ParseShow(c: Canon)
    requires Proper(c)
    ensures Parse(Show(c)) == c
  {
    var ups: nat :| UpsThenPlain(c.segs, ups) && (c.slashes > 0 ==> ups == 0);
    ShowSlashes(c, ups);
    PushSlashes(c.slashes > 0, c.slashes, Join(c.segs, '/'));
    PushJoined(c.slashes > 0, c.segs, ups);
  }

  /** `_normal` is parse-then-show, the `"."` detour included. */
  lemma NormalIsShowParse(path: string)
    ensures Normal(path) == Show(Parse(path))
  {
    ParseProper(path);
    var c := Parse(path);
    var ups: nat :| UpsThenPlain(c.segs, ups) && (c.slashes > 0 ==> ups == 0);
    ShowHead(c.segs, ups);
    if path == "" {
      assert Split(path, '/') == [""];
      assert Show(c) == "";
    }
    if c.slashes > 0 { assert Show(c)[0] == '/'; } else { assert Show(c) == Join(c.segs, '/'); }
  }

  lemma NormalShape(path: string)
    ensures IsNormal(Normal(path))
    ensures Parse(Normal(path)) == Parse(path)
  {
    ParseProper(path);
    NormalIsShowParse(path);
    ParseShow(Parse(path));
  }

  /** Normalising is idempotent, on every string. */
  lemma NormalIdempotent(path: string)
    ensures Normal(Normal(path)) == Normal(path)
  {
    NormalShape(path);
    NormalIsShowParse(path);
    NormalIsShowParse(Normal(path));
  }

  lemma IsNormalIffFixed(path: string)
    ensures IsNormal(path) <==> Normal(path) == path
  {
    NormalShape(path);
    if IsNormal(path) {
      var c :| Proper(c) && path == Show(c);
      ParseShow(c);
      NormalIsShowParse(path);
    }
  }

  // ---- joining -----------------------------------------------------------------

  /** What joining a relative path does to a parsed base. */
  function Extend(c: Canon, b: string): Canon {
    Canon(c.slashes, PushAll(c.slashes > 0, c.segs, Split(b, '/')))
  }

  lemma PushTrailingSlash(absolute: bool, stack: seq<string>, a: string)
    ensures PushAll(absolute, stack, Split(a + ['/'] + "", '/')) == PushAll(absolute, stack, Split(a, '/'))
  {
    SplitConcat(a, "", '/');
    PushAllConcat(absolute, stack, Split(a, '/'), [""]);
  }

  lemma PushPosixJoin(absolute: bool, stack: seq<string>, a: string, b: string)
    requires !("/" <= b)
    ensures PushAll(absolute, stack, Split(PosixJoin(a, b), '/'))
         == PushAll(absolute, PushAll(absolute, stack, Split(a, '/')), Split(b, '/'))
  {
    if a == "" {
      assert PosixJoin(a, b) == b && Split(a, '/') == [""];
    } else if EndsWith(a, "/") {
      var a' := a[..|a| - 1];
      assert a == a' + ['/'] + "" && PosixJoin(a, b) == a' + ['/'] + b;
      SplitConcat(a', b, '/');
      PushAllConcat(absolute, stack, Split(a', '/'), Split(b, '/'));
      PushTrailingSlash(absolute, stack, a');
    } else {
      assert PosixJoin(a, b) == a + ['/'] + b;
      SplitConcat(a, b, '/');
      PushAllConcat(absolute, stack, Split(a, '/'), Split(b, '/'));
    }
  }

  lemma ParsePosixJoin(a: string, b: string)
    requires !("/" <= b)
    ensures Parse(PosixJoin(a, b)) == Extend(Parse(a), b)
  {
    var j := PosixJoin(a, b);
    assert LeadingSlashes(j) == LeadingSlashes(a) by {
      if a == "" { assert j == b; } else { assert j[0] == a[0]; }
    }
    PushPosixJoin(LeadingSlashes(a) > 0, [], a, b);
  }

  /** Joining depends on its base only through the base's normal form. */
  lemma JoinNormalBase(a: string, b: string)
    ensures JoinPath(Normal(a), b) == JoinPath(a, b) == Normal(PosixJoin(a, b))
  {
    NormalShape(a);
    NormalIsShowParse(PosixJoin(Normal(a), b));
    NormalIsShowParse(PosixJoin(a, b));
    if !("/" <= b) {
      ParsePosixJoin(a, b);
      ParsePosixJoin(Normal(a), b);
      assert PosixJoin("", b) == b;
    }
  }

  /** Joining segment by segment equals joining the combined path, for all strings,
      absolute ones included. */
  lemma JoinAssociative(base: string, a: string, b: string)
    ensures JoinPath(JoinPath(base, a), b) == JoinPath(base, PosixJoin(a, b))
  {
    JoinNormalBase(base, a);
    JoinNormalBase(PosixJoin(base, a), b);
    JoinNormalBase(base, PosixJoin(a, b));
    if !("/" <= b) {
      if "/" <= a {
        assert "/" <= PosixJoin(a, b);
      } else {
        RelativeJoin(base, a, b);
      }
    }
  }

  lemma RelativeJoin(base: string, a: string, b: string)
    requires !("/" <= a) && !("/" <= b)
    ensures Normal(PosixJoin(PosixJoin(base, a), b)) == Normal(PosixJoin(base, PosixJoin(a, b)))
  {
    NormalIsShowParse(PosixJoin(PosixJoin(base, a), b));
    NormalIsShowParse(PosixJoin(base, PosixJoin(a, b)));
    assert !("/" <= PosixJoin(a, b));
    ParsePosixJoin(base, a);
    ParsePosixJoin(PosixJoin(base, a), b);
    ParsePosixJoin(base, PosixJoin(a, b));
    PushPosixJoin(Parse(base).slashes > 0, Parse(base).segs, a, b);
  }

  // ---- parents -----------------------------------------------------------------

  /** Taking the parent undoes joining a plain segment, above the root as well. */
  lemma ParentUndoesJoin(base: string, seg: string)
    requires Plain(seg)
    ensures Parent(JoinPath(base, seg)) == Normal(base)
  {
    var j := JoinPath(base, seg);
    ParseJoinPlain(base, seg);
    ExtendPlain(Parse(base), seg);
    ParentExtends(j);
    NormalIsShowParse(base);
  }

  lemma ParseJoinPlain(base: string, seg: string)
    requires Plain(seg)
    ensures var j := JoinPath(base, seg);
            j != "" && !EndsWith(j, "/") && Parse(j) == Extend(Parse(base), seg)
  {
    var j := JoinPath(base, seg);
    ExtendPlain(Parse(base), seg);
    JoinNormalBase(base, seg);
    NormalShape(PosixJoin(base, seg));
    NormalIsShowParse(PosixJoin(base, seg));
    ParsePosixJoin(base, seg);
    ShowTail(Extend(Parse(base), seg), seg);
  }

  lemma ParentExtends(path: string)
    requires path != "" && !EndsWith(path, "/")
    ensures Parent(path) == Show(Extend(Parse(path), ".."))
  {
    assert path + "/.." == PosixJoin(path, "..");
    ParsePosixJoin(path, "..");
    NormalIsShowParse(path + "/..");
  }

  lemma PushAllOne(absolute: bool, stack: seq<string>, comp: string)
    ensures PushAll(absolute, stack, [comp]) == Push(absolute, stack, comp)
  {
    var next := Push(absolute, stack, comp);
    assert PushAll(absolute, next, []) == next;
    assert [comp][1..] == [];
  }

  lemma ExtendPlain(c: Canon, seg: string)
    requires Plain(seg)
    ensures Extend(c, seg) == Canon(c.slashes, c.segs + [seg])
    ensures Extend(Extend(c, seg), "..") == c
    ensures !("/" <= seg)
  {
    SplitPlain(seg, '/');
    SplitPlain("..", '/');
    PushAllOne(c.slashes > 0, c.segs, seg);
    PushAllOne(c.slashes > 0, c.segs + [seg], "..");
    assert (c.segs + [seg])[..|c.segs|] == c.segs;
  }

  lemma {:induction false} JoinTail(segs: seq<string>, last: string)
    requires segs != [] && segs[|segs| - 1] == last && last != ""
    ensures EndsWith(Join(segs, '/'), last)
  {
    if |segs| > 1 { JoinTail(segs[1..], last); }
  }

  lemma ShowTail(c: Canon, last: string)
    requires c.segs != [] && c.segs[|c.segs| - 1] == last && Plain(last)
    ensures Show(c) != "" && !EndsWith(Show(c), "/")
  {
    JoinTail(c.segs, last);
    var s := Show(c);
    assert s[|s| - 1] == last[|last| - 1];
  }

  /** Joining segments one at a time. */
  function JoinEach(base: string, segs: seq<string>): string
    decreases |segs|
  {
    if segs == [] then base else JoinPath(JoinEach(base, segs[..|segs| - 1]), segs[|segs| - 1])
  }

  /** `parents[n - 1]` undoes `n` plain joins. */
  lemma {:induction false} AncestorUndoesJoins(base: string, segs: seq<string>)
    requires IsNormal(base) && forall k :: 0 <= k < |segs| ==> Plain(segs[k])
    ensures Ancestor(JoinEach(base, segs), |segs|) == base
    decreases |segs|
  {
    if segs != [] {
      ParentOfJoinEach(base, segs);
      AncestorUndoesJoins(base, segs[..|segs| - 1]);
    }
  }

  lemma ParentOfJoinEach(base: string, segs: seq<string>)
    requires IsNormal(base) && segs != [] && Plain(segs[|segs| - 1])
    ensures Parent(JoinEach(base, segs)) == JoinEach(base, segs[..|segs| - 1])
  {
    var below := JoinEach(base, segs[..|segs| - 1]);
    JoinEachNormal(base, segs[..|segs| - 1]);
    ParentUndoesJoin(below, segs[|segs| - 1]);
    IsNormalIffFixed(below);
  }

  lemma JoinEachNormal(base: string, segs: seq<string>)
    requires IsNormal(base)
    ensures IsNormal(JoinEach(base, segs))
  {
    if segs != [] { JoinAndParentNormal(JoinEach(base, segs[..|segs| - 1]), segs[|segs| - 1]); }
  }

  /** Every result of `_join` and `_parent` is in normal shape. */
  lemma JoinAndParentNormal(base: string, segment: string)
    ensures IsNormal(JoinPath(base, segment)) && IsNormal(Parent(base))
  {
    NormalShape(if base != "" then PosixJoin(base, segment) else segment);
    NormalShape(base + "/..");
    var up := Canon(0, [".."]);
    assert UpsThenPlain(up.segs, 1);
    assert Proper(up) && Show(up) == "..";
  }
}
