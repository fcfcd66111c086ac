/** The shard selector: which modules a shard runs. */
module Shards {
  import opened Text

  // ---- the request -------------------------------------------------------------------------------------

  datatype BadShard = NotTogether | NotIntegers | NoShards | OutOfRange

  datatype Request = Everything | Slice(count: nat, index: nat) | Refused(why: BadShard)

  const ENV_COUNT := "TEST_TOTAL_SHARDS"
  const ENV_INDEX := "TEST_SHARD_INDEX"

  /** A variable's value; an empty one counts as unset. */
  function FromEnv(env: map<string, string>, name: string): Option<string> {
    if name in env && env[name] != "" then Some(env[name]) else None
  }

  /** The pair that is asked for: the flags when either is given, never completed from the
      environment, else the environment's. */
  function Asked(count: Option<string>, index: Option<string>, env: map<string, string>)
    : (Option<string>, Option<string>)
  {
    if count.None? && index.None? then (FromEnv(env, ENV_COUNT), FromEnv(env, ENV_INDEX)) else (count, index)
  }

  /** Both values parse and the index is in range. */
  predicate InRange(count: string, index: string, parse: string -> Option<int>) {
    parse(count).Some? && parse(index).Some? && 0 <= parse(index).value < parse(count).value
  }

  /** `resolve`, with `parse` for Python's `int`: which slice is accepted, and which refusal is
      given when. */
  function Resolve(count: Option<string>, index: Option<string>, env: map<string, string>,
                   parse: string -> Option<int>): (r: Request)
    ensures var (n, i) := Asked(count, index, env);
            && (r.Everything? <==> n.None? && i.None?)
            && (r == Refused(NotTogether) <==> n.Some? != i.Some?)
            && (r.Slice? <==> n.Some? && i.Some? && InRange(n.value, i.value, parse))
            && (r.Slice? ==> Some(r.count) == parse(n.value) && Some(r.index) == parse(i.value) && r.index < r.count)
            && (r == Refused(NotIntegers) <==> n.Some? && i.Some? && (parse(n.value).None? || parse(i.value).None?))
            && (r == Refused(NoShards) <==> n.Some? && i.Some? && parse(i.value).Some? && parse(n.value).Some?
                                            && parse(n.value).value < 1)
            && (r == Refused(OutOfRange) <==> n.Some? && i.Some? && parse(i.value).Some? && parse(n.value).Some?
                                              && parse(n.value).value >= 1 && !InRange(n.value, i.value, parse))
  {
    var (n, i) := Asked(count, index, env);
    if n.None? && i.None? then Everything
    else if n.None? || i.None? then Refused(NotTogether)
    else
      var shards, shard := parse(n.value), parse(i.value);
      if shards.None? || shard.None? then Refused(NotIntegers)
      else if shards.value < 1 then Refused(NoShards)
      else if !(0 <= shard.value < shards.value) then Refused(OutOfRange)
      else Slice(shards.value, shard.value)
  }

  /** The variable is set to a value that is not empty. */
  predicate SetTo(env: map<string, string>, name: string, value: string) {
    name in env && env[name] == value && value != ""
  }

  /** What is asked for: the flags, if there is one, as they are; else the two variables. */
  lemma AskedIs(count: Option<string>, index: Option<string>, env: map<string, string>, value: string)
    ensures count.Some? || index.Some? ==> Asked(count, index, env) == (count, index)
    ensures Asked(None, None, env).0 == Some(value) <==> SetTo(env, "TEST_TOTAL_SHARDS", value)
    ensures Asked(None, None, env).1 == Some(value) <==> SetTo(env, "TEST_SHARD_INDEX", value)
  {
  }

  /** A flag with an empty value taken as not given. */
  function Unset(flag: Option<string>): Option<string> { if flag == Some("") then None else flag }

  /** An empty flag is not unset: beside another flag it is refused as no integer, alone as
      not together, whatever the environment. */
  lemma EmptyFlagIsRefused(count: Option<string>, index: Option<string>, env: map<string, string>,
                           parse: string -> Option<int>)
    requires parse("").None? && (count == Some("") || index == Some(""))
    ensures Resolve(count, index, env, parse)
         == Refused(if count.Some? && index.Some? then NotIntegers else NotTogether)
  {
  }

  predicate HalfGiven(env: map<string, string>) { FromEnv(env, ENV_COUNT).Some? != FromEnv(env, ENV_INDEX).Some? }

  /** Both variables are given and one does not parse. */
  predicate NoIntegers(env: map<string, string>, parse: string -> Option<int>) {
    var n, i := FromEnv(env, ENV_COUNT), FromEnv(env, ENV_INDEX);
    n.Some? && i.Some? && (parse(n.value).None? || parse(i.value).None?)
  }

  /** Exactly when counting an empty flag as unset would give the same answer: there is none;
      or it is the only flag and the environment is itself half given; or both are empty and
      the environment's pair is no pair of integers. */
  lemma EmptyAsUnsetIff(count: Option<string>, index: Option<string>, env: map<string, string>,
                        parse: string -> Option<int>)
    requires parse("").None?
    ensures Resolve(count, index, env, parse) == Resolve(Unset(count), Unset(index), env, parse)
            <==> || (count != Some("") && index != Some(""))
                 || ((count.None? || index.None?) && HalfGiven(env))
                 || (count == Some("") && index == Some("") && NoIntegers(env, parse))
  {
    if count == Some("") || index == Some("") { EmptyFlagIsRefused(count, index, env, parse); }
  }

  // ---- the slice --------------------------------------------------------------------------------------------

  /** `stems[index::count]` */
  function Select<T>(stems: seq<T>, count: nat, index: nat): seq<T>
    requires count > 0
    decreases |stems| - index
  {
    if index >= |stems| then [] else [stems[index]] + Select(stems, count, index + count)
  }

  lemma ModOf(x: int, q: int, r: int, n: int)
    requires n > 0 && 0 <= r < n && x == q * n + r
    ensures x % n == r && x / n == q
  {
    var d := q - x / n;
    assert d * n == x % n - r;
  }

  lemma ModLess(x: int, n: int)
    requires n > 0
    ensures (x - n) % n == x % n && (x - n) / n == x / n - 1
  {
    assert x == (x / n) * n + x % n;
    assert x - n == (x / n - 1) * n + x % n;
    ModOf(x - n, x / n - 1, x % n, n);
  }

  /** Element `k` of a slice is element `index + k * count` of the list. */
  lemma {:induction false} SelectAt<T>(stems: seq<T>, count: nat, index: nat, k: nat)
    requires count > 0
    ensures k < |Select(stems, count, index)| <==> index + k * count < |stems|
    ensures index + k * count < |stems| ==> k < |Select(stems, count, index)|
                                            && Select(stems, count, index)[k] == stems[index + k * count]
    decreases k
  {
    if index < |stems| {
      if k > 0 {
        SelectAt(stems, count, index + count, k - 1);
        assert index + count + (k - 1) * count == index + k * count;
      }
    } else {
      assert k * count >= 0;
    }
  }

  /** Whether an element at `length` is in the slice from `index` on. */
  predicate InStep(length: nat, count: nat, index: nat)
    requires count > 0
  {
    index <= length && (length - index) % count == 0
  }

  lemma NextInStep(length: nat, count: nat, index: nat)
    requires count > 0 && index != length
    ensures InStep(length, count, index + count) <==> InStep(length, count, index)
  {
    if index < length {
      ModLess(length - index, count);
      if index + count > length { SmallMod(length - index, count); }
    }
  }

  /** A module appended to the list goes to exactly one slice, at its end. */
  lemma {:induction false} SelectSnoc<T>(stems: seq<T>, x: T, count: nat, index: nat)
    requires count > 0
    ensures Select(stems + [x], count, index)
         == Select(stems, count, index) + if InStep(|stems|, count, index) then [x] else []
    decreases |stems| + 1 - index
  {
    if index < |stems| {
      SelectSnoc(stems, x, count, index + count);
      NextInStep(|stems|, count, index);
    } else if index == |stems| {
      SelectSnoc(stems, x, count, index + count);
      assert 0 % count == 0;
    }
  }

  lemma SmallMod(x: int, n: int)
    requires 0 <= x < n
    ensures x % n == x
  {
    ModOf(x, 0, x, n);
  }

  /** The last module's shard is its position modulo the count. */
  lemma TurnOf(length: nat, count: nat, index: nat)
    requires index < count
    ensures InStep(length, count, index) <==> index == length % count
  {
    var q, r := length / count, length % count;
    assert length == q * count + r;
    if index <= length {
      if index <= r {
        assert length - index == q * count + (r - index);
        ModOf(length - index, q, r - index, count);
      } else {
        assert length - index == (q - 1) * count + (r - index + count);
        ModOf(length - index, q - 1, r - index + count, count);
      }
    } else {
      SmallMod(length, count);
    }
  }

  lemma ShardSnoc<T>(stems: seq<T>, x: T, count: nat, index: nat)
    requires index < count
    ensures Select(stems + [x], count, index) == Select(stems, count, index) + Own(x, |stems| % count, index)
  {
    SelectSnoc(stems, x, count, index);
    TurnOf(|stems|, count, index);
  }

  // ---- what the slices are together ---------------------------------------------------------------------------

  /** What each shard runs. */
  function Slices<T>(stems: seq<T>, count: nat): (slices: seq<seq<T>>)
    requires count > 0
    ensures |slices| == count
  {
    seq(count, i requires 0 <= i < count => Select(stems, count, i))
  }

  /** A module appended to the list is dealt to one shard, in turn. */
  lemma DealtInTurn<T>(stems: seq<T>, x: T, count: nat)
    requires count > 0
    ensures var turn := |stems| % count;
            Slices(stems + [x], count) == Slices(stems, count)[turn := Slices(stems, count)[turn] + [x]]
  {
    var turn := |stems| % count;
    var before, after := Slices(stems, count), Slices(stems + [x], count);
    forall i | 0 <= i < count ensures after[i] == before[turn := before[turn] + [x]][i] {
      ShardSnoc(stems, x, count, i);
    }
  }

  function Own<T>(x: T, turn: nat, index: nat): seq<T> { if index == turn then [x] else [] }

  /** Everything some lists hold together. */
  ghost function Union<T>(lists: seq<seq<T>>): multiset<T> {
    if lists == [] then multiset{} else Union(lists[..|lists| - 1]) + multiset(lists[|lists| - 1])
  }

  lemma {:induction false} UnionAdds<T>(lists: seq<seq<T>>, k: nat, x: T)
    requires k < |lists|
    ensures Union(lists[k := lists[k] + [x]]) == Union(lists) + multiset{x}
  {
    var init, last := lists[..|lists| - 1], lists[|lists| - 1];
    var longer := lists[k := lists[k] + [x]];
    if k == |lists| - 1 {
      assert longer[..|lists| - 1] == init && longer[|lists| - 1] == last + [x];
      assert multiset(last + [x]) == multiset(last) + multiset{x};
    } else {
      assert longer[..|lists| - 1] == init[k := init[k] + [x]] && longer[|lists| - 1] == last;
      UnionAdds(init, k, x);
    }
  }

  lemma {:induction false} UnionEmpty<T>(lists: seq<seq<T>>)
    requires forall k :: 0 <= k < |lists| ==> lists[k] == []
    ensures Union(lists) == multiset{}
  {
    if lists != [] { UnionEmpty(lists[..|lists| - 1]); }
  }

  /** Every module is run by exactly one shard: together the slices are the list. */
  lemma {:induction false} SlicesPartition<T>(stems: seq<T>, count: nat)
    requires count > 0
    ensures Union(Slices(stems, count)) == multiset(stems)
  {
    if stems == [] {
      UnionEmpty(Slices(stems, count));
    } else {
      var init, x := stems[..|stems| - 1], stems[|stems| - 1];
      SlicesPartition(init, count);
      assert stems == init + [x];
      DealtInTurn(init, x, count);
      UnionAdds(Slices(init, count), |init| % count, x);
    }
  }

  /** The slices' sizes: the first `|stems| % count` shards have one module more. */
  lemma {:induction false} SliceSize<T>(stems: seq<T>, count: nat, index: nat)
    requires index < count
    ensures |Select(stems, count, index)| == |stems| / count + if index < |stems| % count then 1 else 0
  {
    if stems == [] {
      ModOf(0, 0, 0, count);
    } else {
      var init, x := stems[..|stems| - 1], stems[|stems| - 1];
      SliceSize(init, count, index);
      ShardSnoc(init, x, count, index);
      assert stems == init + [x];
      NextSize(|init|, count);
    }
  }

  lemma NextSize(n: nat, count: nat)
    requires count > 0
    ensures if n % count == count - 1 then (n + 1) / count == n / count + 1 && (n + 1) % count == 0
            else (n + 1) / count == n / count && (n + 1) % count == n % count + 1
  {
    var q, r := n / count, n % count;
    assert n == q * count + r;
    if r == count - 1 {
      assert n + 1 == (q + 1) * count + 0;
      ModOf(n + 1, q + 1, 0, count);
    } else {
      assert n + 1 == q * count + (r + 1);
      ModOf(n + 1, q, r + 1, count);
    }
  }

  /** Sizes differ by at most one, and a shard is empty exactly when its index is past the modules. */
  lemma SlicesAreEven<T>(stems: seq<T>, count: nat, i: nat, j: nat)
    requires i < count && j < count
    ensures |Select(stems, count, i)| <= |Select(stems, count, j)| + 1
    ensures Select(stems, count, i) != [] <==> i < |stems|
  {
    SliceSize(stems, count, i);
    SliceSize(stems, count, j);
    SelectAt(stems, count, i, 0);
  }

  lemma MulGap(j: nat, k: nat, count: nat)
    requires j < k && count > 0
    ensures j * count < k * count
  {
    assert k * count == j * count + (k - j) * count;
  }

  /** A slice keeps the list's order. */
  lemma SliceKeepsOrder<T>(stems: seq<T>, count: nat, index: nat, j: nat, k: nat)
    requires count > 0 && j < k < |Select(stems, count, index)|
    ensures index + j * count < index + k * count < |stems|
    ensures Select(stems, count, index)[j] == stems[index + j * count]
    ensures Select(stems, count, index)[k] == stems[index + k * count]
  {
    SelectAt(stems, count, index, j);
    SelectAt(stems, count, index, k);
    MulGap(j, k, count);
  }
}
