/**
 * The multi-level loop counter of include/faunus/mcloop.h (`Counter<int>`) and
 * the two-level `MCLoop` built on it.
 *
 * `T` is `int`, modelled as an unbounded integer. The vectors `l` (limits) and
 * `cnt` (counts) are `seq<int>` fields that the methods reassign.
 */
module McLoop {

  datatype Option<T> = None | Some(value: T)

  /** A configuration value, or the given default when the key is absent. */
  function GetOr(o: Option<int>, default: int): int
  {
    match o
    case Some(x) => x
    case None => default
  }

  /** The number of times a level with limit `k` says "go on" before it overflows. */
  function Max0(k: int): nat
  {
    if k < 0 then 0 else k
  }

  /** `n` zero counts. */
  function Zeros(n: nat): seq<int>
  {
    seq(n, _ => 0)
  }

  class Counter {
    var l: seq<int>
    var cnt: seq<int>
    var inner: int

    /**
     * Class invariant: one count per limit, and every count lies between zero
     * and the limit (zero for a negative limit).
     */
    ghost predicate Valid()
      reads this
    {
      |l| == |cnt| && forall i :: 0 <= i < |cnt| ==> 0 <= cnt[i] <= Max0(l[i])
    }

    /** `Counter()`: no levels. `inner` is left uninitialised, as in the source. */
    constructor ()
      ensures Valid() && l == [] && cnt == []
    {
      l, cnt := [], [];
    }

    /** `Counter(levels)`: the same as `set(levels)` on a fresh counter. */
    constructor WithLevels(levels: seq<int>)
      ensures Valid() && l == levels && cnt == Zeros(|levels|) && inner == 0
    {
      l, cnt, inner := levels, Zeros(|levels|), 0;
    }

    /** `set(levels)`: the limits become `levels`, every count and the inner tally zero. */
    method Set(levels: seq<int>)
      modifies this
      ensures Valid() && l == levels && cnt == Zeros(|levels|) && inner == 0
    {
      l, cnt := levels, levels;
      var i := 0;
      while i < |cnt|
        invariant l == levels && 0 <= i <= |cnt| == |levels|
        invariant forall k :: 0 <= k < i ==> cnt[k] == 0
      {
        cnt := cnt[i := 0];
        i := i + 1;
      }
      assert cnt == Zeros(|levels|);
      inner := 0;
    }

    /**
     * `step(level)`: post-increments `cnt[level]` and answers whether the old
     * count was below the limit. On overflow the count is reset to zero. A
     * successful step on the last level also bumps `inner`. The limits and the
     * other levels' counts do not change.
     */
    method Step(level: int) returns (ok: bool)
      requires Valid() && 0 <= level < |cnt|
      modifies this
      ensures Valid() && l == old(l)
      ensures ok <==> old(cnt[level]) < old(l[level])
      ensures ok ==> cnt == old(cnt)[level := old(cnt[level]) + 1]
      ensures !ok ==> cnt == old(cnt)[level := 0]
      ensures ok && level == |cnt| - 1 ==> inner == old(inner) + 1
      ensures !(ok && level == |cnt| - 1) ==> inner == old(inner)
    {
      var c := cnt[level];
      cnt := cnt[level := c + 1];
      if c < l[level] {
        if level == |cnt| - 1 {
          inner := inner + 1;
        }
        return true;
      }
      cnt := cnt[level := 0];
      return false;
    }

    /** `operator[]`: the same call as `step`. */
    method Index(level: int) returns (ok: bool)
      requires Valid() && 0 <= level < |cnt|
      modifies this
      ensures Valid() && l == old(l)
      ensures ok <==> old(cnt[level]) < old(l[level])
      ensures ok ==> cnt == old(cnt)[level := old(cnt[level]) + 1]
      ensures !ok ==> cnt == old(cnt)[level := 0]
      ensures ok && level == |cnt| - 1 ==> inner == old(inner) + 1
      ensures !(ok && level == |cnt| - 1) ==> inner == old(inner)
    {
      ok := Step(level);
    }

    /** `count(level)`: the current count of a level, never above its limit. */
    function Count(level: int): (c: int)
      requires Valid() && 0 <= level < |cnt|
      reads this
      ensures 0 <= c <= Max0(l[level])
    {
      cnt[level]
    }

    /** `innerCount()`: the number of successful steps of the innermost level. */
    function InnerCount(): int
      reads this
    {
      inner
    }
  }

  /** The innermost row `(i, 1), ..., (i, n)`. */
  function Row(i: int, n: nat): seq<(int, int)>
  {
    if n == 0 then [] else Row(i, n - 1) + [(i, n)]
  }

  /** The pairs `(count(0), count(1))` the documented loop visits, outer level first. */
  function Grid(m: nat, n: nat): seq<(int, int)>
  {
    if m == 0 then [] else Grid(m - 1, n) + Row(m, n)
  }

  lemma {:induction false} RowContents(i: int, n: nat)
    ensures |Row(i, n)| == n
    ensures forall k :: 0 <= k < n ==> Row(i, n)[k] == (i, k + 1)
  {
    if n > 0 {
      RowContents(i, n - 1);
    }
  }

  /** The loop visits `m * n` pairs. */
  lemma {:induction false} GridSize(m: nat, n: nat)
    ensures |Grid(m, n)| == m * n
  {
    if m > 0 {
      GridSize(m - 1, n);
      RowContents(m, n);
      assert (m - 1) * n + n == m * n;
    }
  }

  /** One inner sweep holds exactly the pairs `(i, j)` with `1 <= j <= n`. */
  lemma RowMembers(i: int, n: nat, a: int, b: int)
    ensures (a, b) in Row(i, n) <==> a == i && 1 <= b <= n
  {
    RowContents(i, n);
    if (a, b) in Row(i, n) {
      var k :| 0 <= k < n && Row(i, n)[k] == (a, b);
    }
    if a == i && 1 <= b <= n {
      assert Row(i, n)[b - 1] == (a, b);
    }
  }

  /** The loop visits exactly the pairs with `1 <= i <= m` and `1 <= j <= n`. */
  lemma {:induction false} GridMembers(m: nat, n: nat, i: int, j: int)
    ensures (i, j) in Grid(m, n) <==> 1 <= i <= m && 1 <= j <= n
  {
    if m > 0 {
      GridMembers(m - 1, n, i, j);
      RowMembers(m, n, i, j);
      assert (i, j) in Grid(m, n) <==> (i, j) in Grid(m - 1, n) || (i, j) in Row(m, n);
    }
  }

  /**
   * The loop of the class comment: `while (cnt[0]) while (cnt[1]) ...` on a fresh
   * counter with limits `m` and `n`. It visits every `(count(0), count(1))`
   * pair of the grid once, in order, and leaves `innerCount()` at the product
   * of the limits (zero for a negative one) with both counts back at zero.
   */
  method DocumentedLoop(m: int, n: int) returns (c: Counter, visited: seq<(int, int)>)
    ensures fresh(c) && c.Valid()
    ensures visited == Grid(Max0(m), Max0(n))
    ensures c.InnerCount() == Max0(m) * Max0(n)
    ensures 0 <= m && 0 <= n ==> c.InnerCount() == m * n
    ensures c.l == [m, n] && c.cnt == [0, 0]
  {
    c := new Counter.WithLevels([m, n]);
    visited := [];
    ghost var mm, nn := Max0(m), Max0(n);
    var outer := c.Index(0);
    while outer
      invariant c.Valid() && c.l == [m, n] && |c.cnt| == 2 && c.cnt[1] == 0
      invariant outer ==> 1 <= c.cnt[0] <= mm
      invariant outer ==> visited == Grid(c.cnt[0] - 1, nn) && c.inner == (c.cnt[0] - 1) * nn
      invariant !outer ==> c.cnt[0] == 0 && visited == Grid(mm, nn) && c.inner == mm * nn
      decreases if outer then mm + 1 - c.cnt[0] else 0
    {
      ghost var i := c.cnt[0];
      var go := c.Index(1);
      while go
        invariant c.Valid() && c.l == [m, n] && |c.cnt| == 2 && c.cnt[0] == i
        invariant go ==> 1 <= c.cnt[1] <= nn
        invariant go ==> visited == Grid(i - 1, nn) + Row(i, c.cnt[1] - 1)
        invariant go ==> c.inner == (i - 1) * nn + c.cnt[1]
        invariant !go ==> c.cnt[1] == 0 && visited == Grid(i, nn) && c.inner == i * nn
        decreases if go then nn + 1 - c.cnt[1] else 0
      {
        visited := visited + [(c.Count(0), c.Count(1))];
        go := c.Index(1);
      }
      outer := c.Index(0);
    }
  }

  /**
   * `MCLoop`: a counter with two levels, macro (outer) and micro (inner) steps.
   * The json section is modelled as two optional values.
   */
  class MCLoop {
    const counter: Counter

    ghost predicate Valid()
      reads this, counter
    {
      counter.Valid() && |counter.cnt| == 2
    }

    /** Limits from the configuration, 10 macro and 1000 micro steps when absent. */
    constructor (macro: Option<int>, micro: Option<int>)
      ensures Valid() && fresh(counter)
      ensures counter.l == [GetOr(macro, 10), GetOr(micro, 1000)]
      ensures counter.cnt == [0, 0] && counter.inner == 0
    {
      counter := new Counter.WithLevels([GetOr(macro, 10), GetOr(micro, 1000)]);
    }

    /** `macroCnt()`: one step of the outer level. */
    method MacroCnt() returns (ok: bool)
      requires Valid()
      modifies counter
      ensures Valid() && counter.l == old(counter.l)
      ensures ok <==> old(counter.cnt[0]) < old(counter.l[0])
      ensures ok ==> counter.cnt == old(counter.cnt)[0 := old(counter.cnt[0]) + 1]
      ensures !ok ==> counter.cnt == old(counter.cnt)[0 := 0]
      ensures counter.inner == old(counter.inner)
    {
      ok := counter.Index(0);
    }

    /** `microCnt()`: one step of the inner level; a successful one counts towards `innerCount()`. */
    method MicroCnt() returns (ok: bool)
      requires Valid()
      modifies counter
      ensures Valid() && counter.l == old(counter.l)
      ensures ok <==> old(counter.cnt[1]) < old(counter.l[1])
      ensures ok ==> counter.cnt == old(counter.cnt)[1 := old(counter.cnt[1]) + 1]
      ensures !ok ==> counter.cnt == old(counter.cnt)[1 := 0]
      ensures ok ==> counter.inner == old(counter.inner) + 1
      ensures !ok ==> counter.inner == old(counter.inner)
    {
      ok := counter.Index(1);
    }
  }
}
