/**
 * The arithmetic behind the weekly bar chart that both the `stats` command and the
 * Saturday summary draw: the days in date order, the minutes of each day, their sum,
 * the top of the y axis (`max(values)` when positive, else 60) and the y ticks
 * `range(0, max_value + 60, 60)`.  The drawing itself is not modelled.
 */
module WeeklyChart {
  import opened DateOrder

  /** Minutes between two y ticks. */
  const TICK_STEP := 60

  /** The axis top used when no day has a positive value. */
  const FALLBACK_AXIS_TOP := 60

  /** `sum(values)`. */
  function Sum(s: seq<int>): int
  {
    if s == [] then 0 else s[0] + Sum(s[1..])
  }

  lemma {:induction false} SumConcat(a: seq<int>, b: seq<int>)
    ensures Sum(a + b) == Sum(a) + Sum(b)
  {
    if a == [] {
      assert a + b == b;
    } else {
      assert (a + b)[1..] == a[1..] + b;
      SumConcat(a[1..], b);
    }
  }

  /** Taking one element out of a sum. */
  lemma SumRemove(s: seq<int>, j: int)
    requires 0 <= j < |s|
    ensures Sum(s) == s[j] + Sum(s[..j] + s[j + 1..])
  {
    var left, right := s[..j], s[j + 1..];
    assert s == left + ([s[j]] + right);
    SumConcat(left, [s[j]] + right);
    SumConcat(left, right);
    assert ([s[j]] + right)[1..] == right;
  }

  /** `max(values)`. */
  function Max(s: seq<int>): (m: int)
    requires s != []
    ensures m in s
    ensures forall i :: 0 <= i < |s| ==> s[i] <= m
  {
    if |s| == 1 then s[0]
    else
      var rest := Max(s[1..]);
      if s[0] >= rest then s[0] else rest
  }

  /** `max_value`: 0 for no bars, else the largest value if positive, else 60. */
  function AxisTop(values: seq<int>): (top: int)
    ensures values == [] ==> top == 0
    ensures values != [] ==> top > 0 && forall i :: 0 <= i < |values| ==> values[i] <= top
    ensures (exists i :: 0 <= i < |values| && values[i] > 0) ==> top in values
    ensures values != [] && (forall i :: 0 <= i < |values| ==> values[i] <= 0) ==> top == FALLBACK_AXIS_TOP
  {
    if values == [] then 0
    else if Max(values) > 0 then Max(values)
    else FALLBACK_AXIS_TOP
  }

  /** Python's `range(start, stop, step)` for a positive step. */
  function Range(start: int, stop: int, step: int): seq<int>
    requires step > 0
    decreases stop - start
  {
    if start >= stop then [] else [start] + Range(start + step, stop, step)
  }

  lemma {:induction false} RangeShape(start: int, stop: int, step: int)
    requires step > 0
    ensures start < stop <==> |Range(start, stop, step)| > 0
    ensures forall i :: 0 <= i < |Range(start, stop, step)| ==> Range(start, stop, step)[i] == start + i * step
    ensures |Range(start, stop, step)| > 0 ==>
      var r := Range(start, stop, step);
      r[|r| - 1] < stop <= r[|r| - 1] + step
    decreases stop - start
  {
    if start < stop {
      var r := Range(start, stop, step);
      var rest := Range(start + step, stop, step);
      RangeShape(start + step, stop, step);
      assert r == [start] + rest;
      forall i | 0 < i < |r|
        ensures r[i] == start + i * step
      {
        assert r[i] == rest[i - 1] == start + step + (i - 1) * step;
      }
    }
  }

  /** The y ticks `range(0, top + 60, 60)`: multiples of 60 from 0 up to the first one reaching `top`. */
  function YTicks(top: int): (ticks: seq<int>)
    ensures top >= 0 ==> |ticks| > 0 && ticks[0] == 0
    ensures forall i :: 0 <= i < |ticks| ==> ticks[i] == TICK_STEP * i
    ensures forall i, j :: 0 <= i < j < |ticks| ==> ticks[i] < ticks[j]
    ensures top >= 0 ==> top <= ticks[|ticks| - 1] < top + TICK_STEP
  {
    RangeShape(0, top + TICK_STEP, TICK_STEP);
    Range(0, top + TICK_STEP, TICK_STEP)
  }

  /** The values of `m` at the keys `ks`, in that order. */
  function ValuesAt(m: map<string, int>, ks: seq<string>): (vs: seq<int>)
    requires forall k :: k in ks ==> k in m
    ensures |vs| == |ks| && forall i :: 0 <= i < |ks| ==> vs[i] == m[ks[i]]
  {
    seq(|ks|, i requires 0 <= i < |ks| => m[ks[i]])
  }

  /** No key occurs twice in `ks`. */
  predicate Distinct(ks: seq<string>)
  {
    forall i, j :: 0 <= i < j < |ks| ==> ks[i] != ks[j]
  }

  /** `ks` lists every key of `m` exactly once, in some order. */
  ghost predicate Enumerates(ks: seq<string>, m: map<string, int>)
  {
    |ks| == |m| && Distinct(ks) && forall k :: k in ks <==> k in m
  }

  /** What one chart shows. */
  datatype Chart = Chart(days: seq<string>, values: seq<int>, axisTop: int, yTicks: seq<int>)

  /** The chart of a weekly table: `sorted(weekly.items())` split into days and values, and its axis. */
  function WeeklyBars(weekly: map<string, int>): (c: Chart)
    ensures Enumerates(c.days, weekly) && StrictlyIncreasing(c.days)
    ensures |c.values| == |c.days| && forall i :: 0 <= i < |c.days| ==> c.values[i] == weekly[c.days[i]]
    ensures c.axisTop == AxisTop(c.values) && c.yTicks == YTicks(c.axisTop)
    ensures weekly != map[] ==> c.axisTop > 0 && forall d :: d in weekly ==> weekly[d] <= c.axisTop
  {
    var days := Sorted(weekly.Keys);
    StrictlyIncreasingDistinct(days);
    var values := ValuesAt(weekly, days);
    assert weekly != map[] ==> values != [] by {
      if weekly != map[] {
        var d :| d in weekly;
        assert d in days;
      }
    }
    Chart(days, values, AxisTop(values), YTicks(AxisTop(values)))
  }

  /** `weekly_sum`: the minutes of the week, summed in date order. */
  function WeeklySum(weekly: map<string, int>): int
  {
    Sum(WeeklyBars(weekly).values)
  }

  /** Two duplicate-free sequences with the same elements, less a common first element. */
  lemma DropShared(a: seq<string>, b: seq<string>, j: int)
    requires a != [] && 0 <= j < |b| && b[j] == a[0]
    requires Distinct(a) && Distinct(b)
    requires forall k :: k in a <==> k in b
    ensures Distinct(b[..j] + b[j + 1..])
    ensures forall k :: k in a[1..] <==> k in b[..j] + b[j + 1..]
  {
    var b' := b[..j] + b[j + 1..];
    assert forall i :: 0 <= i < |b'| ==> b'[i] == if i < j then b[i] else b[i + 1];
    forall k
      ensures k in a[1..] <==> k in b'
    {
      if k in a[1..] {
        var p :| 1 <= p < |a| && a[p] == k;
        assert k in a;
        var q :| 0 <= q < |b| && b[q] == k;
        assert q != j;
        assert k == if q < j then b'[q] else b'[q - 1];
      }
      if k in b' {
        var q :| 0 <= q < |b'| && b'[q] == k;
        assert k in b;
        assert k != a[0];
        var p :| 0 <= p < |a| && a[p] == k;
        assert p != 0;
        assert a[1..][p - 1] == k;
      }
    }
  }

  lemma {:induction false} SumPermutation(m: map<string, int>, a: seq<string>, b: seq<string>)
    requires |a| == |b| && Distinct(a) && Distinct(b)
    requires forall k :: k in a <==> k in b
    requires forall k :: k in a ==> k in m
    ensures Sum(ValuesAt(m, a)) == Sum(ValuesAt(m, b))
    decreases |a|
  {
    if a != [] {
      assert a[0] in b;
      var j :| 0 <= j < |b| && b[j] == a[0];
      var b' := b[..j] + b[j + 1..];
      DropShared(a, b, j);
      SumPermutation(m, a[1..], b');
      var vb := ValuesAt(m, b);
      assert ValuesAt(m, b') == vb[..j] + vb[j + 1..];
      SumRemove(vb, j);
      assert ValuesAt(m, a)[1..] == ValuesAt(m, a[1..]);
    }
  }

  /**
   * `sum(weekly_data.values())` in whatever order the table yields its entries is
   * the date-ordered weekly sum, so the `stats` command and the Saturday summary agree.
   */
  lemma SumAnyOrder(weekly: map<string, int>, ks: seq<string>)
    requires Enumerates(ks, weekly)
    ensures Sum(ValuesAt(weekly, ks)) == WeeklySum(weekly)
  {
    var c := WeeklyBars(weekly);
    SumPermutation(weekly, ks, c.days);
    assert ValuesAt(weekly, c.days) == c.values;
  }
}
