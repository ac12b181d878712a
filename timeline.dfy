/** A LED's pattern list read as a timeline, and `get_color_at_time`, which
    gives the colour the LED shows at a timestamp (design_scene.cpp:138-174).

    Patterns are laid end to end: each one first waits `offset` time units
    (black), then lasts `totalTime` units. The blend of a non-solid pattern is
    computed here in exact real arithmetic; each channel is truncated to an
    integer, as the conversion of the double channel value to the int argument
    of QColor does (the value is never negative, so truncation is the floor). */
module Timeline {
  import opened Ints
  import opened Colors
  import opened Patterns

  /** What get_color_at_time needs of a pattern list: the blend of a non-solid
      pattern divides by its total_time, which must not be negative. */
  predicate Evaluable(ps: seq<Pattern>) {
    forall k :: 0 <= k < |ps| ==> ps[k].isSolid || ps[k].totalTime >= 0
  }

  /** Blend weight of the end colour in a non-solid segment with `remaining`
      of its `total` time units left. The remaining fraction rises to 1 at
      `mid` percent and decays back to 0 on both sides of it. */
  function Weight(remaining: int, total: int, mid: int): (w: real)
    requires 0 < remaining <= total
    ensures 0.0 <= w <= 1.0
  {
    var frac := remaining as real / total as real;
    var m := mid as real / 100.0;
    DivUnit(remaining as real, total as real);
    if frac <= m then
      DivUnit(frac, m);
      frac / m
    else
      DivUnit(1.0 - frac, 1.0 - m);
      (1.0 - frac) / (1.0 - m)
  }

  lemma DivUnit(a: real, b: real)
    requires 0.0 <= a <= b && b > 0.0
    ensures 0.0 <= a / b <= 1.0
  {
  }

  /** A fraction w of a non-negative d lies between 0 and d. */
  lemma Scale(w: real, d: real)
    requires 0.0 <= w <= 1.0 && d >= 0.0
    ensures 0.0 <= w * d <= d
  {
  }

  /** One channel of the blend: w of the end channel and 1 - w of the start
      channel, truncated to an integer. It never overshoots either channel. */
  function Mix(s: UInt8, e: UInt8, w: real): (c: UInt8)
    requires 0.0 <= w <= 1.0
    ensures ChannelBetween(c, s, e)
    ensures w == 0.0 ==> c == s
    ensures w == 1.0 ==> c == e
  {
    var v := w * e as real + (1.0 - w) * s as real;
    MixBounds(s, e, w);
    v.Floor
  }

  lemma MixBounds(s: UInt8, e: UInt8, w: real)
    requires 0.0 <= w <= 1.0
    ensures Min(s, e) as real <= w * e as real + (1.0 - w) * s as real
    ensures w * e as real + (1.0 - w) * s as real <= Max(s, e) as real
  {
    MixWithin(s as real, e as real, w, Min(s, e) as real, Max(s, e) as real);
  }

  /** A weighted mean of two values within [lo, hi] stays within [lo, hi]. */
  lemma MixWithin(s: real, e: real, w: real, lo: real, hi: real)
    requires 0.0 <= w <= 1.0
    requires lo <= s <= hi && lo <= e <= hi
    ensures lo <= w * e + (1.0 - w) * s <= hi
  {
    if s <= e {
      LerpUp(s, e, w);
      StepUp(s, e, w, w * e + (1.0 - w) * s);
    } else {
      LerpDown(s, e, w);
      StepDown(s, e, w, w * e + (1.0 - w) * s);
    }
  }

  lemma LerpUp(s: real, e: real, w: real)
    ensures w * e + (1.0 - w) * s == s + w * (e - s)
  {
  }

  lemma LerpDown(s: real, e: real, w: real)
    ensures w * e + (1.0 - w) * s == s - w * (s - e)
  {
  }

  /** Moving from s towards a larger e by a fraction of the gap stays in [s, e]. */
  lemma StepUp(s: real, e: real, w: real, v: real)
    requires 0.0 <= w <= 1.0 && s <= e && v == s + w * (e - s)
    ensures s <= v <= e
  {
    Scale(w, e - s);
    var x := w * (e - s);
    assert x <= e - s;
    assert v == s + x;
  }

  /** Moving from s towards a smaller e by a fraction of the gap stays in [e, s]. */
  lemma StepDown(s: real, e: real, w: real, v: real)
    requires 0.0 <= w <= 1.0 && e <= s && v == s - w * (s - e)
    ensures e <= v <= s
  {
    Scale(w, s - e);
    var x := w * (s - e);
    assert x <= s - e;
    assert v == s - x;
  }

  /** Colour of a pattern inside its segment, `remaining` time units before
      the segment ends. */
  function SegmentColor(p: Pattern, remaining: int): (c: Color)
    requires p.isSolid || 0 < remaining <= p.totalTime
    ensures Between(c, p.startColor, p.endColor)
    ensures p.isSolid ==> c == p.startColor
  {
    if p.isSolid then p.startColor
    else
      var w := Weight(remaining, p.totalTime, p.mid);
      Color(Mix(p.startColor.red, p.endColor.red, w),
            Mix(p.startColor.green, p.endColor.green, w),
            Mix(p.startColor.blue, p.endColor.blue, w))
  }

  /** The loop of get_color_at_time from a running total `completed` (a
      quint16, so each addition wraps modulo 65536) over the patterns still
      to walk. The colour is black, or lies between the start and end colours
      of one of the patterns. */
  function ColorFrom(ps: seq<Pattern>, completed: UInt16, time: Int16): (c: Color)
    requires Evaluable(ps)
    ensures c == Black || exists k :: 0 <= k < |ps| && Between(c, ps[k].startColor, ps[k].endColor)
    decreases |ps|
  {
    if ps == [] then Black
    else
      var p := ps[0];
      var afterOffset := ToUInt16(completed + p.offset);
      if time < afterOffset then Black
      else
        var afterSegment := ToUInt16(afterOffset + p.totalTime);
        if time < afterSegment then
          SegmentColor(p, afterSegment - time)
        else
          var c := ColorFrom(ps[1..], afterSegment, time);
          assert c != Black ==> exists k :: 1 <= k < |ps| && Between(c, ps[k].startColor, ps[k].endColor) by {
            if c != Black {
              var j :| 0 <= j < |ps[1..]| && Between(c, ps[1..][j].startColor, ps[1..][j].endColor);
              assert ps[1..][j] == ps[j + 1];
            }
          }
          c
  }

  /** get_color_at_time for one LED's pattern list. */
  function ColorAt(ps: seq<Pattern>, time: Int16): (c: Color)
    requires Evaluable(ps)
    ensures c == Black || exists k :: 0 <= k < |ps| && Between(c, ps[k].startColor, ps[k].endColor)
  {
    ColorFrom(ps, 0, time)
  }

  // ---------------------------------------------------------------------------
  // Where each pattern sits on the time axis

  /** Time consumed by the first n patterns: their offsets and total times. */
  function Prefix(ps: seq<Pattern>, n: nat): int
    requires n <= |ps|
  {
    if n == 0 then 0 else ps[0].offset + ps[0].totalTime + Prefix(ps[1..], n - 1)
  }

  /** The instant pattern k's segment begins, after its offset gap. */
  function Start(ps: seq<Pattern>, k: nat): int
    requires k < |ps|
  {
    Prefix(ps, k) + ps[k].offset
  }

  /** The instant pattern k's segment ends (exclusive). */
  function End(ps: seq<Pattern>, k: nat): int
    requires k < |ps|
  {
    Start(ps, k) + ps[k].totalTime
  }

  /** Time consumed by the whole list, the sum of every offset and total time. */
  function Span(ps: seq<Pattern>): int {
    Prefix(ps, |ps|)
  }

  /** The lists the segment lemmas below cover: no offset or total time is
      negative, and the whole span fits the quint16 running total, so no
      addition to it wraps. */
  predicate WellTimed(ps: seq<Pattern>) {
    NonNegative(ps) && Span(ps) < 65536
  }

  predicate NonNegative(ps: seq<Pattern>) {
    forall k :: 0 <= k < |ps| ==> ps[k].offset >= 0 && ps[k].totalTime >= 0
  }

  lemma {:induction false} PrefixStep(ps: seq<Pattern>, n: nat)
    requires n < |ps|
    ensures Prefix(ps, n + 1) == Prefix(ps, n) + ps[n].offset + ps[n].totalTime
    decreases n
  {
    if n > 0 {
      PrefixStep(ps[1..], n - 1);
    }
  }

  lemma {:induction false} PrefixMonotone(ps: seq<Pattern>, i: nat, j: nat)
    requires NonNegative(ps)
    requires i <= j <= |ps|
    ensures 0 <= Prefix(ps, i) <= Prefix(ps, j)
    decreases j, i
  {
    if j > i {
      PrefixMonotone(ps, i, j - 1);
      PrefixStep(ps, j - 1);
    } else if i > 0 {
      PrefixMonotone(ps, 0, i);
    }
  }

  /** Appending a pattern leaves the place of every earlier pattern unchanged. */
  lemma {:induction false} PrefixAppend(ps: seq<Pattern>, p: Pattern, n: nat)
    requires n <= |ps|
    ensures Prefix(ps + [p], n) == Prefix(ps, n)
    decreases n
  {
    if n > 0 {
      assert (ps + [p])[1..] == ps[1..] + [p];
      PrefixAppend(ps[1..], p, n - 1);
    }
  }

  /** One step of the loop, when the running total does not wrap. */
  lemma ColorFromStep(ps: seq<Pattern>, c: UInt16, time: Int16)
    requires Evaluable(ps) && ps != []
    requires ps[0].offset >= 0 && ps[0].totalTime >= 0
    requires c + ps[0].offset + ps[0].totalTime < 65536
    ensures Evaluable(ps[1..])
    ensures ColorFrom(ps, c, time) ==
      if time < c + ps[0].offset then Black
      else if time < c + ps[0].offset + ps[0].totalTime then
        SegmentColor(ps[0], c + ps[0].offset + ps[0].totalTime - time)
      else ColorFrom(ps[1..], c + ps[0].offset + ps[0].totalTime, time)
  {
    assert Evaluable(ps[1..]) by {
      forall k | 0 <= k < |ps[1..]| ensures ps[1..][k].isSolid || ps[1..][k].totalTime >= 0 {
        assert ps[1..][k] == ps[k + 1];
      }
    }
  }

  /** The tail of a list without negative durations, and how its span and
      segment boundaries relate to those of the whole list. */
  lemma TailTimes(ps: seq<Pattern>)
    requires NonNegative(ps) && ps != []
    ensures NonNegative(ps[1..]) && Evaluable(ps)
    ensures Span(ps) == ps[0].offset + ps[0].totalTime + Span(ps[1..])
    ensures 0 <= Span(ps[1..])
    ensures Start(ps, 0) == ps[0].offset && End(ps, 0) == ps[0].offset + ps[0].totalTime
    ensures forall k :: 0 <= k < |ps[1..]| ==>
      Start(ps, k + 1) == ps[0].offset + ps[0].totalTime + Start(ps[1..], k) &&
      End(ps, k + 1) == ps[0].offset + ps[0].totalTime + End(ps[1..], k)
  {
    assert NonNegative(ps[1..]) by {
      forall k | 0 <= k < |ps[1..]| ensures ps[1..][k].offset >= 0 && ps[1..][k].totalTime >= 0 {
        assert ps[1..][k] == ps[k + 1];
      }
    }
    forall k | 0 <= k < |ps[1..]|
      ensures Start(ps, k + 1) == ps[0].offset + ps[0].totalTime + Start(ps[1..], k)
    {
      assert ps[1..][k] == ps[k + 1];
    }
    PrefixMonotone(ps[1..], 0, |ps| - 1);
  }

  lemma {:induction false} ColorFromInSegment(ps: seq<Pattern>, c: UInt16, time: Int16, k: nat)
    requires NonNegative(ps)
    requires c + Span(ps) < 65536
    requires k < |ps| && c + Start(ps, k) <= time < c + End(ps, k)
    ensures Evaluable(ps)
    ensures ColorFrom(ps, c, time) == SegmentColor(ps[k], c + End(ps, k) - time)
    decreases k
  {
    var p := ps[0];
    TailTimes(ps);
    ColorFromStep(ps, c, time);
    if k > 0 {
      var c' := c + p.offset + p.totalTime;
      PrefixMonotone(ps[1..], 0, k - 1);
      assert c + Start(ps, k) == c' + Start(ps[1..], k - 1);
      assert c + End(ps, k) == c' + End(ps[1..], k - 1);
      assert time >= c';
      assert ColorFrom(ps, c, time) == ColorFrom(ps[1..], c', time);
      ColorFromInSegment(ps[1..], c', time, k - 1);
      assert ps[1..][k - 1] == ps[k];
    } else {
      assert c + p.offset <= time < c + p.offset + p.totalTime;
      assert ColorFrom(ps, c, time) == SegmentColor(p, c + p.offset + p.totalTime - time);
    }
  }

  lemma {:induction false} ColorFromOutside(ps: seq<Pattern>, c: UInt16, time: Int16)
    requires NonNegative(ps)
    requires c + Span(ps) < 65536
    requires forall k :: 0 <= k < |ps| ==> !(c + Start(ps, k) <= time < c + End(ps, k))
    ensures Evaluable(ps)
    ensures ColorFrom(ps, c, time) == Black
    decreases |ps|
  {
    if ps != [] {
      var p := ps[0];
      TailTimes(ps);
      ColorFromStep(ps, c, time);
      if time >= c + p.offset {
        assert !(c + Start(ps, 0) <= time < c + End(ps, 0));
        var c' := c + p.offset + p.totalTime;
        forall k | 0 <= k < |ps[1..]|
          ensures !(c' + Start(ps[1..], k) <= time < c' + End(ps[1..], k))
        {
          assert !(c + Start(ps, k + 1) <= time < c + End(ps, k + 1));
        }
        ColorFromOutside(ps[1..], c', time);
      }
    }
  }

  /** Inside pattern k's segment the LED shows that pattern's colour for the
      time left in the segment, which lies between its start and end colours. */
  lemma ColorInSegment(ps: seq<Pattern>, k: nat, time: Int16)
    requires WellTimed(ps)
    requires k < |ps| && Start(ps, k) <= time < End(ps, k)
    ensures Evaluable(ps)
    ensures ColorAt(ps, time) == SegmentColor(ps[k], End(ps, k) - time)
    ensures Between(ColorAt(ps, time), ps[k].startColor, ps[k].endColor)
  {
    ColorFromInSegment(ps, 0, time, k);
  }

  /** Outside every segment the LED is black. */
  lemma ColorOutsideSegments(ps: seq<Pattern>, time: Int16)
    requires WellTimed(ps)
    requires forall k :: 0 <= k < |ps| ==> !(Start(ps, k) <= time < End(ps, k))
    ensures Evaluable(ps)
    ensures ColorAt(ps, time) == Black
  {
    ColorFromOutside(ps, 0, time);
  }

  /** In the offset gap before pattern k (for k = 0, before the first pattern)
      the LED is black. */
  lemma BlackInOffsetGap(ps: seq<Pattern>, k: nat, time: Int16)
    requires WellTimed(ps)
    requires k < |ps| && Prefix(ps, k) <= time < Start(ps, k)
    ensures Evaluable(ps)
    ensures ColorAt(ps, time) == Black
  {
    forall j | 0 <= j < |ps| ensures !(Start(ps, j) <= time < End(ps, j)) {
      PrefixStep(ps, j);
      if j < k {
        PrefixMonotone(ps, j + 1, k);
      } else if j > k {
        PrefixMonotone(ps, k + 1, j);
        PrefixStep(ps, k);
      }
    }
    ColorOutsideSegments(ps, time);
  }

  /** At or after the end of the last pattern, and for an empty list, the LED is black. */
  lemma BlackAfterSpan(ps: seq<Pattern>, time: Int16)
    requires WellTimed(ps)
    requires time >= Span(ps)
    ensures Evaluable(ps)
    ensures ColorAt(ps, time) == Black
  {
    forall j | 0 <= j < |ps| ensures !(Start(ps, j) <= time < End(ps, j)) {
      PrefixStep(ps, j);
      PrefixMonotone(ps, j + 1, |ps|);
    }
    ColorOutsideSegments(ps, time);
  }

  /** Throughout a solid pattern's segment the LED shows exactly its start colour. */
  lemma SolidSegment(ps: seq<Pattern>, k: nat, time: Int16)
    requires WellTimed(ps)
    requires k < |ps| && ps[k].isSolid && Start(ps, k) <= time < End(ps, k)
    ensures Evaluable(ps)
    ensures ColorAt(ps, time) == ps[k].startColor
  {
    ColorInSegment(ps, k, time);
  }

  /** At the first instant of a non-solid segment the weight is 0, so the LED
      shows the start colour (this needs mid < 100: at mid = 100 the weight
      there is 1). */
  lemma BlendBeginsAtStartColor(ps: seq<Pattern>, k: nat, time: Int16)
    requires WellTimed(ps)
    requires k < |ps| && !ps[k].isSolid && ps[k].totalTime > 0 && ps[k].mid < 100
    requires time == Start(ps, k)
    ensures Evaluable(ps)
    ensures ColorAt(ps, time) == ps[k].startColor
  {
    PrefixStep(ps, k);
    ColorInSegment(ps, k, time);
    var p := ps[k];
    StartWeight(p.totalTime, p.mid);
  }

  lemma StartWeight(total: int, mid: int)
    requires total > 0 && mid < 100
    ensures Weight(total, total, mid) == 0.0
  {
    assert total as real / total as real == 1.0;
  }

  /** When the remaining fraction of a non-solid segment equals mid / 100 the
      weight is 1: the LED shows the end colour. */
  lemma BlendPeaksAtEndColor(ps: seq<Pattern>, k: nat, time: Int16)
    requires WellTimed(ps)
    requires k < |ps| && !ps[k].isSolid && ps[k].mid > 0
    requires Start(ps, k) <= time < End(ps, k)
    requires 100 * (End(ps, k) - time) == ps[k].mid * ps[k].totalTime
    ensures Evaluable(ps)
    ensures ColorAt(ps, time) == ps[k].endColor
  {
    ColorInSegment(ps, k, time);
    var p := ps[k];
    var r := End(ps, k) - time;
    PrefixStep(ps, k);
    assert 0 < r <= p.totalTime;
    PeakWeight(r, p.totalTime, p.mid);
  }

  lemma PeakWeight(remaining: int, total: int, mid: int)
    requires 0 < remaining <= total && mid > 0
    requires 100 * remaining == mid * total
    ensures Weight(remaining, total, mid) == 1.0
  {
    var frac := remaining as real / total as real;
    var m := mid as real / 100.0;
    assert frac * total as real == remaining as real;
    assert m * 100.0 == mid as real;
    assert 100.0 * remaining as real == mid as real * total as real;
    assert frac == m by {
      calc {
        frac * 100.0 * total as real;
        100.0 * remaining as real;
        mid as real * total as real;
        m * 100.0 * total as real;
      }
    }
  }

  /** Appending a pattern does not change the colour at any time before the
      end of the earlier patterns. */
  lemma EvaluableAppend(ps: seq<Pattern>, p: Pattern)
    requires Evaluable(ps) && (p.isSolid || p.totalTime >= 0)
    ensures Evaluable(ps + [p])
  {
    var qs := ps + [p];
    forall k | 0 <= k < |qs| ensures qs[k].isSolid || qs[k].totalTime >= 0 {
      if k < |ps| { assert qs[k] == ps[k]; }
    }
  }

  lemma {:induction false} AppendKeepsEarlierFrom(ps: seq<Pattern>, p: Pattern, c: UInt16, time: Int16)
    requires NonNegative(ps) && (p.isSolid || p.totalTime >= 0) && p.offset >= 0
    requires c + Span(ps) + p.offset < 65536
    requires time < c + Span(ps)
    ensures Evaluable(ps) && Evaluable(ps + [p])
    ensures ColorFrom(ps + [p], c, time) == ColorFrom(ps, c, time)
    decreases |ps|
  {
    assert Evaluable(ps);
    EvaluableAppend(ps, p);
    var qs := ps + [p];
    if ps == [] {
      assert qs == [p];
      assert ToUInt16(c + p.offset) == c + p.offset;
    } else {
      var q := ps[0];
      TailTimes(ps);
      assert qs[0] == q;
      assert qs[1..] == ps[1..] + [p];
      var c' := c + q.offset + q.totalTime;
      ColorFromStep(ps, c, time);
      ColorFromStep(qs, c, time);
      if time >= c' {
        AppendKeepsEarlierFrom(ps[1..], p, c', time);
      }
    }
  }

  lemma AppendTimes(ps: seq<Pattern>, p: Pattern)
    requires NonNegative(ps + [p])
    ensures NonNegative(ps) && p.offset >= 0 && p.totalTime >= 0
    ensures Span(ps + [p]) == Span(ps) + p.offset + p.totalTime
    ensures Start(ps + [p], |ps|) == Span(ps) + p.offset
    ensures End(ps + [p], |ps|) == Span(ps) + p.offset + p.totalTime
  {
    var qs := ps + [p];
    assert qs[|ps|] == p;
    assert NonNegative(ps) by {
      forall k | 0 <= k < |ps| ensures ps[k].offset >= 0 && ps[k].totalTime >= 0 {
        assert qs[k] == ps[k];
      }
    }
    PrefixAppend(ps, p, |ps|);
    PrefixStep(qs, |ps|);
  }

  /** Appending a pattern does not change the colour at any time before the
      end of the earlier patterns. */
  lemma AppendKeepsEarlier(ps: seq<Pattern>, p: Pattern, time: Int16)
    requires WellTimed(ps + [p])
    requires time < Span(ps)
    ensures Evaluable(ps) && Evaluable(ps + [p])
    ensures ColorAt(ps + [p], time) == ColorAt(ps, time)
  {
    AppendTimes(ps, p);
    AppendKeepsEarlierFrom(ps, p, 0, time);
  }

  /** An appended pattern starts where the earlier ones end, after its own
      offset, and plays for its total time. */
  lemma AppendedSegment(ps: seq<Pattern>, p: Pattern, time: Int16)
    requires WellTimed(ps + [p])
    requires Span(ps) + p.offset <= time < Span(ps) + p.offset + p.totalTime
    ensures Evaluable(ps + [p])
    ensures ColorAt(ps + [p], time) == SegmentColor(p, Span(ps) + p.offset + p.totalTime - time)
  {
    AppendTimes(ps, p);
    ColorInSegment(ps + [p], |ps|, time);
    assert (ps + [p])[|ps|] == p;
  }

  /** Black to white over 100 units with mid = 50: black at the first
      instant, white at the peak halfway, and nearly black again at the last
      instant. */
  lemma BlackToWhiteScenario()
    ensures var p := Pattern(100, 50, 0, Black, White, false);
      && Evaluable([p])
      && ColorAt([p], 0) == Black
      && ColorAt([p], 50) == White
      && ColorAt([p], 99) == Color(5, 5, 5)
  {
    var p := Pattern(100, 50, 0, Black, White, false);
    assert Weight(100, 100, 50) == 0.0;
    assert Weight(50, 100, 50) == 1.0;
    assert Weight(1, 100, 50) == 0.02;
  }
}
