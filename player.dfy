/** The preview tick `loop_player` (design_scene.cpp:219-238): every LED shows
    its colour at the counter's time, and the counter advances around the loop. */
module Player {
  import opened Ints
  import opened Colors
  import opened Timeline
  import opened Strip

  /** One LED after a tick at colour c: an ellipse showing another colour is
      repainted c and its id label the inverse of c; otherwise nothing changes. */
  function Repainted(l: Led, c: Color): (r: Led)
    ensures r.brush == c
    ensures r != l <==> l.brush != c
    ensures r != l ==> r.labelBrush == Inverse(c)
    ensures r.loc == l.loc && r.patterns == l.patterns && r.idText == l.idText
  {
    if l.brush != c then l.(brush := c, labelBrush := Inverse(c)) else l
  }

  /** The strip after the repaint loop of a tick at time t. */
  function Repaint(leds: seq<Led>, t: Int16): (r: seq<Led>)
    requires Playable(leds)
    ensures |r| == |leds|
    ensures forall i :: 0 <= i < |r| ==> r[i].brush == ColorAt(leds[i].patterns, t)
    ensures forall i :: 0 <= i < |r| ==> (r[i] != leds[i] <==> leds[i].brush != ColorAt(leds[i].patterns, t))
    ensures forall i :: 0 <= i < |r| && r[i] != leds[i] ==> r[i].labelBrush == Inverse(r[i].brush)
    ensures forall i :: 0 <= i < |r| ==>
              r[i].loc == leds[i].loc && r[i].patterns == leds[i].patterns && r[i].idText == leds[i].idText
  {
    seq(|leds|, i requires 0 <= i < |leds| => Repainted(leds[i], ColorAt(leds[i].patterns, t)))
  }

  /** A second repaint at the same time changes nothing. */
  lemma RepaintIdempotent(leds: seq<Led>, t: Int16)
    requires Playable(leds)
    ensures Playable(Repaint(leds, t))
    ensures Repaint(Repaint(leds, t), t) == Repaint(leds, t)
  {
    var r := Repaint(leds, t);
    assert Playable(r) by {
      forall i | 0 <= i < |r| ensures Evaluable(r[i].patterns) {
        assert r[i].patterns == leds[i].patterns;
      }
    }
    var r2 := Repaint(r, t);
    forall i | 0 <= i < |r| ensures r2[i] == r[i] {
      assert r[i].patterns == leds[i].patterns;
    }
  }

  /** The counter after a tick: cnt + 1 (a quint16, so 65535 wraps to 0),
      reset to 0 once it passes loopTime * 100 - 1. */
  function NextCnt(cnt: UInt16, loopTime: UInt8): (r: UInt16)
    ensures r == 0 || r == cnt + 1
    ensures r == cnt + 1 <==> cnt + 1 < loopTime * 100
    ensures loopTime > 0 ==> r < loopTime * 100
  {
    var c := ToUInt16(cnt + 1);
    if c > loopTime * 100 - 1 then 0 else c
  }

  /** The counter after n ticks. */
  function Ticks(cnt: UInt16, loopTime: UInt8, n: nat): UInt16 {
    if n == 0 then cnt else NextCnt(Ticks(cnt, loopTime, n - 1), loopTime)
  }

  /** Inside the loop, each tick moves the counter on by one. */
  lemma {:induction false} TicksCount(cnt: UInt16, loopTime: UInt8, n: nat)
    requires cnt + n < loopTime * 100
    ensures Ticks(cnt, loopTime, n) == cnt + n
  {
    if n > 0 {
      TicksCount(cnt, loopTime, n - 1);
    }
  }

  /** From any counter inside the loop, the tick that passes the loop's last
      time unit loopTime * 100 - 1 restarts the counter at 0; in particular a
      counter started at 0 is back at 0 after loopTime * 100 ticks. */
  lemma TicksWrap(cnt: UInt16, loopTime: UInt8)
    requires loopTime > 0 && cnt < loopTime * 100
    ensures Ticks(cnt, loopTime, loopTime * 100 - cnt) == 0
  {
    TicksCount(cnt, loopTime, loopTime * 100 - cnt - 1);
  }
}
