/** The `led_strip` object (design_scene.h:47-82, design_scene.cpp:83-238):
    the LED table and the counters it updates in place. Each method is proved
    against the function of Strip, Player or Export that says what it does. */
module LedStrips {
  import opened Ints
  import opened Colors
  import opened Patterns
  import opened Timeline
  import opened Strip
  import opened Player
  import opened Export

  class LedStrip {
    /** strip: one entry per LED, indexed by id. */
    var leds: seq<Led>
    /** num_leds (qint8). */
    var numLeds: Int8
    /** global_loop_time (quint8): the loop length in hundreds of time units. */
    var loopTime: UInt8
    /** cnt (quint16): the preview's current time. */
    var cnt: UInt16

    /** num_leds is the table's length, narrowed to qint8. */
    predicate Valid()
      reads this
    {
      numLeds == ToInt8(|leds|)
    }

    /** An empty strip. The loop time and counter, which the program leaves
        uninitialised, start at 0. */
    constructor()
      ensures Valid()
      ensures leds == [] && loopTime == 0 && cnt == 0
    {
      leds := [];
      numLeds := 0;
      loopTime := 0;
      cnt := 0;
    }

    /** add_led: appends a LED at loc whose ellipse has the given brush and
        returns num_leds, the new length (the new id + 1) narrowed to qint8. */
    method AddLed(loc: Point, brush: Color) returns (n: int)
      requires Valid()
      modifies this
      ensures Valid()
      ensures leds == Added(old(leds), loc, brush)
      ensures n == numLeds && n == ToInt8(|old(leds)| + 1)
      ensures |old(leds)| < 127 ==> n == |old(leds)| + 1
      ensures loopTime == old(loopTime) && cnt == old(cnt)
    {
      leds := leds + [NewLed(loc, brush, numLeds)];
      numLeds := ToInt8(|leds|);
      n := numLeds;
    }

    /** set_led_pos: moves LED id to loc unless the strip is empty or some LED
        is already there. */
    method SetLedPos(id: UInt8, loc: Point)
      requires Valid()
      requires leds == [] || Occupied(leds, loc) || id < |leds|
      modifies this
      ensures Valid()
      ensures leds == Moved(old(leds), id, loc)
      ensures numLeds == old(numLeds) && loopTime == old(loopTime) && cnt == old(cnt)
    {
      if |leds| <= 0 {
        return;
      }
      var i := 0;
      while i < |leds|
        invariant 0 <= i <= |leds|
        invariant forall j :: 0 <= j < i ==> leds[j].loc != loc
      {
        if leds[i].loc == loc {
          assert Occupied(leds, loc);
          return;
        }
        i := i + 1;
      }
      leds := leds[id := leds[id].(loc := loc)];
    }

    /** add_pattern: appends p to LED id's pattern list. */
    method AddPattern(id: Int8, p: Pattern)
      requires Valid()
      requires 0 <= id < |leds|
      modifies this
      ensures Valid()
      ensures leds == WithPattern(old(leds), id, p)
      ensures numLeds == old(numLeds) && loopTime == old(loopTime) && cnt == old(cnt)
    {
      leds := leds[id := leds[id].(patterns := leds[id].patterns + [p])];
    }

    /** set_loop_time. */
    method SetLoopTime(l: UInt8)
      requires Valid()
      modifies this
      ensures Valid()
      ensures loopTime == l
      ensures leds == old(leds) && numLeds == old(numLeds) && cnt == old(cnt)
    {
      loopTime := l;
    }

    /** loop_player: one preview tick. Its loop index is a qint8, so the strip
        holds at most 127 LEDs. */
    method LoopPlayer()
      requires Valid()
      requires Playable(leds) && |leds| <= 127
      modifies this
      ensures Valid()
      ensures leds == Repaint(old(leds), ToInt16(old(cnt)))
      ensures cnt == NextCnt(old(cnt), loopTime)
      ensures numLeds == old(numLeds) && loopTime == old(loopTime)
    {
      var t := ToInt16(cnt);
      var i := 0;
      while i < |leds|
        invariant 0 <= i <= |leds| && |leds| == |old(leds)|
        invariant forall j :: 0 <= j < i ==> leds[j] == Repainted(old(leds)[j], ColorAt(old(leds)[j].patterns, t))
        invariant forall j :: i <= j < |leds| ==> leds[j] == old(leds)[j]
        invariant numLeds == old(numLeds) && loopTime == old(loopTime) && cnt == old(cnt)
      {
        var c := ColorAt(leds[i].patterns, t);
        if leds[i].brush != c {
          leds := leds[i := leds[i].(brush := c, labelBrush := Inverse(c))];
        }
        i := i + 1;
      }
      var next := ToUInt16(cnt + 1);
      if next > loopTime * 100 - 1 {
        next := 0;
      }
      cnt := next;
    }

    /** save_to_file: the bytes written to the file. Its LED index is a
        uint8_t passed on as a qint8 id, so the strip holds at most 128 LEDs. */
    method SaveToFile() returns (data: seq<UInt8>)
      requires Playable(leds) && |leds| <= 128
      ensures data == ExportBytes(leds, loopTime)
    {
      data := WriteLog(ColorTable(leds), |leds|, loopTime);
    }

    /** The loops of save_to_file over n LEDs whose colours get_color_at_time
        gives as col. */
    static method WriteLog(col: (nat, int) -> Color, n: nat, loopTime: UInt8) returns (data: seq<UInt8>)
      requires n <= 128
      ensures data == EncodeAll(LogRecords(col, n, loopTime))
    {
      var prev := new Color[n](_ => Black);
      var time := 0;
      data := [];
      while time < loopTime * 100 - 1
        invariant 0 <= time <= Stamp(loopTime)
        invariant data == EncodeAll(ScanRecords(col, n, time))
        invariant forall j :: 0 <= j < n ==> prev[j] == PrevColor(col, j, time)
      {
        data := ScanTime(col, n, prev, time, data);
        EncodeAllConcat(ScanRecords(col, n, time), LedRecords(col, time, n));
        time := time + 1;
      }
      assert time == Stamp(loopTime);
      data := AppendResets(n, time, data);
      EncodeAllConcat(ScanRecords(col, n, time), ResetRecords(n, time));
    }

    /** The inner loop of save_to_file at one time unit: the bytes of a
        record for every LED whose colour differs from its cached one, and
        the cache moved on to this time unit's colours. */
    static method ScanTime(col: (nat, int) -> Color, n: nat, prev: array<Color>, time: nat, data: seq<UInt8>)
      returns (out: seq<UInt8>)
      requires n <= 128 && prev.Length == n
      requires forall j :: 0 <= j < n ==> prev[j] == PrevColor(col, j, time)
      modifies prev
      ensures out == data + EncodeAll(LedRecords(col, time, n))
      ensures forall j :: 0 <= j < n ==> prev[j] == PrevColor(col, j, time + 1)
    {
      var i := 0;
      out := data;
      while i < n
        invariant 0 <= i <= n
        invariant out == data + EncodeAll(LedRecords(col, time, i))
        invariant forall j :: 0 <= j < i ==> prev[j] == PrevColor(col, j, time + 1)
        invariant forall j :: i <= j < n ==> prev[j] == PrevColor(col, j, time)
      {
        var c := col(i, time);
        LedStep(col, time, i);
        if prev[i] != c {
          out := out + Encode(Record(time, i, c));
          prev[i] := c;
        }
        i := i + 1;
      }
    }

    /** The closing loop of save_to_file: a black record for every LED. */
    static method AppendResets(n: nat, time: int, data: seq<UInt8>) returns (out: seq<UInt8>)
      requires n <= 128
      ensures out == data + EncodeAll(ResetRecords(n, time))
    {
      var i := 0;
      out := data;
      assert EncodeAll(ResetRecords(0, time)) == [];
      while i < n
        invariant 0 <= i <= n
        invariant out == data + EncodeAll(ResetRecords(i, time))
      {
        ResetStep(i, time);
        out := out + Encode(Record(time, i, Black));
        i := i + 1;
      }
    }
  }
}
