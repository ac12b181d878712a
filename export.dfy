/** The change log `save_to_file` writes (design_scene.cpp:176-217), as the
    records it emits and their bytes. Time runs from 0 while it is below
    loopTime * 100 - 1; at each time unit the LEDs are visited by ascending id
    and a record is emitted for a LED whose colour differs from the last
    colour emitted for it (black before the first). One black record per LED
    follows, stamped with the time the scan stopped at. */
module Export {
  import opened Ints
  import opened Colors
  import opened Patterns
  import opened Timeline
  import opened Strip

  /** One change: at `time`, LED `led` turns `color`. */
  datatype Record = Record(time: int, led: int, color: Color)

  /** The six bytes of a record: time high byte, time low byte, LED id, red, green, blue. */
  function Encode(r: Record): (b: seq<UInt8>)
    ensures |b| == 6
    ensures 0 <= r.time < 65536 && 0 <= r.led < 256 ==>
              256 * (b[0] as int) + b[1] == r.time && b[2] == r.led
    ensures b[3] == r.color.red && b[4] == r.color.green && b[5] == r.color.blue
  {
    [ToUInt8(r.time / 256), ToUInt8(r.time % 256), ToUInt8(r.led), r.color.red, r.color.green, r.color.blue]
  }

  function EncodeAll(rs: seq<Record>): (b: seq<UInt8>)
    ensures |b| == 6 * |rs|
  {
    if rs == [] then [] else Encode(rs[0]) + EncodeAll(rs[1..])
  }

  /** Reads a byte stream of six-byte records back. */
  function Decode(b: seq<UInt8>): (rs: seq<Record>)
    requires |b| % 6 == 0
    ensures 6 * |rs| == |b|
  {
    if b == [] then []
    else [Record(256 * (b[0] as int) + b[1], b[2], Color(b[3], b[4], b[5]))] + Decode(b[6..])
  }

  /** A record whose time fits in 16 bits and whose LED id fits in a byte. */
  predicate Fits(r: Record) {
    0 <= r.time < 65536 && 0 <= r.led < 256
  }

  lemma {:induction false} EncodeAllAppend(rs: seq<Record>, r: Record)
    ensures EncodeAll(rs + [r]) == EncodeAll(rs) + Encode(r)
  {
    if rs != [] {
      assert (rs + [r])[1..] == rs[1..] + [r];
      EncodeAllAppend(rs[1..], r);
    }
  }

  lemma {:induction false} EncodeAllConcat(rs: seq<Record>, qs: seq<Record>)
    ensures EncodeAll(rs + qs) == EncodeAll(rs) + EncodeAll(qs)
  {
    if rs != [] {
      assert (rs + qs)[1..] == rs[1..] + qs;
      EncodeAllConcat(rs[1..], qs);
    } else {
      assert rs + qs == qs;
    }
  }

  /** Records that fit read back from their bytes unchanged. */
  lemma {:induction false} DecodeEncode(rs: seq<Record>)
    requires forall k :: 0 <= k < |rs| ==> Fits(rs[k])
    ensures Decode(EncodeAll(rs)) == rs
  {
    if rs != [] {
      var b := EncodeAll(rs);
      assert b[..6] == Encode(rs[0]) && b[6..] == EncodeAll(rs[1..]);
      assert Fits(rs[0]);
      DecodeEncode(rs[1..]);
    }
  }

  // ---------------------------------------------------------------------------
  // The scan

  /** get_color_at_time for LED i at time t, for an id of the strip, an
      evaluable pattern list and a qint16 time. Elsewhere the model shows
      black; save_to_file does not, so the export matches the file only on
      strips whose every list is evaluable (Playable). */
  function Col(leds: seq<Led>, i: nat, t: int): Color {
    if i < |leds| && Evaluable(leds[i].patterns) && -32768 <= t < 32768 then ColorAt(leds[i].patterns, t)
    else Black
  }

  /** The colour of every LED at every time, as the scan queries it. */
  function ColorTable(leds: seq<Led>): (nat, int) -> Color {
    (i: nat, t: int) => Col(leds, i, t)
  }

  /** The colour cached for LED i when the scan reaches time t: black at the
      start, afterwards the colour the LED had one time unit earlier. */
  function PrevColor(col: (nat, int) -> Color, i: nat, t: nat): Color {
    if t == 0 then Black else col(i, t - 1)
  }

  predicate Changed(col: (nat, int) -> Color, i: nat, t: nat) {
    col(i, t) != PrevColor(col, i, t)
  }

  /** Records of the inner loop at time t for LEDs 0 .. n-1. */
  function LedRecords(col: (nat, int) -> Color, t: nat, n: nat): seq<Record> {
    if n == 0 then []
    else LedRecords(col, t, n - 1) + (if Changed(col, n - 1, t) then [Record(t, n - 1, col(n - 1, t))] else [])
  }

  /** One step of the inner loop: visiting LED i at time t adds the bytes of
      its record exactly when its colour changed. */
  lemma LedStep(col: (nat, int) -> Color, t: nat, i: nat)
    ensures EncodeAll(LedRecords(col, t, i + 1)) ==
              EncodeAll(LedRecords(col, t, i)) +
              (if Changed(col, i, t) then Encode(Record(t, i, col(i, t))) else [])
  {
    if Changed(col, i, t) {
      EncodeAllAppend(LedRecords(col, t, i), Record(t, i, col(i, t)));
    } else {
      var a := LedRecords(col, t, i);
      assert a + [] == a && EncodeAll(a) + [] == EncodeAll(a);
      assert LedRecords(col, t, i + 1) == a;
    }
  }

  /** Records of the outer loop over n LEDs for times 0 .. T-1. */
  function ScanRecords(col: (nat, int) -> Color, n: nat, T: nat): seq<Record> {
    if T == 0 then [] else ScanRecords(col, n, T - 1) + LedRecords(col, T - 1, n)
  }

  /** Where the scan stops: loopTime * 100 - 1, or 0 when that is negative. */
  function Stamp(loopTime: UInt8): (s: int)
    ensures 0 <= s < 25500
    ensures loopTime > 0 ==> s + 1 == loopTime * 100
    ensures loopTime == 0 ==> s == 0
  {
    if loopTime * 100 - 1 > 0 then loopTime * 100 - 1 else 0
  }

  /** The closing black record of every LED. */
  function ResetRecords(n: nat, stamp: int): (r: seq<Record>)
    ensures |r| == n
    ensures forall k :: 0 <= k < n ==> r[k].time == stamp && r[k].led == k && r[k].color == Black
  {
    seq(n, i => Record(stamp, i, Black))
  }

  /** One step of the closing loop: LED i's black record goes last. */
  lemma ResetStep(i: nat, stamp: int)
    ensures EncodeAll(ResetRecords(i + 1, stamp)) ==
              EncodeAll(ResetRecords(i, stamp)) + Encode(Record(stamp, i, Black))
  {
    assert ResetRecords(i + 1, stamp) == ResetRecords(i, stamp) + [Record(stamp, i, Black)];
    EncodeAllAppend(ResetRecords(i, stamp), Record(stamp, i, Black));
  }

  /** Every record the scan over n LEDs with colours col emits, in order. */
  function LogRecords(col: (nat, int) -> Color, n: nat, loopTime: UInt8): seq<Record> {
    ScanRecords(col, n, Stamp(loopTime)) + ResetRecords(n, Stamp(loopTime))
  }

  /** Every record save_to_file emits for a strip, in order. */
  function ExportRecords(leds: seq<Led>, loopTime: UInt8): (r: seq<Record>)
    ensures |r| >= |leds|
    ensures forall i :: 0 <= i < |leds| ==> r[|r| - |leds| + i] == Record(Stamp(loopTime), i, Black)
  {
    LogRecords(ColorTable(leds), |leds|, loopTime)
  }

  /** The bytes save_to_file writes. */
  function ExportBytes(leds: seq<Led>, loopTime: UInt8): (b: seq<UInt8>)
    ensures |b| == 6 * |ExportRecords(leds, loopTime)|
    ensures |b| % 6 == 0
  {
    var rs := ExportRecords(leds, loopTime);
    SixFold(|rs|);
    EncodeAll(rs)
  }

  lemma SixFold(n: nat)
    ensures (6 * n) % 6 == 0
  {
  }

  // ---------------------------------------------------------------------------
  // What the records are

  lemma {:induction false} LedRecordsMembership(col: (nat, int) -> Color, t: nat, n: nat, r: Record)
    ensures r in LedRecords(col, t, n) <==>
              r.time == t && 0 <= r.led < n && Changed(col, r.led, t) && r.color == col(r.led, t)
  {
    if n > 0 {
      LedRecordsMembership(col, t, n - 1, r);
    }
  }

  /** A record is emitted during the scan of times 0 .. T-1 exactly when its
      LED's colour at its time differs from the colour cached for that LED,
      and it carries the new colour. */
  lemma {:induction false} ScanMembership(col: (nat, int) -> Color, n: nat, T: nat, r: Record)
    ensures r in ScanRecords(col, n, T) <==>
              0 <= r.time < T && 0 <= r.led < n && Changed(col, r.led, r.time) && r.color == col(r.led, r.time)
  {
    if T > 0 {
      var news := 0 <= r.time && 0 <= r.led < n && Changed(col, r.led, r.time) && r.color == col(r.led, r.time);
      var inBefore, inNow := r in ScanRecords(col, n, T - 1), r in LedRecords(col, T - 1, n);
      assert inBefore <==> r.time < T - 1 && news by {
        ScanMembership(col, n, T - 1, r);
      }
      assert inNow <==> r.time == T - 1 && news by {
        LedRecordsMembership(col, T - 1, n, r);
      }
      ScanSplit(col, n, T, r);
    }
  }

  /** The scan up to T holds a record exactly when the scan up to T - 1 or the
      inner loop at T - 1 does. */
  lemma ScanSplit(col: (nat, int) -> Color, n: nat, T: nat, r: Record)
    requires T > 0
    ensures r in ScanRecords(col, n, T) <==> r in ScanRecords(col, n, T - 1) || r in LedRecords(col, T - 1, n)
  {
    assert ScanRecords(col, n, T) == ScanRecords(col, n, T - 1) + LedRecords(col, T - 1, n);
  }

  /** The last colour emitted for LED i in rs, or black if none was. */
  function LastColor(rs: seq<Record>, i: int): Color {
    if rs == [] then Black
    else if rs[|rs| - 1].led == i then rs[|rs| - 1].color
    else LastColor(rs[..|rs| - 1], i)
  }

  lemma {:induction false} LastColorLedRecords(col: (nat, int) -> Color, a: seq<Record>, t: nat, n: nat, i: nat)
    ensures LastColor(a + LedRecords(col, t, n), i) ==
              if i < n && Changed(col, i, t) then col(i, t) else LastColor(a, i)
  {
    if n > 0 {
      var front := LedRecords(col, t, n - 1);
      var c := col(n - 1, t);
      LastColorLedRecords(col, a, t, n - 1, i);
      if Changed(col, n - 1, t) {
        var s := (a + front) + [Record(t, n - 1, c)];
        assert a + LedRecords(col, t, n) == s;
        assert s[..|s| - 1] == a + front;
        assert s[|s| - 1] == Record(t, n - 1, c);
        if n - 1 == i {
          assert LastColor(s, i) == c;
        } else {
          assert LastColor(s, i) == LastColor(a + front, i);
        }
      } else {
        assert a + LedRecords(col, t, n) == a + front;
      }
    } else {
      assert a + LedRecords(col, t, n) == a;
    }
  }

  /** The cache of previous colours: when the scan reaches time T, the last
      colour it emitted for LED i is the colour the LED had at T - 1 (black at
      T = 0). */
  lemma {:induction false} ScanCache(col: (nat, int) -> Color, n: nat, T: nat, i: nat)
    requires i < n
    ensures LastColor(ScanRecords(col, n, T), i) == PrevColor(col, i, T)
  {
    if T > 0 {
      var before := ScanRecords(col, n, T - 1);
      assert ScanRecords(col, n, T) == before + LedRecords(col, T - 1, n);
      ScanCache(col, n, T - 1, i);
      LastColorLedRecords(col, before, T - 1, n, i);
    }
  }

  /** The record test of the inner loop, stated on the records themselves: at
      time t, LED i gets a record exactly when its colour differs from the last
      colour emitted for it so far, and the record carries that colour. */
  lemma EmitIffDiffersFromLastEmitted(col: (nat, int) -> Color, n: nat, t: nat, i: nat)
    requires i < n
    ensures Changed(col, i, t) <==>
              col(i, t) != LastColor(ScanRecords(col, n, t) + LedRecords(col, t, i), i)
    ensures Changed(col, i, t) <==> Record(t, i, col(i, t)) in ScanRecords(col, n, t + 1)
  {
    LastColorLedRecords(col, ScanRecords(col, n, t), t, i, i);
    ScanCache(col, n, t, i);
    ScanMembership(col, n, t + 1, Record(t, i, col(i, t)));
  }

  // ---------------------------------------------------------------------------
  // Order

  /** r comes before s: an earlier time, or the same time and a lower LED id. */
  predicate Before(r: Record, s: Record) {
    r.time < s.time || (r.time == s.time && r.led < s.led)
  }

  predicate Ordered(rs: seq<Record>) {
    forall a, b :: 0 <= a < b < |rs| ==> Before(rs[a], rs[b])
  }

  lemma OrderedAppend(xs: seq<Record>, ys: seq<Record>)
    requires Ordered(xs) && Ordered(ys)
    requires forall a, b :: 0 <= a < |xs| && 0 <= b < |ys| ==> Before(xs[a], ys[b])
    ensures Ordered(xs + ys)
  {
    var zs := xs + ys;
    forall a, b | 0 <= a < b < |zs| ensures Before(zs[a], zs[b]) {
      if b < |xs| {
        assert zs[a] == xs[a] && zs[b] == xs[b];
      } else if a >= |xs| {
        assert zs[a] == ys[a - |xs|] && zs[b] == ys[b - |xs|];
      } else {
        assert zs[a] == xs[a] && zs[b] == ys[b - |xs|];
      }
    }
  }

  lemma {:induction false} LedRecordsOrdered(col: (nat, int) -> Color, t: nat, n: nat)
    ensures Ordered(LedRecords(col, t, n))
    ensures forall k :: 0 <= k < |LedRecords(col, t, n)| ==>
              LedRecords(col, t, n)[k].time == t && 0 <= LedRecords(col, t, n)[k].led < n
  {
    if n > 0 {
      LedRecordsOrdered(col, t, n - 1);
      var front := LedRecords(col, t, n - 1);
      var last := if Changed(col, n - 1, t) then [Record(t, n - 1, col(n - 1, t))] else [];
      OrderedAppend(front, last);
    }
  }

  /** The scan emits records in increasing (time, LED id) order, all before T. */
  lemma {:induction false} ScanOrdered(col: (nat, int) -> Color, n: nat, T: nat)
    ensures Ordered(ScanRecords(col, n, T))
    ensures forall k :: 0 <= k < |ScanRecords(col, n, T)| ==>
              0 <= ScanRecords(col, n, T)[k].time < T && 0 <= ScanRecords(col, n, T)[k].led < n
  {
    if T > 0 {
      ScanOrdered(col, n, T - 1);
      LedRecordsOrdered(col, T - 1, n);
      OrderedAppend(ScanRecords(col, n, T - 1), LedRecords(col, T - 1, n));
    }
  }

  /** The whole export is in increasing (time, LED id) order, so its time
      stamps never decrease, and it ends with one black record per LED at the
      stop time. */
  lemma ExportShape(leds: seq<Led>, loopTime: UInt8)
    ensures Ordered(ExportRecords(leds, loopTime))
    ensures var e := ExportRecords(leds, loopTime);
            |e| >= |leds| &&
            forall i :: 0 <= i < |leds| ==> e[|e| - |leds| + i] == Record(Stamp(loopTime), i, Black)
  {
    var s := Stamp(loopTime);
    var col := ColorTable(leds);
    ScanOrdered(col, |leds|, s);
    OrderedAppend(ScanRecords(col, |leds|, s), ResetRecords(|leds|, s));
  }

  /** With at most 256 LEDs every record fits its six bytes, so the bytes
      read back as the records. */
  lemma ExportDecodes(leds: seq<Led>, loopTime: UInt8)
    requires |leds| <= 256
    ensures Decode(ExportBytes(leds, loopTime)) == ExportRecords(leds, loopTime)
  {
    var s := Stamp(loopTime);
    var col := ColorTable(leds);
    ScanOrdered(col, |leds|, s);
    var scan := ScanRecords(col, |leds|, s);
    var e := ExportRecords(leds, loopTime);
    forall k | 0 <= k < |e| ensures Fits(e[k]) {
      if k >= |scan| {
        assert e[k] == ResetRecords(|leds|, s)[k - |scan|];
      } else {
        assert e[k] == scan[k];
      }
    }
    DecodeEncode(e);
  }

  /** The table the scan queries is get_color_at_time of each LED. */
  lemma ColorTableIsColorAt(leds: seq<Led>, i: nat, t: Int16)
    requires Playable(leds) && i < |leds|
    ensures ColorTable(leds)(i, t) == ColorAt(leds[i].patterns, t)
  {
  }

  /** While no LED changes colour, the scan emits nothing. */
  lemma {:induction false} ScanQuiet(col: (nat, int) -> Color, n: nat, a: nat, b: nat)
    requires a <= b
    requires forall t, i :: a <= t < b && 0 <= i < n ==> !Changed(col, i, t)
    ensures ScanRecords(col, n, b) == ScanRecords(col, n, a)
    decreases b - a
  {
    if a < b {
      ScanQuiet(col, n, a, b - 1);
      QuietTime(col, b - 1, n);
      assert ScanRecords(col, n, b) == ScanRecords(col, n, b - 1) + [];
    }
  }

  lemma {:induction false} QuietTime(col: (nat, int) -> Color, t: nat, n: nat)
    requires forall i :: 0 <= i < n ==> !Changed(col, i, t)
    ensures LedRecords(col, t, n) == []
  {
    if n > 0 {
      QuietTime(col, t, n - 1);
    }
  }

  /** The colours of an LED whose only pattern is solid red for 100 time
      units from 0: red before 100, black from then on. */
  lemma SolidRedColors(l: Led)
    requires l.patterns == [Pattern(100, 50, 0, Color(255, 0, 0), Black, true)]
    ensures forall t :: 0 <= t < 100 ==> ColorTable([l])(0, t) == Color(255, 0, 0)
    ensures forall t :: 100 <= t < 32768 ==> ColorTable([l])(0, t) == Black
  {
    var ps := l.patterns;
    assert Prefix(ps, 0) == 0;
    PrefixStep(ps, 0);
    assert Span(ps) == 100 && Start(ps, 0) == 0 && End(ps, 0) == 100;
    assert WellTimed(ps);
    forall t: Int16 | 0 <= t < 100 ensures ColorAt(ps, t) == Color(255, 0, 0) {
      SolidSegment(ps, 0, t);
    }
    forall t: Int16 | 100 <= t ensures ColorAt(ps, t) == Black {
      BlackAfterSpan(ps, t);
    }
  }

  /** The scan of one LED that is red for times 0 .. 99: a single red record at 0. */
  lemma RedPhase(col: (nat, int) -> Color)
    requires forall t :: 0 <= t < 100 ==> col(0, t) == Color(255, 0, 0)
    ensures ScanRecords(col, 1, 100) == [Record(0, 0, Color(255, 0, 0))]
  {
    var red := Color(255, 0, 0);
    assert LedRecords(col, 0, 1) == [Record(0, 0, red)] by {
      assert Changed(col, 0, 0);
    }
    assert ScanRecords(col, 1, 1) == [Record(0, 0, red)];
    forall t, i | 1 <= t < 100 && 0 <= i < 1 ensures !Changed(col, i, t) {
      assert col(0, t) == red && col(0, t - 1) == red;
    }
    ScanQuiet(col, 1, 1, 100);
  }

  /** The scan continued while the LED is black from 100 on: one black record
      at 100, then nothing up to 299. */
  lemma BlackPhase(col: (nat, int) -> Color)
    requires col(0, 99) == Color(255, 0, 0)
    requires forall t :: 100 <= t < 32768 ==> col(0, t) == Black
    ensures ScanRecords(col, 1, 299) == ScanRecords(col, 1, 100) + [Record(100, 0, Black)]
  {
    assert LedRecords(col, 100, 1) == [Record(100, 0, Black)] by {
      assert col(0, 100) == Black;
    }
    assert ScanRecords(col, 1, 101) == ScanRecords(col, 1, 100) + [Record(100, 0, Black)];
    forall t, i | 101 <= t < 299 && 0 <= i < 1 ensures !Changed(col, i, t) {
      assert col(0, t) == Black && col(0, t - 1) == Black;
    }
    ScanQuiet(col, 1, 101, 299);
  }

  /** The log of one LED that is red for times 0 .. 99 and black from 100 on,
      in a loop of 3 (hundred) units. */
  lemma RedThenBlackLog(col: (nat, int) -> Color)
    requires forall t :: 0 <= t < 100 ==> col(0, t) == Color(255, 0, 0)
    requires forall t :: 100 <= t < 32768 ==> col(0, t) == Black
    ensures LogRecords(col, 1, 3) ==
              [Record(0, 0, Color(255, 0, 0)), Record(100, 0, Black), Record(299, 0, Black)]
  {
    RedPhase(col);
    BlackPhase(col);
    assert Stamp(3) == 299;
    assert ResetRecords(1, 299) == [Record(299, 0, Black)];
  }

  lemma EncodeThree(a: Record, b: Record, c: Record)
    ensures EncodeAll([a, b, c]) == Encode(a) + Encode(b) + Encode(c)
  {
    assert [a, b, c][1..] == [b, c] && [b, c][1..] == [c] && [c][1..] == [];
    assert EncodeAll([c]) == Encode(c);
    assert EncodeAll([b, c]) == Encode(b) + Encode(c);
  }

  /** The bytes of that log: time 299 is written as the bytes 1 and 43. */
  lemma RedThenBlackBytes()
    ensures EncodeAll([Record(0, 0, Color(255, 0, 0)), Record(100, 0, Black), Record(299, 0, Black)]) ==
              [0, 0, 0, 255, 0, 0,  0, 100, 0, 0, 0, 0,  1, 43, 0, 0, 0, 0]
  {
    EncodeThree(Record(0, 0, Color(255, 0, 0)), Record(100, 0, Black), Record(299, 0, Black));
  }

  /** One LED whose only pattern is solid red for 100 time units from 0, in a
      loop of 3 (hundred) units: it turns red at 0 and black at 100, and is
      reset to black at 299, the time the scan stops at; 18 bytes in all. */
  lemma SolidRedExport(l: Led)
    requires l.patterns == [Pattern(100, 50, 0, Color(255, 0, 0), Black, true)]
    ensures ExportRecords([l], 3) ==
              [Record(0, 0, Color(255, 0, 0)), Record(100, 0, Black), Record(299, 0, Black)]
    ensures ExportBytes([l], 3) == [0, 0, 0, 255, 0, 0,  0, 100, 0, 0, 0, 0,  1, 43, 0, 0, 0, 0]
  {
    SolidRedColors(l);
    RedThenBlackLog(ColorTable([l]));
    RedThenBlackBytes();
  }
}
