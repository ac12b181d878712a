/** The LED table of `led_strip` (design_scene.h:53-62, 80): one record per LED,
    indexed by id, and the value-level effect of the operations that maintain it
    (add_led, led_at_pos, set_led_pos, add_pattern in design_scene.cpp:89-136).
    The methods of LedStrips.LedStrip are proved against these functions. */
module Strip {
  import opened Ints
  import opened Colors
  import opened Patterns
  import opened Timeline

  /** A snapped scene position. Positions compare exactly. */
  datatype Point = Point(x: int, y: int)

  /** led_instance, with the graphics items reduced to what the model reads and
      writes: the brush colour of the LED's ellipse and the text and brush
      colour of its id label. */
  datatype Led = Led(loc: Point, patterns: seq<Pattern>, brush: Color, idText: string, labelBrush: Color)

  /** Some LED sits at loc. */
  predicate Occupied(leds: seq<Led>, loc: Point) {
    exists j :: 0 <= j < |leds| && leds[j].loc == loc
  }

  /** No two LEDs share a location. */
  predicate LocationsDistinct(leds: seq<Led>) {
    forall i, j :: 0 <= i < j < |leds| ==> leds[i].loc != leds[j].loc
  }

  /** Every LED's pattern list can be evaluated by get_color_at_time. */
  predicate Playable(leds: seq<Led>) {
    forall i :: 0 <= i < |leds| ==> Evaluable(leds[i].patterns)
  }

  // ---------------------------------------------------------------------------
  // led_at_pos

  /** The loop of led_at_pos from index i: the first index at or after i whose
      location is loc, or -1 when there is none. */
  function IndexFrom(leds: seq<Led>, loc: Point, i: nat): (r: int)
    requires i <= |leds|
    ensures r == -1 || (i <= r < |leds| && leds[r].loc == loc)
    ensures r != -1 ==> forall j :: i <= j < r ==> leds[j].loc != loc
    ensures r == -1 <==> forall j :: i <= j < |leds| ==> leds[j].loc != loc
    decreases |leds| - i
  {
    if i == |leds| then -1
    else if leds[i].loc == loc then i
    else IndexFrom(leds, loc, i + 1)
  }

  /** led_at_pos: the index found, narrowed to the qint8 it returns. Up to 255
      LEDs, -1 means exactly that no LED is at loc (index 255 would narrow to
      -1); up to 128 LEDs the result is the lowest index whose location is loc. */
  function LedAtPos(leds: seq<Led>, loc: Point): (r: Int8)
    ensures |leds| <= 255 ==> (r == -1 <==> !Occupied(leds, loc))
    ensures |leds| <= 128 && r != -1 ==>
              0 <= r < |leds| && leds[r].loc == loc && forall j :: 0 <= j < r ==> leds[j].loc != loc
  {
    var i := IndexFrom(leds, loc, 0);
    assert i != -1 ==> Occupied(leds, loc);
    ToInt8(i)
  }

  /** With distinct locations, the LED at an id's location is that id. */
  lemma LookupOwnLocation(leds: seq<Led>, id: nat)
    requires |leds| <= 128 && LocationsDistinct(leds) && id < |leds|
    ensures LedAtPos(leds, leds[id].loc) == id
  {
    var r := LedAtPos(leds, leds[id].loc);
    assert Occupied(leds, leds[id].loc);
  }

  // ---------------------------------------------------------------------------
  // add_led

  /** The LED add_led appends: the given location and ellipse brush, no
      patterns, and a black id label showing `id`. */
  function NewLed(loc: Point, brush: Color, id: Int8): (r: Led)
    ensures r.loc == loc && r.patterns == [] && r.brush == brush
    ensures r.labelBrush == Black && r.idText == IntText(id)
  {
    Led(loc, [], brush, IntText(id), Black)
  }

  /** The table after add_led. The label shows num_leds before the append,
      which is the new LED's id narrowed to qint8. */
  function Added(leds: seq<Led>, loc: Point, brush: Color): (r: seq<Led>)
    ensures |r| == |leds| + 1 && r[..|leds|] == leds
    ensures r[|leds|].loc == loc && r[|leds|].patterns == [] && r[|leds|].brush == brush
    ensures r[|leds|].labelBrush == Black && r[|leds|].idText == IntText(ToInt8(|leds|))
  {
    leds + [NewLed(loc, brush, ToInt8(|leds|))]
  }

  /** add_led is called only where led_at_pos finds no LED
      (design_scene.cpp:21-24); then the locations stay distinct. */
  lemma AddWhereAbsentKeepsDistinct(leds: seq<Led>, loc: Point, brush: Color)
    requires |leds| <= 255 && LocationsDistinct(leds) && LedAtPos(leds, loc) == -1
    ensures LocationsDistinct(Added(leds, loc, brush))
  {
    var r := Added(leds, loc, brush);
    forall i, j | 0 <= i < j < |r| ensures r[i].loc != r[j].loc {
      if j < |leds| {
        assert r[i] == leds[i] && r[j] == leds[j];
      } else {
        assert r[i] == leds[i];
      }
    }
  }

  /** After add_led at a free location, led_at_pos finds the new LED there. */
  lemma AddThenLookup(leds: seq<Led>, loc: Point, brush: Color)
    requires |leds| < 128 && !Occupied(leds, loc)
    ensures LedAtPos(Added(leds, loc, brush), loc) == |leds|
  {
    var r := Added(leds, loc, brush);
    var k := LedAtPos(r, loc);
    assert Occupied(r, loc) by { assert r[|leds|].loc == loc; }
    assert forall j :: 0 <= j < |leds| ==> r[j] == leds[j];
  }

  // ---------------------------------------------------------------------------
  // set_led_pos

  /** The table after set_led_pos: unchanged when the table is empty or some
      LED (the moved one included) is already at loc; otherwise only the
      location of LED id changes. */
  function Moved(leds: seq<Led>, id: UInt8, loc: Point): (r: seq<Led>)
    requires leds == [] || Occupied(leds, loc) || id < |leds|
    ensures |r| == |leds|
    ensures forall j :: 0 <= j < |r| && j != id ==> r[j] == leds[j]
    ensures (leds == [] || Occupied(leds, loc)) <==> r == leds
  {
    if leds == [] || Occupied(leds, loc) then leds
    else
      var r := leds[id := leds[id].(loc := loc)];
      assert r[id].loc == loc;
      r
  }

  /** A move to a free location changes exactly LED id's location. */
  lemma MoveToFree(leds: seq<Led>, id: UInt8, loc: Point)
    requires id < |leds| && !Occupied(leds, loc)
    ensures Moved(leds, id, loc)[id] == leds[id].(loc := loc)
  {
  }

  /** set_led_pos keeps the locations distinct. */
  lemma MoveKeepsDistinct(leds: seq<Led>, id: UInt8, loc: Point)
    requires leds == [] || Occupied(leds, loc) || id < |leds|
    requires LocationsDistinct(leds)
    ensures LocationsDistinct(Moved(leds, id, loc))
  {
    var r := Moved(leds, id, loc);
    if r != leds {
      forall i, j | 0 <= i < j < |r| ensures r[i].loc != r[j].loc {
        if i == id {
          assert r[j] == leds[j];
        } else if j == id {
          assert r[i] == leds[i];
        } else {
          assert r[i] == leds[i] && r[j] == leds[j];
        }
      }
    }
  }

  /** After a move to a free location, led_at_pos finds the moved LED there. */
  lemma MoveThenLookup(leds: seq<Led>, id: UInt8, loc: Point)
    requires |leds| <= 128 && id < |leds| && !Occupied(leds, loc) && LocationsDistinct(leds)
    ensures LedAtPos(Moved(leds, id, loc), loc) == id
  {
    var r := Moved(leds, id, loc);
    MoveKeepsDistinct(leds, id, loc);
    assert r[id].loc == loc;
    LookupOwnLocation(r, id);
  }

  // ---------------------------------------------------------------------------
  // add_pattern and get_led_pattern_list

  /** The table after add_pattern: p appended to LED id's list, nothing else changed. */
  function WithPattern(leds: seq<Led>, id: Int8, p: Pattern): (r: seq<Led>)
    requires 0 <= id < |leds|
    ensures |r| == |leds|
    ensures r[id].patterns == leds[id].patterns + [p]
    ensures r[id].loc == leds[id].loc && r[id].brush == leds[id].brush
    ensures r[id].idText == leds[id].idText && r[id].labelBrush == leds[id].labelBrush
    ensures forall j :: 0 <= j < |r| && j != id ==> r[j] == leds[j]
  {
    leds[id := leds[id].(patterns := leds[id].patterns + [p])]
  }

  /** get_led_pattern_list: the pattern list stored for LED id. */
  function PatternList(leds: seq<Led>, id: Int8): (r: seq<Pattern>)
    requires 0 <= id < |leds|
    ensures Playable(leds) ==> Evaluable(r)
  {
    leds[id].patterns
  }

  /** add_pattern does not move any LED, so it keeps the locations distinct. */
  lemma PatternKeepsDistinct(leds: seq<Led>, id: Int8, p: Pattern)
    requires 0 <= id < |leds| && LocationsDistinct(leds)
    ensures LocationsDistinct(WithPattern(leds, id, p))
  {
    var r := WithPattern(leds, id, p);
    forall i, j | 0 <= i < j < |r| ensures r[i].loc != r[j].loc {
      assert r[i].loc == leds[i].loc && r[j].loc == leds[j].loc;
    }
  }

  /** A pattern list read after add_pattern is the earlier list of the same
      LED with p at its end; the other LEDs' lists read back unchanged. */
  lemma AddPatternThenList(leds: seq<Led>, id: Int8, p: Pattern, other: Int8)
    requires 0 <= id < |leds| && 0 <= other < |leds|
    ensures PatternList(WithPattern(leds, id, p), id) == PatternList(leds, id) + [p]
    ensures other != id ==> PatternList(WithPattern(leds, id, p), other) == PatternList(leds, other)
  {
  }

  /** Adding an LED or an evaluable pattern keeps every list evaluable. */
  lemma AddKeepsPlayable(leds: seq<Led>, loc: Point, brush: Color)
    requires Playable(leds)
    ensures Playable(Added(leds, loc, brush))
  {
    var r := Added(leds, loc, brush);
    assert forall i :: 0 <= i < |leds| ==> r[i] == leds[i];
  }

  lemma PatternKeepsPlayable(leds: seq<Led>, id: Int8, p: Pattern)
    requires 0 <= id < |leds| && Playable(leds) && (p.isSolid || p.totalTime >= 0)
    ensures Playable(WithPattern(leds, id, p))
  {
    EvaluableAppend(leds[id].patterns, p);
  }
}
