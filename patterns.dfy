/** The `pattern` record of design_scene.h: one timed colour segment of an
    LED, and the text `toString` shows for it in the pattern list. */
module Patterns {
  import opened Ints
  import opened Colors
  import opened Wrappers

  /** Field widths are those of the record: total_time, mid and offset are qint8. */
  datatype Pattern = Pattern(
    totalTime: Int8,
    mid: Int8,
    offset: Int8,
    startColor: Color,
    endColor: Color,
    isSolid: bool)

  /** The five-argument constructor. It leaves is_solid unset; the value that
      field happens to hold is passed in explicitly as `unsetIsSolid`. */
  function NewPattern(totalTime: Int8, mid: Int8, offset: Int8, startColor: Color, endColor: Color,
                      unsetIsSolid: bool): (p: Pattern)
    ensures p.totalTime == totalTime && p.mid == mid && p.offset == offset
    ensures p.startColor == startColor && p.endColor == endColor
    ensures p.isSolid == unsetIsSolid
  {
    Pattern(totalTime, mid, offset, startColor, endColor, unsetIsSolid)
  }

  /** The text of a pattern in the pattern list. */
  function ToString(p: Pattern): (s: string)
    ensures |s| > 9
    ensures s[..7] == "Solid:\n" <==> p.isSolid
    ensures !p.isSolid ==> s[..9] == "Pattern:\n"
  {
    if p.isSolid then
      "Solid:\n" + (Name(p.startColor) + "," + (IntText(p.totalTime) + "," + IntText(p.offset)))
    else
      var s := "Pattern:\n" + (Name(p.startColor) + "," + (Name(p.endColor) + "," +
               (IntText(p.totalTime) + "," + (IntText(p.offset) + "," + IntText(p.mid)))));
      assert s[0] == 'P';
      s
  }

  // ---------------------------------------------------------------------------
  // What the text shows of a pattern, and a reader for it

  /** The fields the text of a pattern records. */
  datatype Summary =
    | SolidSummary(start: Color, totalTime: int, offset: int)
    | BlendSummary(start: Color, end: Color, totalTime: int, offset: int, mid: int)

  function Summarize(p: Pattern): Summary {
    if p.isSolid then SolidSummary(p.startColor, p.totalTime, p.offset)
    else BlendSummary(p.startColor, p.endColor, p.totalTime, p.offset, p.mid)
  }

  /** The comma-separated fields of s, in order; a string without a comma is one field. */
  function SplitComma(s: string): (fields: seq<string>)
    ensures |fields| >= 1
  {
    if s == [] then [""]
    else
      var rest := SplitComma(s[1..]);
      if s[0] == ',' then [""] + rest else [[s[0]] + rest[0]] + rest[1..]
  }

  function ParseSolidFields(f: seq<string>): Option<Summary> {
    if |f| != 3 then None
    else
      var c, t, o := ParseName(f[0]), ParseInt(f[1]), ParseInt(f[2]);
      if c.Some? && t.Some? && o.Some? then Some(SolidSummary(c.value, t.value, o.value)) else None
  }

  function ParseBlendFields(f: seq<string>): Option<Summary> {
    if |f| != 5 then None
    else
      var c, e, t, o, m := ParseName(f[0]), ParseName(f[1]), ParseInt(f[2]), ParseInt(f[3]), ParseInt(f[4]);
      if c.Some? && e.Some? && t.Some? && o.Some? && m.Some? then
        Some(BlendSummary(c.value, e.value, t.value, o.value, m.value))
      else None
  }

  /** Reads the text written by ToString back into the fields it records. */
  function ParseText(s: string): Option<Summary> {
    if |s| >= 7 && s[..7] == "Solid:\n" then ParseSolidFields(SplitComma(s[7..]))
    else if |s| >= 9 && s[..9] == "Pattern:\n" then ParseBlendFields(SplitComma(s[9..]))
    else None
  }

  lemma {:induction false} SplitNoComma(a: string)
    requires ',' !in a
    ensures SplitComma(a) == [a]
    decreases |a|
  {
    if a != [] {
      assert ',' !in a[1..] by {
        forall k | 0 <= k < |a[1..]| ensures a[1..][k] != ',' {
          assert a[1..][k] == a[k + 1];
        }
      }
      SplitNoComma(a[1..]);
      assert [a[0]] + a[1..] == a;
    }
  }

  lemma {:induction false} SplitAtComma(a: string, b: string)
    requires ',' !in a
    ensures SplitComma(a + "," + b) == [a] + SplitComma(b)
    decreases |a|
  {
    var s := a + "," + b;
    if a == [] {
      assert s[1..] == b;
    } else {
      assert s[1..] == a[1..] + "," + b;
      assert ',' !in a[1..] by {
        forall k | 0 <= k < |a[1..]| ensures a[1..][k] != ',' {
          assert a[1..][k] == a[k + 1];
        }
      }
      SplitAtComma(a[1..], b);
      assert [a[0]] + a[1..] == a;
    }
  }

  /** A header followed by a tail splits back into the two. */
  lemma HeaderThenTail(h: string, tail: string)
    ensures (h + tail)[..|h|] == h && (h + tail)[|h|..] == tail
  {
  }

  /** A solid pattern's text is its header followed by three comma-separated fields. */
  lemma SolidTextFields(p: Pattern)
    requires p.isSolid
    ensures var s := ToString(p);
      |s| >= 7 && s[..7] == "Solid:\n" &&
      SplitComma(s[7..]) == [Name(p.startColor), IntText(p.totalTime), IntText(p.offset)]
  {
    var n, t, o := Name(p.startColor), IntText(p.totalTime), IntText(p.offset);
    HeaderThenTail("Solid:\n", n + "," + (t + "," + o));
    SplitAtComma(n, t + "," + o);
    SplitAtComma(t, o);
    SplitNoComma(o);
  }

  lemma ParseSolidText(p: Pattern)
    requires p.isSolid
    ensures ParseText(ToString(p)) == Some(Summarize(p))
  {
    SolidTextFields(p);
    ParseNameOfName(p.startColor);
    ParseIntText(p.totalTime);
    ParseIntText(p.offset);
  }

  lemma SplitBlendTail(n: string, e: string, t: string, o: string, m: string)
    requires ',' !in n && ',' !in e && ',' !in t && ',' !in o && ',' !in m
    ensures SplitComma(n + "," + (e + "," + (t + "," + (o + "," + m)))) == [n, e, t, o, m]
  {
    SplitAtComma(n, e + "," + (t + "," + (o + "," + m)));
    SplitAtComma(e, t + "," + (o + "," + m));
    SplitAtComma(t, o + "," + m);
    SplitAtComma(o, m);
    SplitNoComma(m);
  }

  /** Any other pattern's text is its own header followed by five fields. */
  lemma BlendTextFields(p: Pattern)
    requires !p.isSolid
    ensures var s := ToString(p);
      |s| >= 9 && s[..7] != "Solid:\n" && s[..9] == "Pattern:\n" &&
      SplitComma(s[9..]) == [Name(p.startColor), Name(p.endColor),
                             IntText(p.totalTime), IntText(p.offset), IntText(p.mid)]
  {
    var n, e := Name(p.startColor), Name(p.endColor);
    var t, o, m := IntText(p.totalTime), IntText(p.offset), IntText(p.mid);
    var tail := n + "," + (e + "," + (t + "," + (o + "," + m)));
    HeaderThenTail("Pattern:\n", tail);
    SplitBlendTail(n, e, t, o, m);
  }

  lemma ParseBlendText(p: Pattern)
    requires !p.isSolid
    ensures ParseText(ToString(p)) == Some(Summarize(p))
  {
    BlendTextFields(p);
    ParseNameOfName(p.startColor);
    ParseNameOfName(p.endColor);
    ParseIntText(p.totalTime);
    ParseIntText(p.offset);
    ParseIntText(p.mid);
  }

  /** The text of a pattern reads back as exactly the fields it records: a solid
      pattern's text names its start colour, total time and offset and nothing
      else; any other pattern's text adds the end colour and mid. */
  lemma ParseToString(p: Pattern)
    ensures ParseText(ToString(p)) == Some(Summarize(p))
  {
    if p.isSolid { ParseSolidText(p); } else { ParseBlendText(p); }
  }

  /** A solid pattern's text does not depend on its end colour or mid. */
  lemma SolidTextIgnoresEndAndMid(p: Pattern, endColor: Color, mid: Int8)
    requires p.isSolid
    ensures ToString(p.(endColor := endColor, mid := mid)) == ToString(p)
    ensures Summarize(p) == SolidSummary(p.startColor, p.totalTime, p.offset)
  {
  }

  /** Patterns whose texts are equal agree on every field their texts record. */
  lemma ToStringInjective(p: Pattern, q: Pattern)
    requires ToString(p) == ToString(q)
    ensures Summarize(p) == Summarize(q)
  {
    ParseToString(p);
    ParseToString(q);
  }
}
