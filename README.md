# ProfiLED LED strip model

ProfiLED is a Qt designer for animated LED strips. The user places LEDs on a
grid and gives each one a list of timed colour patterns. The designer can
preview the animation and save it as a compact change log for a
microcontroller. This project models the part that does the work: the
`led_strip` class and the `pattern` record (`design_scene.cpp`,
`design_scene.h`). It proves properties of that model in Dafny.

The modules:

- `Ints`: the fixed-width integers of the source (`qint8`, `quint8`, `qint16`, `quint16`, `uint8_t`), their wrap-around conversions, and decimal text with its reader.
- `Colors`: RGB colours. This covers the inverse colour of an id label and the `#rrggbb` name that `QColor::name()` gives, with a reader for it.
- `Patterns`: the `pattern` record, its constructor and `toString`, and a reader that recovers the fields the text records.
- `Timeline`: `get_color_at_time` over one LED's pattern list, including the `quint16` running total and the rise-to-`mid`-and-decay blend. The blend uses exact reals. Each channel is truncated to an integer, as the conversion of the `double` channel value to `QColor`'s `int` argument truncates (design_scene.cpp:167-169).
- `Strip`: the LED table as a value. It covers `led_at_pos` and the effect of `add_led`, `set_led_pos`, `add_pattern` and `get_led_pattern_list`. Locations stay distinct.
- `Player`: one preview tick of `loop_player`. Each LED is repainted to its colour at the counter's time, and the counter wraps around the loop.
- `Export`: the change log `save_to_file` writes, as records and as six-byte groups. It covers which records are emitted, their order, the closing black records and the byte layout.
- `LedStrips`: the class `LedStrip`. Its methods update the table, the loop time and the counter in place, and the log is written with loops over a `prev` colour array as in the source. Each method is proved against the functions above.

A few places where the code does something other than what a reader might expect; the model follows the code in each:

- The export scan visits times `0 .. loopTime*100 - 2`, because the loop condition is `time_stamp < loopTime*100 - 1`. The closing black records are stamped `loopTime*100 - 1`, or 0 when the loop time is 0. The preview counter does reach `loopTime*100 - 1`.
- `mid` needs no range restriction for the blend to be defined. For any `qint8` mid the branch taken never divides by zero. At `mid = 100` the first instant of a segment shows the end colour, not the start colour.
- `led_at_pos` returns its `int` index narrowed to `qint8`. "-1 exactly when no LED is there" holds for up to 255 LEDs; "the lowest index at that place" holds for up to 128.
- `add_led` returns `num_leds` after the append, which is the new length (new id + 1) narrowed to `qint8`, not the new id.
- `loop_player` indexes the strip with a `qint8`, so it needs at most 127 LEDs. `save_to_file` indexes with a `uint8_t` and passes it on as a `qint8` id, so it needs at most 128 LEDs.
- A pattern's `total_time`, `offset` and `mid` are `qint8`. The designer offers total times up to `loopTime*100` minus the time already used (profiled_designer.cpp:88) and stores the spin box value in the `qint8` field (profiled_designer.cpp:168). The store wraps modulo 256 (`Ints.ToInt8`): an entered total time whose remainder modulo 256 is 128 or more (128-255, 384-511, ...) is stored negative, and any other entry above 127 wraps to a shorter, non-negative time (300 is stored as 44).
- The `pattern` constructor leaves `is_solid` unset, and the `led_strip` constructor leaves `cnt` and `global_loop_time` unset. The model passes the unset flag explicitly and starts both counters at 0.

## Model

| member | source | states |
|---|---|---|
| Ints.ToInt8 | design_scene.h:78 | narrowing to `qint8` keeps values in [-128, 128) and otherwise agrees with the input modulo 256 |
| Ints.ToUInt16 | design_scene.cpp:140-149 | assignment to a `quint16` keeps values in [0, 65536) and otherwise agrees modulo 65536 |
| Ints.IntText | design_scene.h:36-40 | the decimal text of a `qint8` field is non-empty and holds no comma, so it stays one field of the pattern text |
| Ints.ParseIntText | design_scene.h:36-40 | the decimal text `toString` writes for a `qint8` field reads back as that number, sign included |
| Colors.Inverse | design_scene.cpp:229-231 | each channel of the id label colour is 255 minus the LED's channel |
| Colors.Name | design_scene.h:36-39 | a colour's name is seven characters, `#` first, with no comma |
| Colors.ParseNameOfName | design_scene.h:36-39 | the `#rrggbb` name of a colour reads back as that colour, so distinct colours have distinct names |
| Patterns.NewPattern | design_scene.h:18-24 | the five-argument constructor stores total time, mid, offset, start and end colour verbatim; `is_solid` is whatever was there |
| Patterns.ToString | design_scene.h:32-43 | the text begins `Solid:\n` exactly when the pattern is solid, and `Pattern:\n` otherwise |
| Patterns.SolidTextFields | design_scene.h:35-37 | a solid pattern's text is `Solid:\n` followed by exactly three comma-separated fields: start colour name, total time, offset |
| Patterns.BlendTextFields | design_scene.h:38-41 | any other pattern's text is `Pattern:\n` followed by exactly five fields: start name, end name, total time, offset, mid |
| Patterns.ParseToString | design_scene.h:32-43 | the text of every pattern reads back as exactly the fields it records |
| Patterns.SolidTextIgnoresEndAndMid | design_scene.h:35-37 | a solid pattern's text does not depend on its end colour or mid |
| Patterns.ToStringInjective | design_scene.h:32-43 | two patterns with the same text agree on the kind and on every field the text records |
| Timeline.Weight | design_scene.cpp:156-165 | the blend weight lies in [0, 1] for every `mid`, with no division by zero |
| Timeline.Mix | design_scene.cpp:167-169 | a blended and truncated channel lies between the start and end channel; weight 0 gives the start channel, weight 1 the end channel |
| Timeline.SegmentColor | design_scene.cpp:150-169 | inside a segment the colour lies channel-wise between the pattern's start and end colour, and a solid pattern gives exactly its start colour |
| Timeline.ColorFrom | design_scene.cpp:140-173 | from any running total, with every addition wrapping modulo 65536, the loop yields black or a colour between the start and end colour of one of the patterns it walks |
| Timeline.ColorAt | design_scene.cpp:138-174 | the colour at any time is black or lies between the start and end colour of one of the LED's patterns |
| Timeline.ColorInSegment | design_scene.cpp:143-169 | inside pattern k's segment `[start, start + total_time)` the colour is pattern k's colour for the time left in the segment |
| Timeline.ColorOutsideSegments | design_scene.cpp:145-148 | at a time outside every segment the colour is black |
| Timeline.BlackInOffsetGap | design_scene.cpp:145-148 | in the offset gap before any pattern the colour is black |
| Timeline.BlackAfterSpan | design_scene.cpp:143-173 | at or after the end of the last pattern, and for an empty list, the colour is black |
| Timeline.SolidSegment | design_scene.cpp:149-153 | throughout a solid segment the colour is exactly the start colour |
| Timeline.BlendBeginsAtStartColor | design_scene.cpp:154-169 | at the first instant of a non-solid segment with mid < 100 the colour is the start colour |
| Timeline.BlendPeaksAtEndColor | design_scene.cpp:156-169 | when the remaining fraction of a non-solid segment equals mid / 100 the colour is the end colour |
| Timeline.AppendKeepsEarlier | design_scene.cpp:133-174 | appending a pattern does not change the colour at any time before the end of the earlier patterns |
| Timeline.AppendedSegment | design_scene.cpp:133-174 | an appended pattern plays right after the earlier ones and its own offset |
| Timeline.BlackToWhiteScenario | design_scene.cpp:154-169 | black to white over 100 units with mid 50 is black at 0, white at 50 and (5, 5, 5) at 99 |
| Strip.IndexFrom | design_scene.cpp:104-109 | the search loop finds the first index whose location matches, and gives -1 exactly when none does |
| Strip.LedAtPos | design_scene.cpp:102-110 | -1 exactly when no LED is at the place (up to 255 LEDs); otherwise the lowest index there (up to 128 LEDs) |
| Strip.LookupOwnLocation | design_scene.cpp:102-110 | with distinct locations, looking up an LED's own location gives its id |
| Strip.NewLed | design_scene.cpp:92-96 | the appended LED has the given location and brush, no patterns, a black label and the given id as its label text |
| Strip.Added | design_scene.cpp:89-100 | `add_led` appends exactly one LED with the given location and brush, no patterns and a black label with its id; earlier LEDs are unchanged |
| Strip.AddWhereAbsentKeepsDistinct | design_scene.cpp:21-24 | for up to 255 LEDs, adding an LED only where `led_at_pos` finds none keeps the locations pairwise distinct (with 256, index 255 narrows to -1 and would read as absent) |
| Strip.AddThenLookup | design_scene.cpp:89-110 | after adding at a free place, `led_at_pos` there gives the new LED's id |
| Strip.Moved | design_scene.cpp:117-131 | `set_led_pos` leaves the table unchanged exactly when it is empty or some LED (the moved one included) is at the target; otherwise only LED id changes |
| Strip.MoveToFree | design_scene.cpp:128-130 | a move to a free place changes exactly the moved LED's location, to the target |
| Strip.MoveKeepsDistinct | design_scene.cpp:117-131 | `set_led_pos` keeps the locations pairwise distinct |
| Strip.MoveThenLookup | design_scene.cpp:117-131 | after a move to a free place, `led_at_pos` there gives the moved LED's id |
| Strip.WithPattern | design_scene.cpp:133-136 | `add_pattern` appends the pattern to the end of one LED's list and changes nothing else |
| Strip.PatternList | design_scene.h:69-72 | `get_led_pattern_list` returns LED id's stored list, which is evaluable on a playable strip; its contents after `add_pattern` are stated by `Strip.AddPatternThenList` |
| Strip.AddPatternThenList | design_scene.h:69-72 | the list read back after `add_pattern` is the old list plus the new pattern; other LEDs' lists are unchanged |
| Strip.PatternKeepsDistinct | design_scene.cpp:133-136 | `add_pattern` keeps the locations pairwise distinct |
| Strip.AddKeepsPlayable | design_scene.cpp:89-100 | a new LED (no patterns) keeps every list evaluable |
| Strip.PatternKeepsPlayable | design_scene.cpp:133-136 | appending an evaluable pattern keeps every list evaluable |
| Player.Repaint | design_scene.cpp:223-233 | after the repaint loop every LED's brush is its colour at the tick's time, exactly the LEDs whose brush differed are changed, a changed LED's label is the inverse colour, and locations, patterns and ids are unchanged |
| Player.Repainted | design_scene.cpp:225-232 | after a tick at colour c the ellipse shows c; the LED changes exactly when its ellipse showed another colour, and then its label becomes the inverse of c; location, patterns and id text are kept |
| Player.RepaintIdempotent | design_scene.cpp:223-233 | a second repaint at the same time changes nothing |
| Player.NextCnt | design_scene.cpp:234-237 | the counter becomes cnt + 1 exactly when that is inside the loop and 0 otherwise, so it stays in [0, loopTime*100) when the loop time is positive |
| Player.TicksCount | design_scene.cpp:234-237 | inside the loop, n ticks advance the counter by n |
| Player.TicksWrap | design_scene.cpp:234-237 | the tick that passes the loop's last unit resets the counter to 0, so a counter started at 0 is back at 0 after loopTime*100 ticks |
| Export.Encode | design_scene.cpp:192-197 | a record is six bytes: time high byte, time low byte, LED id, red, green, blue |
| Export.DecodeEncode | design_scene.cpp:192-197 | records whose time fits 16 bits and whose LED fits a byte read back from their bytes unchanged |
| Export.Stamp | design_scene.cpp:188-202 | the scan stops at loopTime*100 - 1 (0 for loop time 0), below 25500 |
| Export.LedStep | design_scene.cpp:189-200 | visiting one LED adds its six bytes exactly when its colour changed |
| Export.ResetStep | design_scene.cpp:204-212 | each pass of the closing loop adds one black record for the next LED |
| Export.ResetRecords | design_scene.cpp:204-213 | the closing loop emits one record per LED, in id order, LED i's being black at the stop time |
| Export.ExportBytes | design_scene.cpp:176-217 | the file holds six bytes per emitted record, so its length is a multiple of 6 |
| Export.ExportRecords | design_scene.cpp:176-217 | the log holds at least one record per LED and ends with one black record per LED at the stop time, in id order |
| Export.LedRecords | design_scene.cpp:189-200 | the records of one time unit of the inner loop; it has no contract of its own: `Export.LedRecordsMembership` says which records it holds and `Export.LedStep` how the loop builds its bytes |
| Export.ScanRecords | design_scene.cpp:188-203 | the records of the whole scan; it has no contract of its own: `Export.ScanMembership` says which records it holds and `Export.ScanOrdered` their order |
| Export.LedRecordsMembership | design_scene.cpp:189-200 | at one time unit a record is emitted for exactly the LEDs whose colour differs from the previous unit's, carrying the new colour |
| Export.ScanMembership | design_scene.cpp:188-203 | over the whole scan a record (t, i, c) is emitted exactly when t is before the stop time, i is an LED, LED i's colour changed at t and c is that colour |
| Export.ScanCache | design_scene.cpp:182-198 | the cached previous colour of each LED always equals the last colour emitted for it (black before any) |
| Export.EmitIffDiffersFromLastEmitted | design_scene.cpp:189-199 | LED i gets a record at t exactly when its colour differs from the last colour emitted for it |
| Export.ScanOrdered | design_scene.cpp:188-203 | scan records come in increasing (time, LED id) order with times before the stop time |
| Export.ExportShape | design_scene.cpp:188-213 | the whole log is ordered, so timestamps never decrease, and it ends with exactly one black record per LED at the stop time |
| Export.ExportDecodes | design_scene.cpp:176-217 | with at most 256 LEDs the file's bytes decode back to the emitted records |
| Export.ScanQuiet | design_scene.cpp:188-203 | times at which no LED changes colour add nothing to the log |
| Export.RedThenBlackLog | design_scene.cpp:188-213 | an LED red for times 0..99 and black afterwards, in a loop of 3, logs red at 0, black at 100 and the reset at 299 |
| Export.RedThenBlackBytes | design_scene.cpp:192-211 | those three records are the 18 bytes 0 0 0 255 0 0, 0 100 0 0 0 0, 1 43 0 0 0 0 |
| Export.SolidRedExport | design_scene.cpp:176-217 | a strip with one solid red pattern of 100 units, in a loop of 3, exports exactly those records and bytes |
| LedStrips.LedStrip.constructor | design_scene.cpp:83-87 | a new strip has no LEDs and num_leds 0 |
| LedStrips.LedStrip.AddLed | design_scene.cpp:89-100 | appends the new LED as `Strip.Added` says, sets num_leds to the new length narrowed to `qint8` and returns it (new id + 1 below 127 LEDs) |
| LedStrips.LedStrip.SetLedPos | design_scene.cpp:117-131 | the table becomes `Strip.Moved` of the old one; the counters are unchanged |
| LedStrips.LedStrip.AddPattern | design_scene.cpp:133-136 | the table becomes `Strip.WithPattern` of the old one; the counters are unchanged |
| LedStrips.LedStrip.SetLoopTime | design_scene.h:68 | stores the loop time and changes nothing else |
| LedStrips.LedStrip.LoopPlayer | design_scene.cpp:219-238 | the table becomes `Player.Repaint` at the old counter read as `qint16`, and the counter becomes `Player.NextCnt` of the old one |
| LedStrips.LedStrip.SaveToFile | design_scene.cpp:176-217 | returns exactly `Export.ExportBytes` of the strip and loop time |
| LedStrips.LedStrip.WriteLog | design_scene.cpp:182-213 | the two loops over time and the closing loop produce the encoded log of the scan followed by the resets |
| LedStrips.LedStrip.ScanTime | design_scene.cpp:189-200 | one pass over the LEDs appends the bytes of that time unit's records and moves the cached colours on to that time |
| LedStrips.LedStrip.AppendResets | design_scene.cpp:204-213 | the closing loop appends one black record per LED at the stop time |

## Left out

- Qt user interface: the mouse handlers, cursors, `addEllipse`, `set_led_color`, the label's position, the parent item and `setFlag`, and `moveBy` on the ellipse. The model keeps only the colours the program reads and writes.
- `get_snap_coords` uses float `roundf`. LED locations are integer grid points compared exactly; `QPointF`'s fuzzy comparison is not modelled.
- `get_led_byid` returns a graphics item pointer, which the model does not have.
- File I/O in `save_to_file` (`QFile` open, write and close). The method returns the bytes instead.
- The `QTimer` that drives `loop_player` is not modelled. The tick is an explicit method call, and `qDebug` output is left out.
- Float rounding of the blend is not modelled. Weights use exact reals, so a channel may differ by one from the float result where rounding crosses an integer.
- The default `pattern()` constructor, which leaves every field unset, is not modelled.
- Timeline.ColorAt: lists with a non-solid pattern of negative total time are excluded (`Evaluable`). In the source such a pattern is skipped unless adding its total time wraps the `quint16` running total below zero (design_scene.cpp:149-150); only then does the blend divide by a negative total and leave the colour range. The model excludes both cases.
- Timeline.ColorInSegment, ColorOutsideSegments, BlackInOffsetGap, BlackAfterSpan, SolidSegment, BlendBeginsAtStartColor, BlendPeaksAtEndColor, AppendKeepsEarlier, AppendedSegment: these assume no negative offsets or times and a list that fits the `quint16` running total (`WellTimed`). The function itself models the wrap-around.
- Player.Repaint: requires `Playable`, so strips holding a non-solid pattern with negative total time are excluded. That includes every blend entered with a total time whose remainder modulo 256 is 128 or more; other entries above 127 wrap to a shorter, non-negative time, which the model evaluates. `loop_player` accepts such strips (design_scene.cpp:223-224). It calls `get_color_at_time`, which the model defines only on evaluable lists (see Timeline.ColorAt).
- Export.ExportRecords, Export.ExportBytes: an LED whose pattern list is not evaluable is shown black (`Export.Col`), which `save_to_file` does not do. The records and bytes match the file only on playable strips.
- LedStrips.LedStrip.LoopPlayer: requires `Playable`, which excludes the same strips as Player.Repaint. Strips of more than 127 LEDs are also excluded, where the `qint8` loop index would overflow.
- LedStrips.LedStrip.SaveToFile: requires `Playable`, which excludes the same strips as Player.Repaint; `save_to_file` accepts them (design_scene.cpp:189-190). Strips of more than 128 LEDs are also excluded, where the `qint8` LED id would overflow.
- LedStrips.LedStrip.SetLedPos: requires the id to be in range whenever the move would happen. The source indexes the list unchecked there.
- LedStrips.LedStrip.AddPattern: requires the id to be in range. The source indexes the list unchecked.
- Strip.LedAtPos: the lowest-index property is stated only up to 128 LEDs, because larger indices do not survive the narrowing to `qint8`.
