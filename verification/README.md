# neopixel_aggregator in Dafny

A model of the LED-state engine of the ESPHome component
`NeopixelAggregatorComponent`. The component drives one addressable LED strip
from Home Assistant entity states. Each LED index carries an ordered list of
bindings `(entity id, colour, on/off)`. When an entity's state arrives, the
matching bindings of that LED are overwritten in place. The LED then shows the
colour of its last active binding, or the configured off colour, faded by the
global brightness. The first update that reaches the strip first runs a
one-time "blackout". Changing the brightness or the off colour redraws every
LED. An optional heartbeat LED cycles through a pale hue derived from the
microsecond clock; it turns red while the network is down and blue while the
API session is down.

The model has five modules:

- `ColorMath` (color_math.dfy) holds the pure colour code:
  - the `#RRGGBB` parser `hex_to_color` and the `#%02X%02X%02X` format the diagnostics dump prints;
  - the byte primitives of esphome's `Color` that the component uses;
  - the fixed-point hue wheel `to_rgb`.
- `Bindings` (bindings.dfy) covers one LED's list:
  - the `std::replace_if` update;
  - colour resolution ("last active entry wins, else the off colour");
  - what `redraw` does to a list.
- `LedDriver` (led_driver.dfy) is the strip as the component sees it: a fixed size and an ordered log of pixel writes and refresh requests. `LastSet` reads off what a pixel shows.
- `Heartbeat` (heartbeat.dfy) covers the clock-derived hue and the connectivity override.
- `Aggregator` (aggregator.dfy) is the component itself:
  - a class whose fields are those of the C++ class, updated by methods with the C++ class's names;
  - specification functions for what an update and a whole redraw write to the strip: `UpdateOps`, `RedrawLog`, and `SortedKeys` for the ascending order of `std::map`.

The code's quirks are modelled as written:

- an update never appends a binding for an entity the LED does not list;
- `redraw` re-delivers only the first binding of each LED (its inner loop stops at `i <= 0`);
- the blackout loop runs `size()` times but always writes black to the updated LED, never to pixel `i`.

Lemmas such as `UpdateShowsResolved` and `RedrawShowsResolved` state what these quirks mean for the pixels.

The clock, the two connectivity probes and the state string of the subscription callback are method parameters. The brightness fade is a function the component is constructed with.

## Model

| member | source | states |
|---|---|---|
| ColorMath.Scale8 | components/neopixel_aggregator/neopixel_aggregator.cpp:22-23 | Definition of `esp_scale8` (esphome's `i * (1 + scale) / 256`); properties in `Scale8Bounds` and `Scale8Full`. |
| ColorMath.Scale8Bounds | components/neopixel_aggregator/neopixel_aggregator.cpp:22-23 | A scaled channel never exceeds the channel or the scale. |
| ColorMath.Scale8Full | components/neopixel_aggregator/neopixel_aggregator.cpp:77 | Scaling by 255 is the identity, so `rgb *= 255` leaves the colour unchanged. |
| ColorMath.ScaleColor | components/neopixel_aggregator/neopixel_aggregator.cpp:73 | Definition of `Color::operator*=(uint8_t)`: every channel through `esp_scale8`. Properties in `ToRgbValueZero` and `ToRgbFullSaturation`. |
| ColorMath.AddSat | components/neopixel_aggregator/neopixel_aggregator.cpp:75 | Definition of the saturating add of `Color::operator+=(uint8_t)`. Properties in `DesaturationNeverClips` and `DesaturateUnclipped`. |
| ColorMath.AddGray | components/neopixel_aggregator/neopixel_aggregator.cpp:75 | Definition of `Color::operator+=(uint8_t)`: the same amount added to every channel. Properties in `DesaturateUnclipped`. |
| ColorMath.HueColor | components/neopixel_aggregator/neopixel_aggregator.cpp:20-68 | Definition of the pre-saturation colour: `offset8`, `third`, `two_thirds`, then the sector table. Properties in `HueColorNoWrap` and `HueColorAtSectorStart`. |
| ColorMath.Desaturate | components/neopixel_aggregator/neopixel_aggregator.cpp:73-75 | Definition of the saturation step. Properties in `DesaturationNeverClips` and `DesaturateUnclipped`. |
| ColorMath.ToRgb | components/neopixel_aggregator/neopixel_aggregator.cpp:18-79 | Definition of `to_rgb`: hue wheel, saturation step, value step. Properties in `ToRgbValueZero`, `ToRgbSaturationZero`, `ToRgbFullSaturation` and `HeartbeatIsPale`. |
| ColorMath.HexToColor | components/neopixel_aggregator/neopixel_aggregator.cpp:7-15 | A string that is not 7 characters starting with `#` gives black. A well-formed `#RRGGBB`, digits in either case, gives exactly the three two-digit fields as channel bytes. |
| ColorMath.ColorToHex | components/neopixel_aggregator/neopixel_aggregator.cpp:212 | The dump format of a colour is always a well-formed `#RRGGBB` code with upper-case digits. |
| ColorMath.HexRoundTrip | components/neopixel_aggregator/neopixel_aggregator.cpp:7-15 | Parsing the dump of any colour gives that colour back. |
| ColorMath.HexDumpOfParse | components/neopixel_aggregator/neopixel_aggregator.cpp:9-14 | Dumping a parsed well-formed code gives the code back, with its digits upper-cased. |
| ColorMath.HueSector | components/neopixel_aggregator/neopixel_aggregator.cpp:25 | `hue >> 5` selects one of the eight sectors 0..7. |
| ColorMath.SectorRampFits | components/neopixel_aggregator/neopixel_aggregator.cpp:25-68 | Whenever `third <= 85` and `two_thirds <= 170`, every sector's three entries lie in 0..255, so storing them into `uint8_t` changes nothing. |
| ColorMath.HueColorNoWrap | components/neopixel_aggregator/neopixel_aggregator.cpp:20-68 | For every hue: `offset8` is at most 248 and computed without wrap; `third <= 83`; `two_thirds <= 165`; the sector is below 8, so `default` is unreachable; the pre-saturation colour is the untruncated table entry. |
| ColorMath.HueColorAtSectorStart | components/neopixel_aggregator/neopixel_aggregator.cpp:25-65 | At hues 0, 32, ..., 224 the pre-saturation colour is the sector's start colour. Hue 0 gives (255,0,0). |
| ColorMath.DesaturationNeverClips | components/neopixel_aggregator/neopixel_aggregator.cpp:73-75 | A channel scaled by `sat` plus `scale8(255-sat, 255-sat)` is at most 255, so the saturating `+=` never clips. |
| ColorMath.DesaturateUnclipped | components/neopixel_aggregator/neopixel_aggregator.cpp:73-75 | The saturation step is an exact per-channel sum: the grey added never saturates. |
| ColorMath.ToRgbValueZero | components/neopixel_aggregator/neopixel_aggregator.cpp:77 | Value 0 gives black for every hue and saturation. |
| ColorMath.ToRgbFullSaturation | components/neopixel_aggregator/neopixel_aggregator.cpp:73-77 | Saturation 255 and value 255 return the hue wheel's colour unchanged; hue 0 gives pure red (255,0,0). |
| ColorMath.DesaturateZero | components/neopixel_aggregator/neopixel_aggregator.cpp:73-75 | Saturation 0 turns any colour into full white (255,255,255): nothing of the hue is left. |
| ColorMath.ToRgbSaturationZero | components/neopixel_aggregator/neopixel_aggregator.cpp:73-77 | Saturation 0 gives a grey (equal channels) that does not depend on the hue. |
| Bindings.ReplaceAll | components/neopixel_aggregator/neopixel_aggregator.cpp:169 | Entry by entry: an entry with the entity id becomes the new binding, every other entry stays; the length, and hence the order, is kept. |
| Bindings.ReplaceIf | components/neopixel_aggregator/neopixel_aggregator.cpp:169 | The in-place `std::replace_if` pass yields exactly `ReplaceAll` of the list. |
| Bindings.ReplaceAbsent | components/neopixel_aggregator/neopixel_aggregator.cpp:169 | When no entry has the entity id the list is unchanged: nothing is appended. |
| Bindings.ReplaceIdempotent | components/neopixel_aggregator/neopixel_aggregator.cpp:169 | Delivering the same state twice leaves the list as delivering it once. |
| Bindings.ReplaceKeepsIds | components/neopixel_aggregator/neopixel_aggregator.cpp:169 | A replacement keeps every entity id in place, so a list with unique ids keeps them unique. |
| Bindings.Resolve | components/neopixel_aggregator/neopixel_aggregator.cpp:176-191 | Definition of the resolved colour: the last lit entry's colour, else the off colour. Characterised in both directions by `ResolveLastLit`, `ResolveNoneLit` and `ResolveIsLastLitOrOff`. |
| Bindings.ResolveColor | components/neopixel_aggregator/neopixel_aggregator.cpp:176-191 | The loop that starts from the off colour and takes each lit entry's colour yields `Resolve` of the list. |
| Bindings.ResolveLastLit | components/neopixel_aggregator/neopixel_aggregator.cpp:187-191 | If entry k is lit (on, or forced) and no later entry is, the LED resolves to entry k's colour. |
| Bindings.ResolveNoneLit | components/neopixel_aggregator/neopixel_aggregator.cpp:176-191 | If no entry is lit, the LED resolves to the off colour. |
| Bindings.ResolveIsLastLitOrOff | components/neopixel_aggregator/neopixel_aggregator.cpp:176-191 | Conversely, the resolved colour is either the off colour with nothing lit, or the colour of a lit entry after which nothing is lit. |
| Bindings.ResolveForced | components/neopixel_aggregator/neopixel_aggregator.cpp:188 | With `force_all_on_`, a non-empty list resolves to its last entry's colour. |
| Bindings.RedrawList | components/neopixel_aggregator/neopixel_aggregator.cpp:156-161 | Definition of what re-delivering entry 0 does to a list. Properties in `RedrawKeepsUniqueList`. |
| Bindings.RedrawKeepsUniqueList | components/neopixel_aggregator/neopixel_aggregator.cpp:156-161 | Re-delivering the first entry of a list with unique entity ids leaves the list unchanged. |
| LedDriver.Strip.Set | components/neopixel_aggregator/neopixel_aggregator.cpp:193 | A pixel write appends exactly that write to the strip's log. |
| LedDriver.Strip.ScheduleShow | components/neopixel_aggregator/neopixel_aggregator.cpp:194 | A refresh request appends exactly that request to the log. |
| Heartbeat.HeartbeatHue | components/neopixel_aggregator/neopixel_aggregator.cpp:118 | Definition of `(micros >> speed) & 0xFF`. Properties in `HueRotationPeriod`. |
| Heartbeat.HeartbeatColor | components/neopixel_aggregator/neopixel_aggregator.cpp:119-125 | Definition of the tick colour: red, else blue, else `to_rgb(hue, 40, 255)`. Properties in `HeartbeatStatusDistinct` and `HeartbeatIsPale`. |
| Heartbeat.HueRotationPeriod | components/neopixel_aggregator/neopixel_aggregator.cpp:118 | The hue `(micros >> speed) & 0xFF` repeats after `2^(speed+8)` microseconds. |
| Heartbeat.HeartbeatIsPale | components/neopixel_aggregator/neopixel_aggregator.cpp:119 | `to_rgb(hue, 40, 255)` keeps every channel in 181..221 for every hue. |
| Heartbeat.HeartbeatStatusDistinct | components/neopixel_aggregator/neopixel_aggregator.cpp:119-125 | Network down gives red whatever the API state. Network up and API down gives blue. Both up gives a colour that is neither red nor blue. |
| Aggregator.IsOnState | components/neopixel_aggregator/neopixel_aggregator.cpp:143 | Definition of the callback's on test: exactly "on" or "ON". Used by `DeliverState`. |
| Aggregator.UpdateOps | components/neopixel_aggregator/neopixel_aggregator.cpp:178-194 | Definition of one update's strip writes: the blackout if the latch is clear, then the colour and a refresh. Properties in `UpdateShowsResolved`. |
| Aggregator.UpdateShowsResolved | components/neopixel_aggregator/neopixel_aggregator.cpp:178-194 | After an update's writes, the updated LED shows the given colour and every other pixel shows what it showed before. The blackout clears no other pixel. |
| Aggregator.BlackOut | components/neopixel_aggregator/neopixel_aggregator.cpp:178-185 | The blackout loop appends `size()` writes of black, all to the updated LED. |
| Aggregator.SortedKeys | components/neopixel_aggregator/neopixel_aggregator.cpp:152 | The iteration order of `std::map`: strictly ascending, each key of the map exactly once. |
| Aggregator.RedrawMappings | components/neopixel_aggregator/neopixel_aggregator.cpp:151-164 | A redraw keeps the set of LED indices. |
| Aggregator.SetupAfterKeeps | components/neopixel_aggregator/neopixel_aggregator.cpp:178-185 | Once the blackout latch is set, redrawing any sequence of LEDs leaves it set: nothing clears `did_led_setup_`. |
| Aggregator.RedrawOpsShows | components/neopixel_aggregator/neopixel_aggregator.cpp:156-161 | Redrawing one LED sets that LED to its re-resolved colour if its list is non-empty, and touches no other pixel. |
| Aggregator.RedrawShowsResolved | components/neopixel_aggregator/neopixel_aggregator.cpp:151-164 | After a redraw every LED with a non-empty list shows its re-resolved, faded colour. Every other pixel keeps what it showed. |
| Aggregator.RedrawKeepsUniqueMappings | components/neopixel_aggregator/neopixel_aggregator.cpp:151-164 | When every LED's entity ids are unique, a redraw leaves all bindings unchanged. |
| Aggregator.NeopixelAggregator.constructor | neopixel_aggregator.h:33-41 | The initial state: no strip, heartbeat -1 with phase 0 and speed 14, no blackout yet, brightness 1.0, force off, off colour black, no bindings. |
| Aggregator.NeopixelAggregator.MapColor | components/neopixel_aggregator/neopixel_aggregator.cpp:105-108 | Definition of `map_color` as the component's fade of the colour at the current brightness. It is a function, so it cannot change the component. |
| Aggregator.NeopixelAggregator.RegisterEntity | components/neopixel_aggregator/neopixel_aggregator.cpp:87-89 | Attaches the strip and changes nothing else. |
| Aggregator.NeopixelAggregator.AddLedMapping | components/neopixel_aggregator/neopixel_aggregator.cpp:201-204 | Appends exactly one inactive binding with the parsed colour at the end of that LED's list, creating the list if absent. Every other LED and all other state is unchanged. |
| Aggregator.NeopixelAggregator.OnHomeassistantState | components/neopixel_aggregator/neopixel_aggregator.cpp:166-195 | The LED's list becomes `ReplaceAll` of it, created empty if absent; other LEDs are unchanged. Without a strip nothing else changes. With one, the latch is set and the log grows by `UpdateOps`: the blackout only if the latch was clear, then the `map_color` of the resolved colour and a refresh. |
| Aggregator.NeopixelAggregator.ShowUpdate | components/neopixel_aggregator/neopixel_aggregator.cpp:176-194 | The strip half of an update: sets the latch and appends the blackout (if not yet done), the faded resolved colour and a refresh; the bindings are untouched. |
| Aggregator.NeopixelAggregator.DeliverState | components/neopixel_aggregator/neopixel_aggregator.cpp:141-145 | The subscription callback is an update whose flag is true exactly for the state strings "on" and "ON". |
| Aggregator.NeopixelAggregator.RedrawLed | components/neopixel_aggregator/neopixel_aggregator.cpp:153-162 | The inner loop, bounded by `i <= 0`, runs at most once. An empty list writes nothing and keeps the latch. A non-empty list has its first entry re-delivered, so the list becomes `RedrawList` of it and the log grows by that LED's redraw operations. |
| Aggregator.NeopixelAggregator.RedrawNext | components/neopixel_aggregator/neopixel_aggregator.cpp:152-162 | One outer pass extends the redraw's progress (bindings, latch, log) by one LED. |
| Aggregator.NeopixelAggregator.RedrawLoop | components/neopixel_aggregator/neopixel_aggregator.cpp:152-163 | The outer loop over all keys reaches the progress of the whole key sequence. |
| Aggregator.NeopixelAggregator.RedrawKeys | components/neopixel_aggregator/neopixel_aggregator.cpp:151-164 | Redrawing in the order of `keys` redraws every list and appends `RedrawLog` for that order, with the latch `SetupAfter` it. |
| Aggregator.NeopixelAggregator.Redraw | components/neopixel_aggregator/neopixel_aggregator.cpp:151-164 | The new state is `Redrawn`: every list as `RedrawList` leaves it, and the log extended by one update per non-empty LED in ascending order. Brightness, force flag, off colour and heartbeat are unchanged. |
| Aggregator.NeopixelAggregator.SetBrightness | components/neopixel_aggregator/neopixel_aggregator.cpp:91-94 | Stores the brightness, then the state is redrawn with the new brightness. |
| Aggregator.NeopixelAggregator.SetOffColor | components/neopixel_aggregator/neopixel_aggregator.cpp:96-99 | Stores the parsed off colour, then the state is redrawn with it. |
| Aggregator.NeopixelAggregator.SetForce | components/neopixel_aggregator/neopixel_aggregator.cpp:101-103 | Stores the flag only: no bindings change, no latch changes, nothing is written. |
| Aggregator.NeopixelAggregator.RegisterHeartbeat | components/neopixel_aggregator/neopixel_aggregator.cpp:110-115 | A non-negative LED becomes the heartbeat LED and a timer with period 50 ms is recorded. A negative one changes nothing. |
| Aggregator.NeopixelAggregator.HeartbeatInterval | components/neopixel_aggregator/neopixel_aggregator.cpp:117-129 | One tick writes `map_color(HeartbeatColor(hue from micros, network, api))` to the heartbeat LED and requests a refresh. Nothing else is written. |

## Left out

- `map_color` / `Color::fade_to_black`: the float brightness and esphome's fade routine are not part of this model. The component takes the fade as a function `fade(colour, brightness)`. `MapColor` is that function, so it cannot change the component.
- `ColorMath.Scale8`: esphome's colour header is not part of this model. `esp_scale8` is taken as esphome defines it, `(i * (1 + scale)) / 256`. With this formula `third` reaches 83 and `two_thirds` 165 (`HueColorNoWrap`), not the 82 and 164 the comment at line 21 of the source gives. Under the plain `(i * scale) / 256` those bounds would be 82 and 164. `DesaturationNeverClips` would then give 254. `HeartbeatIsPale` would give 179..218. `ToRgbFullSaturation` would fail: hue 0 at full saturation would be (253,0,0). `SectorRampFits` holds under both.
- `ColorMath.AddSat`: `Color::operator+=(uint8_t)` is not part of this model. It is taken as saturating at 255. `DesaturateUnclipped` shows the sum never reaches the clip, so a wrapping add would give the same result.
- The white channel of esphome's `Color` is not modelled: this component never reads it.
- `ColorMath.HexToColor`: returns black for every 7-character string that starts with `#` but is not followed by six hex digits. The source's `sscanf("#%02x%02x%02x")` reads some of these strings completely or in part: short fields (`"#12345G"` gives (0x12,0x34,0x05)), leading white space (`"# 1 2 3"` gives (1,2,3)) and signs. For those it returns the fields it read, with uninitialised values for fields it did not reach. The model does not capture these `sscanf` reads; it is exact only for strings that are not 7 bytes long starting with `#`, and for well-formed `#RRGGBB` codes. The source tests `size()`, which counts bytes, while the model counts characters; the two agree on ASCII strings. A 6-character string with one 2-byte UTF-8 character, such as `"#FF00é"`, passes the source's length test and `sscanf` reads r = 0xFF and g = 0x00, while the model returns black.
- `register_entity_listeners` and `subscribe_home_assistant_state` are a foreign call into the API server. Only the callback's translation of the state string (`DeliverState`) is modelled.
- `setup` calls `register_entity_listeners` to subscribe the callbacks (see the previous line) and then logs. `loop` does nothing. `dump_config` only logs; its colour format is modelled as `ColorToHex`.
- `set_interval`: only the registered timer's period (`heartbeatTimer`, 50 ms) is recorded. The scheduling itself is not modelled; each tick is a call of `HeartbeatInterval`.
- `Aggregator.NeopixelAggregator.HeartbeatInterval`: requires a strip, because the source dereferences the driver unguarded.
- The source shifts by `heartbeat_speed_`. Nothing changes that field from 14, so a shift of 32 or more is not modelled.
- `micros()` is a parameter in the `uint32_t` range; its wrap-around over time is outside a single tick.
- `neopixel_entity_` has no initialiser in the header. The model starts with no strip attached.
- The driver's own range checks: `get(i)` with an index outside the strip is recorded in the log like any other write.
- The Python configuration schema and code generation of the component are not part of this model.
