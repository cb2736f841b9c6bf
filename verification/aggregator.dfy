/**
 * `NeopixelAggregatorComponent`: the table of LED bindings, the update that
 * a state change of one entity triggers, the redraw of every LED, the
 * configuration setters and the heartbeat tick.
 */
module Aggregator {
  import opened ColorMath
  import opened Bindings
  import opened LedDriver
  import opened Heartbeat

  /** `led_mappings_`: LED index to its ordered list of bindings. */
  type Mappings = map<int, seq<Binding>>

  /** The list of an LED; `operator[]` would create an empty one for an absent key. */
  function Lookup(m: Mappings, led: int): seq<Binding> {
    if led in m then m[led] else []
  }

  /** The period of the heartbeat timer, in milliseconds. */
  const HEARTBEAT_PERIOD_MS: nat := 50

  /** The state string the subscription callback treats as "on". */
  predicate IsOnState(state: string) {
    state == "on" || state == "ON"
  }

  // ---------------------------------------------------------------------------
  // What one update writes to the strip
  // ---------------------------------------------------------------------------

  /**
   * The strip operations of one driver-backed `on_homeassistant_state`: on the
   * first one, `size` writes of black, all to the updated LED itself; then the
   * resolved colour to that LED, and a refresh.
   */
  function UpdateOps(led: int, setupDone: bool, size: nat, shown: Color): seq<StripOp> {
    (if setupDone then [] else Repeat(PixelSet(led, BLACK), size)) + [PixelSet(led, shown), ShowRequest]
  }

  /**
   * After an update the LED shows the resolved colour, and every other pixel
   * shows what it showed before: the one-time blackout clears no other pixel.
   */
  lemma UpdateShowsResolved(log: seq<StripOp>, led: int, setupDone: bool, size: nat, shown: Color, pixel: int)
    ensures LastSet(log + UpdateOps(led, setupDone, size, shown), pixel) ==
      if pixel == led then Some(shown) else LastSet(log, pixel)
  {
    var ops := UpdateOps(led, setupDone, size, shown);
    var blackout := if setupDone then [] else Repeat(PixelSet(led, BLACK), size);
    assert ops[..|ops| - 1] == blackout + [PixelSet(led, shown)];
    if pixel != led {
      LastSetUntouched(ops, pixel);
    }
    LastSetConcat(log, ops, pixel);
  }

  // ---------------------------------------------------------------------------
  // redraw: the order of `std::map` and what the whole pass writes
  // ---------------------------------------------------------------------------

  /** An element of a non-empty set. */
  lemma SomeElement(s: set<int>) returns (y: int)
    requires s != {}
    ensures y in s
  {
    if forall z :: z !in s {
      assert false;
    }
    y :| y in s;
  }

  /** The least element of a non-empty set of LED indices: the first key `std::map` visits. */
  lemma Least(s: set<int>) returns (m: int)
    requires s != {}
    ensures m in s && forall x | x in s :: m <= x
    decreases |s|
  {
    var y := SomeElement(s);
    var rest := s - {y};
    if rest == {} {
      m := y;
      forall x | x in s
        ensures m <= x
      {
        assert x !in rest;
      }
    } else {
      var r := Least(rest);
      m := if y < r then y else r;
      forall x | x in s
        ensures m <= x
      {
        if x != y {
          assert x in rest;
        }
      }
    }
  }

  /** Every non-empty set of LED indices has a least element. */
  lemma MinExists(s: set<int>)
    requires s != {}
    ensures exists m :: m in s && forall x | x in s :: m <= x
  {
    var m := Least(s);
  }

  /** The keys of a `std::map<int, ...>` in iteration order: ascending, each once. */
  function SortedKeys(s: set<int>): (keys: seq<int>)
    ensures forall i, j | 0 <= i < j < |keys| :: keys[i] < keys[j]
    ensures forall k :: k in keys <==> k in s
    decreases s
  {
    if s == {} then []
    else
      MinExists(s);
      var m :| m in s && forall x | x in s :: m <= x;
      [m] + SortedKeys(s - {m})
  }

  /** The LED a pass of `redraw` visits is a key of the map that it has not visited yet. */
  lemma KeyNotVisited(s: set<int>, keys: seq<int>, idx: nat)
    requires idx < |keys|
    requires forall i, j | 0 <= i < j < |keys| :: keys[i] < keys[j]
    requires forall k :: k in keys <==> k in s
    ensures keys[idx] in s && keys[idx] !in keys[..idx]
  {
    assert keys[idx] in keys;
    forall i | 0 <= i < idx
      ensures keys[..idx][i] != keys[idx]
    {
      assert keys[i] < keys[idx];
    }
  }

  /** The bindings after a redraw: each LED's list as `RedrawList` leaves it. */
  function RedrawMappings(m: Mappings): (r: Mappings)
    ensures r.Keys == m.Keys
  {
    map led | led in m :: RedrawList(m[led])
  }

  /** Whether the blackout latch is set after redrawing the LEDs `keys` (in order) from `setup`. */
  function SetupAfter(m: Mappings, keys: seq<int>, setup: bool): bool
    decreases |keys|
  {
    if keys == [] then setup
    else SetupAfter(m, keys[..|keys| - 1], setup) || Lookup(m, keys[|keys| - 1]) != []
  }

  /** The colour `redraw` writes to LED `led`: its redrawn list, resolved, through the brightness fade. */
  function RedrawShown(m: Mappings, led: int, force: bool, offColor: Color,
                       fade: (Color, real) -> Color, brightness: real): Color {
    fade(Resolve(RedrawList(Lookup(m, led)), force, offColor), brightness)
  }

  /** The strip operations of redrawing one LED: none for an empty list, else one update. */
  function RedrawOps(m: Mappings, led: int, setupDone: bool, size: nat, force: bool, offColor: Color,
                     fade: (Color, real) -> Color, brightness: real): seq<StripOp> {
    if Lookup(m, led) == [] then []
    else UpdateOps(led, setupDone, size, RedrawShown(m, led, force, offColor, fade, brightness))
  }

  /** The latch only ever gets set: once set, no sequence of redrawn LEDs clears it. */
  lemma {:induction false} SetupAfterKeeps(m: Mappings, keys: seq<int>)
    ensures SetupAfter(m, keys, true)
    decreases |keys|
  {
    if keys != [] {
      SetupAfterKeeps(m, keys[..|keys| - 1]);
    }
  }

  /**
   * The strip operations of redrawing the LEDs `keys` in order: one update per
   * LED whose list is non-empty, re-delivering its first entry.
   */
  function RedrawLog(m: Mappings, keys: seq<int>, setup: bool, size: nat, force: bool, offColor: Color,
                     fade: (Color, real) -> Color, brightness: real): seq<StripOp>
    decreases |keys|
  {
    if keys == [] then []
    else
      var front := keys[..|keys| - 1];
      RedrawLog(m, front, setup, size, force, offColor, fade, brightness) +
      RedrawOps(m, keys[|keys| - 1], SetupAfter(m, front, setup), size, force, offColor, fade, brightness)
  }

  /** The bindings part-way through a redraw: the LEDs in `done` redrawn, the others as they were. */
  function PartialRedraw(m: Mappings, done: seq<int>): (r: Mappings)
    ensures r.Keys == m.Keys
  {
    map led | led in m :: if led in done then RedrawList(m[led]) else m[led]
  }

  /** Redrawing one more LED replaces that LED's list in the partial bindings. */
  lemma PartialRedrawStep(m: Mappings, keys: seq<int>, idx: nat)
    requires idx < |keys| && keys[idx] in m
    ensures PartialRedraw(m, keys[..idx + 1]) == PartialRedraw(m, keys[..idx])[keys[idx] := RedrawList(m[keys[idx]])]
  {
    assert forall k :: k in keys[..idx + 1] <==> k in keys[..idx] || k == keys[idx];
    var before := PartialRedraw(m, keys[..idx]);
    var after := PartialRedraw(m, keys[..idx + 1]);
    forall led | led in m
      ensures after[led] == before[keys[idx] := RedrawList(m[keys[idx]])][led]
    {
    }
  }

  /** Redrawing one more LED extends the latch and the log by that LED's update. */
  lemma RedrawLogStep(m: Mappings, keys: seq<int>, idx: nat, log: seq<StripOp>, setup: bool, size: nat, force: bool,
                      offColor: Color, fade: (Color, real) -> Color, brightness: real)
    requires idx < |keys|
    ensures SetupAfter(m, keys[..idx + 1], setup) == (SetupAfter(m, keys[..idx], setup) || Lookup(m, keys[idx]) != [])
    ensures log + RedrawLog(m, keys[..idx + 1], setup, size, force, offColor, fade, brightness) ==
      (log + RedrawLog(m, keys[..idx], setup, size, force, offColor, fade, brightness)) +
        RedrawOps(m, keys[idx], SetupAfter(m, keys[..idx], setup), size, force, offColor, fade, brightness)
  {
    assert keys[..idx + 1][..idx] == keys[..idx];
    var done := RedrawLog(m, keys[..idx], setup, size, force, offColor, fade, brightness);
    var step := RedrawOps(m, keys[idx], SetupAfter(m, keys[..idx], setup), size, force, offColor, fade, brightness);
    assert RedrawLog(m, keys[..idx + 1], setup, size, force, offColor, fade, brightness) == done + step;
    assert log + (done + step) == (log + done) + step;
  }

  /** Before any LED has been redrawn, the partial bindings are the original ones. */
  lemma PartialRedrawNone(m: Mappings)
    ensures PartialRedraw(m, []) == m
  {
    forall led | led in m
      ensures PartialRedraw(m, [])[led] == m[led]
    {
    }
  }

  /** Once every LED has been redrawn, the partial bindings are the redrawn ones. */
  lemma PartialRedrawComplete(m: Mappings, keys: seq<int>)
    requires forall led | led in m :: led in keys
    ensures PartialRedraw(m, keys) == RedrawMappings(m)
  {
    forall led | led in m
      ensures PartialRedraw(m, keys)[led] == RedrawMappings(m)[led]
    {
    }
  }

  /** Redrawing one LED sets that LED, if its list is non-empty, and no other pixel. */
  lemma RedrawOpsShows(log: seq<StripOp>, m: Mappings, led: int, setupDone: bool, size: nat, force: bool,
                       offColor: Color, fade: (Color, real) -> Color, brightness: real, pixel: int)
    ensures LastSet(log + RedrawOps(m, led, setupDone, size, force, offColor, fade, brightness), pixel) ==
      if pixel == led && Lookup(m, led) != [] then Some(RedrawShown(m, led, force, offColor, fade, brightness))
      else LastSet(log, pixel)
  {
    if Lookup(m, led) != [] {
      UpdateShowsResolved(log, led, setupDone, size, RedrawShown(m, led, force, offColor, fade, brightness), pixel);
    } else {
      assert log + [] == log;
    }
  }

  /**
   * After a redraw, every LED with a non-empty list shows its re-resolved
   * colour, and every other pixel keeps what it showed.
   */
  lemma {:induction false} RedrawShowsResolved(log: seq<StripOp>, m: Mappings, keys: seq<int>, setup: bool, size: nat,
                                               force: bool, offColor: Color, fade: (Color, real) -> Color,
                                               brightness: real, pixel: int)
    ensures LastSet(log + RedrawLog(m, keys, setup, size, force, offColor, fade, brightness), pixel) ==
      if pixel in keys && Lookup(m, pixel) != [] then Some(RedrawShown(m, pixel, force, offColor, fade, brightness))
      else LastSet(log, pixel)
  {
    if keys != [] {
      var front := keys[..|keys| - 1];
      var last := keys[|keys| - 1];
      var a := RedrawLog(m, front, setup, size, force, offColor, fade, brightness);
      var b := RedrawOps(m, last, SetupAfter(m, front, setup), size, force, offColor, fade, brightness);
      assert log + (a + b) == (log + a) + b;
      RedrawShowsResolved(log, m, front, setup, size, force, offColor, fade, brightness, pixel);
      RedrawOpsShows(log + a, m, last, SetupAfter(m, front, setup), size, force, offColor, fade, brightness, pixel);
      assert keys == front + [last];
      assert pixel in keys <==> pixel in front || pixel == last;
    } else {
      assert log + [] == log;
    }
  }

  /** With unique entity ids on every LED, a redraw leaves the bindings as they were. */
  lemma RedrawKeepsUniqueMappings(m: Mappings)
    requires forall led | led in m :: UniqueIds(m[led])
    ensures RedrawMappings(m) == m
  {
    forall led | led in m
      ensures RedrawMappings(m)[led] == m[led]
    {
      RedrawKeepsUniqueList(m[led]);
    }
  }

  // ---------------------------------------------------------------------------
  // The component
  // ---------------------------------------------------------------------------

  /**
   * The one-time blackout of `on_homeassistant_state`: the loop runs `size()`
   * times, but every pass writes black to the updated LED `led`, not to pixel `i`.
   */
  method BlackOut(s: Strip, led: int)
    modifies s
    ensures s.log == old(s.log) + Repeat(PixelSet(led, BLACK), s.size)
  {
    var i := 0;
    while i < s.size
      invariant 0 <= i <= s.size
      invariant s.log == old(s.log) + Repeat(PixelSet(led, BLACK), i)
    {
      s.Set(led, BLACK);
      i := i + 1;
    }
  }

  class NeopixelAggregator {
    /**
     * The brightness fade `map_color` applies, `Color::fade_to_black((1.0 - brightness) * 255)`,
     * as a function of the colour and the brightness.
     */
    const fade: (Color, real) -> Color

    /** `neopixel_entity_`: the strip, or null while none is attached. */
    var strip: Strip?
    var heartbeat: int
    var heartbeatPhase: int
    var didLedSetup: bool
    var heartbeatSpeed: nat
    var brightness: real
    var forceAllOn: bool
    var offColor: Color
    var ledMappings: Mappings
    /** The period of the registered "heartbeat" interval, in milliseconds, or `None` before one is registered. */
    var heartbeatTimer: Option<nat>

    constructor (fade: (Color, real) -> Color)
      ensures this.fade == fade && strip == null
      ensures heartbeat == -1 && heartbeatPhase == 0 && heartbeatSpeed == 14 && heartbeatTimer == None
      ensures !didLedSetup
      ensures brightness == 1.0 && !forceAllOn && offColor == BLACK
      ensures ledMappings == map[]
    {
      this.fade := fade;
      strip := null;
      heartbeat := -1;
      heartbeatPhase := 0;
      didLedSetup := false;
      heartbeatSpeed := 14;
      brightness := 1.0;
      forceAllOn := false;
      offColor := BLACK;
      ledMappings := map[];
      heartbeatTimer := None;
    }

    /** `map_color`: a function, so applying brightness cannot change the component. */
    function MapColor(c: Color): Color
      reads this
    {
      fade(c, brightness)
    }

    twostate predicate HeartbeatUnchanged()
      reads this
    {
      heartbeat == old(heartbeat) && heartbeatPhase == old(heartbeatPhase) &&
      heartbeatSpeed == old(heartbeatSpeed) && heartbeatTimer == old(heartbeatTimer)
    }

    twostate predicate LookUnchanged()
      reads this
    {
      brightness == old(brightness) && forceAllOn == old(forceAllOn) && offColor == old(offColor)
    }

    /**
     * The effect of `redraw` on the state it started from, with the brightness,
     * off colour and force flag the component has now.
     */
    twostate predicate Redrawn()
      reads this, strip
    {
      var keys := SortedKeys(old(ledMappings).Keys);
      && strip == old(strip)
      && ledMappings == RedrawMappings(old(ledMappings))
      && (strip == null ==> didLedSetup == old(didLedSetup))
      && (strip != null ==>
            && didLedSetup == SetupAfter(old(ledMappings), keys, old(didLedSetup))
            && strip.log == old(strip.log) +
                 RedrawLog(old(ledMappings), keys, old(didLedSetup), strip.size, forceAllOn, offColor, fade, brightness))
    }

    /** `register_entity`: attach the strip. */
    method RegisterEntity(s: Strip)
      modifies this
      ensures strip == s
      ensures ledMappings == old(ledMappings) && didLedSetup == old(didLedSetup)
      ensures LookUnchanged() && HeartbeatUnchanged()
    {
      strip := s;
    }

    /** `add_led_mapping`: append an inactive binding to the LED's list, creating the list if needed. */
    method AddLedMapping(ledNumber: int, entityId: string, colorStr: string)
      modifies this
      ensures ledMappings ==
        old(ledMappings)[ledNumber := Lookup(old(ledMappings), ledNumber) + [Binding(entityId, HexToColor(colorStr), false)]]
      ensures strip == old(strip) && didLedSetup == old(didLedSetup)
      ensures LookUnchanged() && HeartbeatUnchanged()
    {
      var ledList := Lookup(ledMappings, ledNumber);
      ledList := ledList + [Binding(entityId, HexToColor(colorStr), false)];
      ledMappings := ledMappings[ledNumber := ledList];
    }

    /**
     * `on_homeassistant_state`: replace the entity's entries in the LED's list
     * (never appending), then, if a strip is attached, black out once, resolve
     * the LED's colour and write it through `map_color`.
     */
    method OnHomeassistantState(entityId: string, ledNumber: int, color: Color, stateBool: bool)
      modifies this, strip
      ensures ledMappings == old(ledMappings)[ledNumber :=
        ReplaceAll(Lookup(old(ledMappings), ledNumber), entityId, Binding(entityId, color, stateBool))]
      ensures strip == old(strip) && LookUnchanged() && HeartbeatUnchanged()
      ensures strip == null ==> didLedSetup == old(didLedSetup)
      ensures strip != null ==>
        && didLedSetup
        && strip.log == old(strip.log) +
             UpdateOps(ledNumber, old(didLedSetup), strip.size, MapColor(Resolve(ledMappings[ledNumber], forceAllOn, offColor)))
    {
      var newMapping := Binding(entityId, color, stateBool);
      var ledList := ReplaceIf(Lookup(ledMappings, ledNumber), entityId, newMapping);
      ledMappings := ledMappings[ledNumber := ledList];

      if strip == null {
        return;
      }
      ShowUpdate(ledNumber, ledList);
    }

    /**
     * The strip half of `on_homeassistant_state`: the one-time blackout, then
     * the colour `ledList` resolves to, through `map_color`, and a refresh.
     */
    method ShowUpdate(ledNumber: int, ledList: seq<Binding>)
      requires strip != null
      modifies this, strip
      ensures ledMappings == old(ledMappings) && strip == old(strip) && LookUnchanged() && HeartbeatUnchanged()
      ensures didLedSetup
      ensures strip.log == old(strip.log) +
        UpdateOps(ledNumber, old(didLedSetup), strip.size, MapColor(Resolve(ledList, forceAllOn, offColor)))
    {
      var s := strip;
      ghost var log0 := s.log;
      ghost var blackout := if didLedSetup then [] else Repeat(PixelSet(ledNumber, BLACK), s.size);

      var useColor := offColor;

      if !didLedSetup {
        BlackOut(s, ledNumber);
        didLedSetup := true;
      }
      assert s.log == log0 + blackout;

      useColor := ResolveColor(ledList, forceAllOn, useColor);

      s.Set(ledNumber, MapColor(useColor));
      s.ScheduleShow();
      assert s.log == log0 + (blackout + [PixelSet(ledNumber, MapColor(useColor)), ShowRequest]);
    }

    /** The subscription callback: a state string, read as on for "on" or "ON", delivered as an update. */
    method DeliverState(entityId: string, ledNumber: int, color: Color, state: string)
      modifies this, strip
      ensures ledMappings == old(ledMappings)[ledNumber :=
        ReplaceAll(Lookup(old(ledMappings), ledNumber), entityId, Binding(entityId, color, IsOnState(state)))]
      ensures strip == old(strip) && LookUnchanged() && HeartbeatUnchanged()
      ensures strip == null ==> didLedSetup == old(didLedSetup)
      ensures strip != null ==>
        && didLedSetup
        && strip.log == old(strip.log) +
             UpdateOps(ledNumber, old(didLedSetup), strip.size, MapColor(Resolve(ledMappings[ledNumber], forceAllOn, offColor)))
    {
      var stateBool := IsOnState(state);
      OnHomeassistantState(entityId, ledNumber, color, stateBool);
    }

    /**
     * One pass of the outer loop of `redraw`: re-deliver the first entry of the
     * copied list `ents` of LED `ledNumber` (the inner loop stops at `i <= 0`).
     */
    method RedrawLed(ledNumber: int, ents: seq<Binding>)
      requires ledNumber in ledMappings && ents == ledMappings[ledNumber]
      modifies this, strip
      ensures ledMappings == old(ledMappings)[ledNumber := RedrawList(ents)]
      ensures strip == old(strip) && LookUnchanged() && HeartbeatUnchanged()
      ensures strip == null || ents == [] ==> didLedSetup == old(didLedSetup)
      ensures strip != null ==>
        && didLedSetup == (old(didLedSetup) || ents != [])
        && strip.log == old(strip.log) +
             RedrawOps(old(ledMappings), ledNumber, old(didLedSetup), strip.size, forceAllOn, offColor, fade, brightness)
    {
      var i := 0;
      while i < |ents| && i <= 0
        invariant 0 <= i <= 1 && (i == 1 ==> ents != [])
        invariant strip == old(strip) && LookUnchanged() && HeartbeatUnchanged()
        invariant i == 0 ==> ledMappings == old(ledMappings) && didLedSetup == old(didLedSetup)
        invariant i == 0 && strip != null ==> strip.log == old(strip.log)
        invariant i == 1 ==> ledMappings == old(ledMappings)[ledNumber := RedrawList(ents)]
        invariant i == 1 && strip == null ==> didLedSetup == old(didLedSetup)
        invariant i == 1 && strip != null ==>
          && didLedSetup
          && strip.log == old(strip.log) +
               UpdateOps(ledNumber, old(didLedSetup), strip.size, MapColor(Resolve(RedrawList(ents), forceAllOn, offColor)))
      {
        var mapping := ents[i];
        OnHomeassistantState(mapping.entityId, ledNumber, mapping.color, mapping.active);
        i := i + 1;
      }
    }

    /**
     * The state `redraw` has reached after its first `n` LEDs (in the order
     * `keys`), starting from bindings `m0`, latch `setup0` and strip log `log0`.
     */
    predicate RedrawProgress(m0: Mappings, keys: seq<int>, n: nat, setup0: bool, log0: seq<StripOp>)
      requires n <= |keys|
      reads this, strip
    {
      && ledMappings == PartialRedraw(m0, keys[..n])
      && (strip == null ==> didLedSetup == setup0)
      && (strip != null ==>
            && didLedSetup == SetupAfter(m0, keys[..n], setup0)
            && strip.log == log0 + RedrawLog(m0, keys[..n], setup0, strip.size, forceAllOn, offColor, fade, brightness))
    }

    /** One pass of the outer loop of `redraw`, on the LED `keys[idx]`. */
    method RedrawNext(ghost m0: Mappings, keys: seq<int>, idx: nat, ghost setup0: bool, ghost log0: seq<StripOp>)
      requires idx < |keys| && keys[idx] in m0 && keys[idx] !in keys[..idx]
      requires RedrawProgress(m0, keys, idx, setup0, log0)
      modifies this, strip
      ensures strip == old(strip) && LookUnchanged() && HeartbeatUnchanged()
      ensures RedrawProgress(m0, keys, idx + 1, setup0, log0)
    {
      var ledNumber := keys[idx];
      PartialRedrawStep(m0, keys, idx);
      RedrawLogStep(m0, keys, idx, log0, setup0, if strip == null then 0 else strip.size, forceAllOn, offColor, fade, brightness);
      assert ledMappings[ledNumber] == m0[ledNumber];
      RedrawLed(ledNumber, ledMappings[ledNumber]);
    }

    /** The outer loop of `redraw`, over the LEDs `keys` of `m0` in order. */
    method RedrawLoop(keys: seq<int>, ghost m0: Mappings, ghost setup0: bool, ghost log0: seq<StripOp>)
      requires forall i, j | 0 <= i < j < |keys| :: keys[i] < keys[j]
      requires forall k :: k in keys <==> k in m0.Keys
      requires RedrawProgress(m0, keys, 0, setup0, log0)
      modifies this, strip
      ensures strip == old(strip) && LookUnchanged() && HeartbeatUnchanged()
      ensures RedrawProgress(m0, keys, |keys|, setup0, log0)
    {
      for idx := 0 to |keys|
        invariant strip == old(strip) && LookUnchanged() && HeartbeatUnchanged()
        invariant RedrawProgress(m0, keys, idx, setup0, log0)
      {
        KeyNotVisited(m0.Keys, keys, idx);
        RedrawNext(m0, keys, idx, setup0, log0);
      }
    }

    /** The outer loop of `redraw` over the keys in the order `keys`, stated on the state it starts from. */
    method RedrawKeys(keys: seq<int>)
      requires forall i, j | 0 <= i < j < |keys| :: keys[i] < keys[j]
      requires forall k :: k in keys <==> k in ledMappings.Keys
      modifies this, strip
      ensures strip == old(strip) && LookUnchanged() && HeartbeatUnchanged()
      ensures ledMappings == RedrawMappings(old(ledMappings))
      ensures strip == null ==> didLedSetup == old(didLedSetup)
      ensures strip != null ==>
        && didLedSetup == SetupAfter(old(ledMappings), keys, old(didLedSetup))
        && strip.log == old(strip.log) +
             RedrawLog(old(ledMappings), keys, old(didLedSetup), strip.size, forceAllOn, offColor, fade, brightness)
    {
      ghost var m0 := ledMappings;
      ghost var setup0 := didLedSetup;
      ghost var log0 := if strip == null then [] else strip.log;
      assert keys[..0] == [];
      PartialRedrawNone(m0);
      RedrawLoop(keys, m0, setup0, log0);
      assert keys[..|keys|] == keys;
      PartialRedrawComplete(m0, keys);
    }

    /**
     * `redraw`: for every LED in ascending order, re-deliver only the first
     * entry of its list; empty lists are skipped.
     */
    method Redraw()
      modifies this, strip
      ensures strip == old(strip) && LookUnchanged() && HeartbeatUnchanged()
      ensures Redrawn()
    {
      var keys := SortedKeys(ledMappings.Keys);
      RedrawKeys(keys);
    }

    /** `set_brightness`: store the brightness, then redraw. */
    method SetBrightness(brightness: real)
      modifies this, strip
      ensures this.brightness == brightness && forceAllOn == old(forceAllOn) && offColor == old(offColor)
      ensures strip == old(strip) && HeartbeatUnchanged()
      ensures Redrawn()
    {
      this.brightness := brightness;
      Redraw();
    }

    /** `set_off_color`: store the parsed off colour, then redraw. */
    method SetOffColor(offColorStr: string)
      modifies this, strip
      ensures offColor == HexToColor(offColorStr) && brightness == old(brightness) && forceAllOn == old(forceAllOn)
      ensures strip == old(strip) && HeartbeatUnchanged()
      ensures Redrawn()
    {
      offColor := HexToColor(offColorStr);
      Redraw();
    }

    /** `set_force`: store the flag; nothing is redrawn. */
    method SetForce(force: bool)
      modifies this
      ensures forceAllOn == force && brightness == old(brightness) && offColor == old(offColor)
      ensures ledMappings == old(ledMappings) && didLedSetup == old(didLedSetup) && strip == old(strip)
      ensures HeartbeatUnchanged()
    {
      forceAllOn := force;
    }

    /** `register_heartbeat`: a non-negative LED index becomes the heartbeat LED and starts the timer. */
    method RegisterHeartbeat(led: int)
      modifies this
      ensures led >= 0 ==> heartbeat == led && heartbeatTimer == Some(HEARTBEAT_PERIOD_MS)
      ensures led < 0 ==> heartbeat == old(heartbeat) && heartbeatTimer == old(heartbeatTimer)
      ensures heartbeatPhase == old(heartbeatPhase) && heartbeatSpeed == old(heartbeatSpeed)
      ensures ledMappings == old(ledMappings) && didLedSetup == old(didLedSetup) && strip == old(strip)
      ensures LookUnchanged()
    {
      if led >= 0 {
        heartbeat := led;
        heartbeatTimer := Some(HEARTBEAT_PERIOD_MS);
      }
    }

    /**
     * `heartbeat_interval`, one tick: the clock-derived hue, unless the network
     * or the API is down, written through `map_color` to the heartbeat LED.
     * The bindings are not consulted and the component does not change.
     */
    method HeartbeatInterval(micros: Micros, networkConnected: bool, apiConnected: bool)
      requires strip != null
      modifies strip
      ensures strip.log == old(strip.log) + [
        PixelSet(heartbeat, MapColor(HeartbeatColor(HeartbeatHue(micros, heartbeatSpeed), networkConnected, apiConnected))),
        ShowRequest]
    {
      var hue := HeartbeatHue(micros, heartbeatSpeed);
      var color := ToRgb(hue, HEARTBEAT_SATURATION, HEARTBEAT_VALUE);
      if !networkConnected {
        color := RED;
      } else if !apiConnected {
        color := BLUE;
      }
      strip.Set(heartbeat, MapColor(color));
      strip.ScheduleShow();
    }
  }
}
