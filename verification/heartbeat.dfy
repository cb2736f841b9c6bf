/**
 * The heartbeat pattern: a slowly rotating, pale hue derived from the
 * microsecond clock, replaced by solid red while the network is down and by
 * solid blue while the network is up but the API session is not.
 */
module Heartbeat {
  import opened ColorMath

  /** The value of `micros()`, a `uint32_t`. */
  type Micros = x: int | 0 <= x < 0x1_0000_0000

  /** The saturation and value `heartbeat_interval` passes to `to_rgb`. */
  const HEARTBEAT_SATURATION: Byte := 40
  const HEARTBEAT_VALUE: Byte := 255

  function Pow2(n: nat): (p: nat)
    ensures p >= 1
  {
    if n == 0 then 1 else 2 * Pow2(n - 1)
  }

  /** `(micros() >> speed) & 0xFF`. */
  function HeartbeatHue(micros: Micros, speed: nat): Byte {
    (micros / Pow2(speed)) % 256
  }

  /** The colour of one heartbeat tick, before brightness. */
  function HeartbeatColor(hue: Byte, networkConnected: bool, apiConnected: bool): Color {
    if !networkConnected then RED
    else if !apiConnected then BLUE
    else ToRgb(hue, HEARTBEAT_SATURATION, HEARTBEAT_VALUE)
  }

  lemma {:induction false} Pow2Add(m: nat, n: nat)
    ensures Pow2(m + n) == Pow2(m) * Pow2(n)
  {
    if n > 0 {
      Pow2Add(m, n - 1);
    }
  }

  lemma DivAddMultiple(t: nat, k: nat, p: nat)
    requires p > 0
    ensures (t + k * p) / p == t / p + k
  {
    var x := t + k * p;
    var q, r := t / p, t % p;
    assert x == (q + k) * p + r;
    var d := x / p - (q + k);
    assert d * p == r - x % p;
  }

  /**
   * The hue runs through all 256 values every `2^(speed + 8)` microseconds:
   * one such period later the heartbeat shows the same hue again.
   */
  lemma HueRotationPeriod(t: Micros, speed: nat)
    requires t + Pow2(speed + 8) < 0x1_0000_0000
    ensures HeartbeatHue(t + Pow2(speed + 8), speed) == HeartbeatHue(t, speed)
  {
    var p := Pow2(speed);
    var period := Pow2(speed + 8);
    Pow2Add(speed, 8);
    assert Pow2(8) == 256;
    assert period == p * 256;
    DivAddMultiple(t, 256, p);
    var q := t / p;
    assert (t + period) / p == q + 256;
    assert (q + 256) % 256 == q % 256;
  }

  /**
   * A heartbeat at saturation 40 and full value is pale: every channel stays
   * between 181 and 221, whatever the hue.
   */
  lemma HeartbeatIsPale(hue: Byte)
    ensures var c := ToRgb(hue, HEARTBEAT_SATURATION, HEARTBEAT_VALUE);
      181 <= c.r <= 221 && 181 <= c.g <= 221 && 181 <= c.b <= 221
  {
    var h := HueColor(hue);
    DesaturateUnclipped(h, HEARTBEAT_SATURATION);
    var d := Desaturate(h, HEARTBEAT_SATURATION);
    assert Scale8(215, 215) == 181;
    Scale8Bounds(h.r, HEARTBEAT_SATURATION);
    Scale8Bounds(h.g, HEARTBEAT_SATURATION);
    Scale8Bounds(h.b, HEARTBEAT_SATURATION);
    assert 181 <= d.r <= 221 && 181 <= d.g <= 221 && 181 <= d.b <= 221;
    Scale8Full(d.r);
    Scale8Full(d.g);
    Scale8Full(d.b);
  }

  /**
   * The three connectivity states are told apart by colour: the rotating
   * heartbeat is never the red of a lost network nor the blue of a lost API.
   */
  lemma HeartbeatStatusDistinct(hue: Byte)
    ensures HeartbeatColor(hue, false, false) == HeartbeatColor(hue, false, true) == RED
    ensures HeartbeatColor(hue, true, false) == BLUE
    ensures HeartbeatColor(hue, true, true) != RED && HeartbeatColor(hue, true, true) != BLUE
  {
    HeartbeatIsPale(hue);
  }
}
