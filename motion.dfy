/** The butterfly of main.py: its position integration at the fast cadence and
    the arrow keys that set its horizontal speed. */
module Motion {

  datatype Key = Left | Right | Quit | OtherKey

  datatype KeyEvent = Press(key: Key) | Release(key: Key)

  /** Position after moving at speed `v` for `dt` seconds. */
  function Drift(p: real, v: real, dt: real): real
  {
    p + v * dt
  }

  /** Moving for `dt1` then `dt2` at one speed is moving for `dt1 + dt2`. */
  lemma DriftSplits(p: real, v: real, dt1: real, dt2: real)
    ensures Drift(Drift(p, v, dt1), v, dt2) == Drift(p, v, dt1 + dt2)
  {
  }

  /** The horizontal speed after one key handler has run. */
  function KeyStep(dx: real, e: KeyEvent, speed: real): real
  {
    match e
    case Press(Left) => dx - speed
    case Press(Right) => dx + speed
    case Release(Left) => dx + speed
    case Release(Right) => dx - speed
    case _ => dx
  }

  /** The horizontal speed after the handlers of `events` have run in order. */
  function Replay(dx: real, events: seq<KeyEvent>, speed: real): real
  {
    if events == [] then dx
    else KeyStep(Replay(dx, events[..|events| - 1], speed), events[|events| - 1], speed)
  }

  /** The direction one handler pushes the speed: +1 right, -1 left, 0 neither. */
  function Push(e: KeyEvent): int
  {
    match e
    case Press(Left) => -1
    case Press(Right) => 1
    case Release(Left) => 1
    case Release(Right) => -1
    case _ => 0
  }

  /** Net push of a run of key events. */
  function NetPush(events: seq<KeyEvent>): int
  {
    if events == [] then 0 else NetPush(events[..|events| - 1]) + Push(events[|events| - 1])
  }

  /** Presses minus releases of `k` in `events`: how many times `k` is held. */
  function Held(events: seq<KeyEvent>, k: Key): int
  {
    if events == [] then 0
    else
      var e := events[|events| - 1];
      Held(events[..|events| - 1], k) + (if e == Press(k) then 1 else if e == Release(k) then -1 else 0)
  }

  /** The net push counts held right keys against held left keys. */
  lemma {:induction false} NetPushIsHeldDifference(events: seq<KeyEvent>)
    ensures NetPush(events) == Held(events, Right) - Held(events, Left)
  {
    if events != [] {
      NetPushIsHeldDifference(events[..|events| - 1]);
    }
  }

  lemma {:induction false} NetPushAppend(a: seq<KeyEvent>, b: seq<KeyEvent>)
    ensures NetPush(a + b) == NetPush(a) + NetPush(b)
  {
    if b != [] {
      var n := |b| - 1;
      assert (a + b)[..|a + b| - 1] == a + b[..n];
      NetPushAppend(a, b[..n]);
    } else {
      assert a + b == a;
    }
  }

  /** One handler moves the speed by `btn_speed` in its push direction. */
  lemma KeyStepIsPush(dx: real, e: KeyEvent, speed: real)
    ensures KeyStep(dx, e, speed) == dx + speed * (Push(e) as real)
  {
    match e
    case Press(Left) =>
    case Press(Right) =>
    case Release(Left) =>
    case Release(Right) =>
    case _ =>
  }

  /** The speed is the starting speed plus `btn_speed` times the net push. */
  lemma {:induction false} ReplayNet(dx: real, events: seq<KeyEvent>, speed: real)
    ensures Replay(dx, events, speed) == dx + speed * (NetPush(events) as real)
  {
    if events != [] {
      var n := |events| - 1;
      ReplayNet(dx, events[..n], speed);
      KeyStepIsPush(Replay(dx, events[..n], speed), events[n], speed);
      var p, q := NetPush(events[..n]) as real, Push(events[n]) as real;
      assert speed * p + speed * q == speed * (p + q);
    }
  }

  /** Starting from `dx`, the speed is `dx + btn_speed * (right held - left held)`. */
  lemma ReplayHeld(dx: real, events: seq<KeyEvent>, speed: real)
    ensures Replay(dx, events, speed) ==
            dx + speed * ((Held(events, Right) - Held(events, Left)) as real)
  {
    ReplayNet(dx, events, speed);
    NetPushIsHeldDifference(events);
  }

  /** Pressing a key, then whatever, then releasing it, leaves the speed as the
      whatever alone would. */
  lemma PressThenReleaseRestores(dx: real, k: Key, events: seq<KeyEvent>, speed: real)
    ensures Replay(dx, [Press(k)] + events + [Release(k)], speed) == Replay(dx, events, speed)
  {
    NetPushAppend([Press(k)] + events, [Release(k)]);
    NetPushAppend([Press(k)], events);
    assert [Press(k)][..0] == [] && [Release(k)][..0] == [];
    assert NetPush([Press(k)] + events + [Release(k)]) == NetPush(events);
    ReplayNet(dx, [Press(k)] + events + [Release(k)], speed);
    ReplayNet(dx, events, speed);
  }

  class Butterfly {
    var x: real
    var y: real
    var dx: real
    var dy: real
    /** `btn_speed`: the speed one held arrow key adds. */
    const btnSpeed: real
    /** The sprite's width (image width times scale 3), an opaque input. */
    const width: real

    /** The butterfly as created: at the left edge, 40 up, at rest. */
    constructor (width: real)
      ensures x == 0.0 && y == 40.0 && dx == 0.0 && dy == 0.0
      ensures btnSpeed == 80.0 && this.width == width
    {
      x, y, dx, dy := 0.0, 40.0, 0.0, 0.0;
      btnSpeed := 80.0;
      this.width := width;
    }

    /** `animation_update`: one step of position integration. */
    method AnimationUpdate(dt: real)
      modifies this
      ensures x == Drift(old(x), old(dx), dt) && y == Drift(old(y), old(dy), dt)
      ensures dx == old(dx) && dy == old(dy)
    {
      x := x + dx * dt;
      y := y + dy * dt;
    }

    /** `on_key_press`; closing the window on Q is outside the model. */
    method OnKeyPress(k: Key)
      modifies this
      ensures dx == KeyStep(old(dx), Press(k), btnSpeed)
      ensures x == old(x) && y == old(y) && dy == old(dy)
    {
      if k == Left {
        dx := dx - btnSpeed;
      }
      if k == Right {
        dx := dx + btnSpeed;
      }
    }

    /** `on_key_release` */
    method OnKeyRelease(k: Key)
      modifies this
      ensures dx == KeyStep(old(dx), Release(k), btnSpeed)
      ensures x == old(x) && y == old(y) && dy == old(dy)
    {
      if k == Left {
        dx := dx + btnSpeed;
      }
      if k == Right {
        dx := dx - btnSpeed;
      }
    }
  }
}
