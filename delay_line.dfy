/** Clones ("echoes"): how a new clone is seeded from the player's trail,
    how each tick feeds the player's position through a clone's delay line,
    and what that delay line amounts to over many ticks. */
module DelayLine {
  import opened Geometry
  import opened Animation

  /** A recorded player position (top-left corner of the player's rectangle). */
  datatype Pos = Pos(x: int, y: int)

  /** Ticks of delay of the first clone: 1.5 seconds at 60 ticks a second. */
  const BASE_DELAY: nat := 90

  /** One clone record. `queue` is its local delay line, `prevX`/`prevY` the
      reference position for the next move, `lastDy` the last vertical move
      (used only to pick the airborne sprite). */
  datatype Clone = Clone(rect: Rect, queue: seq<Pos>, delay: nat, facingRight: bool,
                         anim: Anim, prevX: int, prevY: int, lastDy: int)

  /** The shape every clone keeps: the size of the player, the reference
      position equal to its own position, and a delay line no longer than
      its delay. */
  predicate Synced(c: Clone) {
    && c.rect.w == PLAYER_W && c.rect.h == PLAYER_H
    && c.prevX == c.rect.x && c.prevY == c.rect.y
    && |c.queue| <= c.delay
  }

  function Min(a: int, b: int): int { if a < b then a else b }

  /** The delay of the clone that joins when `count` clones already exist. */
  function CloneDelay(count: nat): (d: nat)
    ensures d >= BASE_DELAY
  {
    BASE_DELAY * (count + 1)
  }

  /** The slice of the trail a new clone is seeded with: its last `d`
      samples, or all of it when it is shorter. */
  function Suffix(trail: seq<Pos>, d: nat): (r: seq<Pos>)
    requires d > 0
    ensures |r| == Min(d, |trail|)
    ensures r == trail[|trail| - |r|..]
  {
    if |trail| >= d then trail[|trail| - d..] else trail
  }

  /** A new clone with delay `d`, spawned while the player is at `player`
      and faces `facing`: seeded with the last `d` trail samples, standing
      on the oldest of them (or on the player when there are none), facing
      the way the seed moved overall (or the player's way when the seed is
      too short to tell). SpawnFromTrail states the seeding in full. */
  function Spawn(trail: seq<Pos>, d: nat, player: Rect, facing: bool): (c: Clone)
    requires d > 0
    ensures c.delay == d && Synced(c)
    ensures c.anim == Anim(0, 0) && c.lastDy == 0
  {
    var seed := Suffix(trail, d);
    var init := if seed != [] then seed[0] else Pos(player.x, player.y);
    var face := if |seed| >= 2 then seed[|seed| - 1].x - seed[0].x >= 0 else facing;
    Clone(Rect(init.x, init.y, PLAYER_W, PLAYER_H), seed, d, face, Anim(0, 0), init.x, init.y, 0)
  }

  /** A spawned clone's delay line is the last min(d, |trail|) trail
      samples; it starts on the oldest of them, so not on top of the
      player, or on the player when the trail is empty; it faces right
      exactly when the seed ends no further left than it starts. */
  lemma SpawnFromTrail(trail: seq<Pos>, d: nat, player: Rect, facing: bool)
    requires d > 0
    ensures var c := Spawn(trail, d, player, facing);
      && c.queue == Suffix(trail, d)
      && (c.queue != [] ==> Pos(c.rect.x, c.rect.y) == trail[|trail| - |c.queue|])
      && (c.queue == [] ==> c.rect.x == player.x && c.rect.y == player.y)
      && (|c.queue| >= 2 ==> (c.facingRight <==> c.queue[0].x <= c.queue[|c.queue| - 1].x))
      && (|c.queue| < 2 ==> c.facingRight == facing)
  {
    var c := Spawn(trail, d, player, facing);
    if |trail| >= d {
      assert c.queue == trail[|trail| - d..];
      assert c.queue[0] == trail[|trail| - d];
    } else {
      assert c.queue == trail;
    }
  }

  /** One tick of a clone: the player's position `p` enters the back of the
      delay line; once the line holds more than `delay` samples the oldest
      one leaves it and becomes the clone's position, and facing and the
      last vertical move follow the step just taken. */
  function Advance(c: Clone, p: Pos): (r: Clone)
    ensures r.delay == c.delay && r.anim == c.anim
    ensures Synced(c) ==> Synced(r)
    ensures |c.queue| < c.delay ==> r == c.(queue := c.queue + [p])
    ensures |c.queue| >= c.delay ==>
              && r.queue == (c.queue + [p])[1..]
              && Pos(r.rect.x, r.rect.y) == (c.queue + [p])[0]
              && r.rect.w == c.rect.w && r.rect.h == c.rect.h
              && r.prevX == r.rect.x && r.prevY == r.rect.y
              && r.lastDy == r.rect.y - c.prevY
              && (r.rect.x > c.prevX ==> r.facingRight)
              && (r.rect.x < c.prevX ==> !r.facingRight)
              && (r.rect.x == c.prevX ==> r.facingRight == c.facingRight)
  {
    var q := c.queue + [p];
    if |q| > c.delay then
      var b := q[0];
      var dx := b.x - c.prevX;
      var face := if dx > 0 then true else if dx < 0 then false else c.facingRight;
      c.(rect := c.rect.(x := b.x, y := b.y), queue := q[1..], facingRight := face,
         prevX := b.x, prevY := b.y, lastDy := b.y - c.prevY)
    else
      c.(queue := q)
  }

  /** The clone update loop of one tick: every clone's delay line takes the
      player's position `p`, in order; `hit` reports whether the player's
      rectangle `player` overlaps some clone once it has moved. */
  method AdvanceAll(clones: seq<Clone>, p: Pos, player: Rect) returns (moved: seq<Clone>, hit: bool)
    ensures |moved| == |clones|
    ensures forall i :: 0 <= i < |clones| ==> moved[i] == Advance(clones[i], p)
    ensures hit <==> exists i :: 0 <= i < |moved| && Overlaps(player, moved[i].rect)
  {
    moved := clones;
    hit := false;
    var i := 0;
    while i < |moved|
      invariant 0 <= i <= |moved| && |moved| == |clones|
      invariant forall j :: 0 <= j < i ==> moved[j] == Advance(clones[j], p)
      invariant forall j :: i <= j < |moved| ==> moved[j] == clones[j]
      invariant hit <==> exists j :: 0 <= j < i && Overlaps(player, moved[j].rect)
    {
      var c := moved[i];
      var q := c.queue + [p];
      if |q| > c.delay {
        var b := q[0];
        q := q[1..];
        var dx := b.x - c.prevX;
        var dy := b.y - c.prevY;
        var face := c.facingRight;
        if dx > 0 {
          face := true;
        } else if dx < 0 {
          face := false;
        }
        c := c.(rect := c.rect.(x := b.x, y := b.y), queue := q, facingRight := face,
                prevX := b.x, prevY := b.y, lastDy := dy);
      } else {
        c := c.(queue := q);
      }
      moved := moved[i := c];
      if Overlaps(player, c.rect) {
        hit := true;
      }
      i := i + 1;
    }
  }

  /** A clone fed the positions `ps`, one per tick, in order. */
  function Replay(c: Clone, ps: seq<Pos>): Clone
    decreases |ps|
  {
    if ps == [] then c else Advance(Replay(c, ps[..|ps| - 1]), ps[|ps| - 1])
  }

  /** One tick of the delay line, stated on the history `s` of every
      sample that entered it: when the line holds the last min(delay, |s|)
      samples of `s` before the tick, it holds the last min(delay, |s| + 1)
      samples of `s + [p]` after it, and the clone moves only once that
      history is longer than the delay. */
  lemma DelayStep(m: Clone, s: seq<Pos>, p: Pos)
    requires m.queue == s[|s| - Min(m.delay, |s|)..]
    ensures var t := s + [p]; var r := Advance(m, p);
      && r.queue == t[|t| - Min(m.delay, |t|)..]
      && (|t| <= m.delay ==> r.rect == m.rect)
      && (|t| > m.delay ==> Pos(r.rect.x, r.rect.y) == t[|t| - 1 - m.delay])
  {
  }

  /** The delay line over many ticks. Let `s` be the seed followed by every
      position fed since. The line always holds the last min(delay, |s|)
      samples of `s`, in order; the clone has not moved while `s` is no
      longer than the delay; afterwards it stands on the sample that
      entered `delay` ticks before the latest one. */
  lemma {:induction false} ReplayIsDelayLine(c: Clone, ps: seq<Pos>)
    requires |c.queue| <= c.delay
    ensures var s := c.queue + ps; var r := Replay(c, ps);
      && r.delay == c.delay
      && r.queue == s[|s| - Min(c.delay, |s|)..]
      && (|s| <= c.delay ==> r.rect == c.rect)
      && (|s| > c.delay && ps != [] ==> Pos(r.rect.x, r.rect.y) == s[|s| - 1 - c.delay])
    decreases |ps|
  {
    var s := c.queue + ps;
    if ps == [] {
      assert s == c.queue;
    } else {
      var init := ps[..|ps| - 1];
      var p := ps[|ps| - 1];
      ReplayIsDelayLine(c, init);
      var s' := c.queue + init;
      assert s == s' + [p];
      var m := Replay(c, init);
      DelayStep(m, s', p);
      if |s'| < c.delay {
        assert m.rect == c.rect;
      }
    }
  }

  /** The echo property: once a clone has been fed more than `delay`
      positions since it spawned, it stands where the player stood exactly
      `delay` ticks before the latest tick, whatever it was seeded with. */
  lemma EchoesPlayerAfterDelay(c: Clone, ps: seq<Pos>)
    requires |c.queue| <= c.delay && |ps| > c.delay
    ensures var r := Replay(c, ps);
      Pos(r.rect.x, r.rect.y) == ps[|ps| - 1 - c.delay]
  {
    var s := c.queue + ps;
    var k := |ps| - 1 - c.delay;
    assert |s| - 1 - c.delay == |c.queue| + k;
    assert s[|c.queue| + k] == ps[k];
    ReplayIsDelayLine(c, ps);
  }

  /** The delay line never grows past the clone's delay. */
  lemma {:induction false} ReplayKeepsSynced(c: Clone, ps: seq<Pos>)
    requires Synced(c)
    ensures Synced(Replay(c, ps)) && Replay(c, ps).delay == c.delay
    decreases |ps|
  {
    if ps != [] {
      ReplayKeepsSynced(c, ps[..|ps| - 1]);
    }
  }

  /** The clone-on-ground test used to pick its sprite: some platform
      overlaps it and its bottom edge is within 6 pixels of that
      platform's top. */
  predicate Grounded(r: Rect, plats: seq<Rect>) {
    exists i :: 0 <= i < |plats| && Overlaps(r, plats[i]) && -6 <= r.Bottom() - plats[i].y <= 6
  }

  /** The platform search loop, stopping at the first platform that holds
      the clone. */
  method CloneOnGround(r: Rect, plats: seq<Rect>) returns (onGround: bool)
    ensures onGround <==> Grounded(r, plats)
  {
    onGround := false;
    var i := 0;
    while i < |plats|
      invariant 0 <= i <= |plats|
      invariant !onGround
      invariant forall j :: 0 <= j < i ==> !(Overlaps(r, plats[j]) && -6 <= r.Bottom() - plats[j].y <= 6)
    {
      var d := r.Bottom() - plats[i].y;
      if Overlaps(r, plats[i]) && (if d < 0 then -d else d) <= 6 {
        onGround := true;
        break;
      }
      i := i + 1;
    }
  }
}
