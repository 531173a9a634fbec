/** Screen geometry of Shadow Chase: integer rectangles, the rectangle
    overlap test, horizontal screen wrap and platform landing. */
module Geometry {

  const WIDTH: int := 1200
  const HEIGHT: int := 600

  /** Size of the player's (and every clone's) rectangle. */
  const PLAYER_W: nat := 60
  const PLAYER_H: nat := 90

  /** Platforms whose top lies above this line can be dropped through
      while DOWN is held; the floor cannot. */
  const DROP_LINE: int := HEIGHT - 60

  /** An axis-aligned rectangle as the game library stores it:
      top-left corner and size, all in whole pixels. */
  datatype Rect = Rect(x: int, y: int, w: nat, h: nat) {
    function Right(): int { x + w }
    function Bottom(): int { y + h }
    function CenterX(): int { x + w / 2 }

    /** The rectangle moved vertically so that its bottom edge is at `b`. */
    function WithBottom(b: int): (r: Rect)
      ensures r.Bottom() == b && r.x == x && r.w == w && r.h == h
    {
      this.(y := b - h)
    }
  }

  /** The library's `colliderect`: a rectangle of zero width or height
      touches nothing, and rectangles that merely share an edge do not
      overlap. */
  predicate Overlaps(a: Rect, b: Rect) {
    && a.w > 0 && a.h > 0 && b.w > 0 && b.h > 0
    && a.x < b.Right() && b.x < a.Right()
    && a.y < b.Bottom() && b.y < a.Bottom()
  }

  /** Horizontal wrap: a rectangle that has left the screen completely on
      one side re-enters at the opposite edge. Afterwards the rectangle
      always touches the closed horizontal span [0, WIDTH]. */
  function Wrap(r: Rect): (s: Rect)
    ensures s.y == r.y && s.w == r.w && s.h == r.h
    ensures 0 <= s.Right() && s.x <= WIDTH
    ensures 0 <= r.Right() && r.x <= WIDTH ==> s == r
    ensures r.Right() < 0 ==> s.x == WIDTH
    ensures r.x > WIDTH ==> s.Right() == 0
  {
    if r.Right() < 0 then r.(x := WIDTH)
    else if r.x > WIDTH then r.(x := -(r.w as int))
    else r
  }

  /** The player's vertical state: rectangle, vertical speed, on-ground flag. */
  datatype Body = Body(rect: Rect, velY: int, onGround: bool)

  /** True when a falling (or resting) body meets `plat` and stops on it:
      the floor always holds, a raised platform only when DOWN is not held. */
  predicate Catches(b: Body, plat: Rect, down: bool) {
    Overlaps(b.rect, plat) && b.velY >= 0 && (plat.y >= DROP_LINE || !down)
  }

  /** One step of the platform loop. */
  function LandOn(b: Body, plat: Rect, down: bool): (r: Body)
    ensures Catches(b, plat, down) ==>
              r.onGround && r.velY == 0 && r.rect.Bottom() == plat.y
              && r.rect.x == b.rect.x && r.rect.w == b.rect.w && r.rect.h == b.rect.h
    ensures !Catches(b, plat, down) ==> r == b
  {
    if Catches(b, plat, down) then Body(b.rect.WithBottom(plat.y), 0, true) else b
  }

  /** The whole platform loop: the platforms are tried in order, each one
      seeing the body the previous ones left. */
  function LandAll(b: Body, plats: seq<Rect>, down: bool): Body
    decreases |plats|
  {
    if plats == [] then b
    else LandOn(LandAll(b, plats[..|plats| - 1], down), plats[|plats| - 1], down)
  }

  /** After the platform loop the body is either untouched, or it stands on
      some platform: speed zero, bottom edge on that platform's top, and that
      platform is one the held keys let it stop on. Its horizontal position
      never changes. */
  lemma {:induction false} LandAllRests(b: Body, plats: seq<Rect>, down: bool)
    requires !b.onGround
    ensures var r := LandAll(b, plats, down);
      && r.rect.x == b.rect.x && r.rect.w == b.rect.w && r.rect.h == b.rect.h
      && (!r.onGround ==> r == b)
      && (r.onGround ==> r.velY == 0)
      && (r.onGround ==>
            exists i :: 0 <= i < |plats| && r.rect.Bottom() == plats[i].y
                                         && plats[i].x < r.rect.Right() && r.rect.x < plats[i].Right()
                                         && (plats[i].y >= DROP_LINE || !down))
  {
    if plats != [] {
      var init := plats[..|plats| - 1];
      var last := plats[|plats| - 1];
      LandAllRests(b, init, down);
      var m := LandAll(b, init, down);
      if Catches(m, last, down) {
        assert LandAll(b, plats, down).rect.Bottom() == plats[|plats| - 1].y;
      } else if m.onGround {
        var i :| 0 <= i < |init| && m.rect.Bottom() == init[i].y
                 && init[i].x < m.rect.Right() && m.rect.x < init[i].Right()
                 && (init[i].y >= DROP_LINE || !down);
        assert plats[i] == init[i];
      }
    }
  }

  /** A body that overlaps no platform while falling stays in the air. */
  lemma {:induction false} LandAllMissesAll(b: Body, plats: seq<Rect>, down: bool)
    requires forall i :: 0 <= i < |plats| ==> !Catches(b, plats[i], down)
    ensures LandAll(b, plats, down) == b
  {
    if plats != [] {
      LandAllMissesAll(b, plats[..|plats| - 1], down);
    }
  }

  /** A body that some platform catches while falling ends the platform
      loop standing: on the ground with speed zero. */
  lemma {:induction false} LandAllLands(b: Body, plats: seq<Rect>, down: bool)
    requires !b.onGround
    requires exists i :: 0 <= i < |plats| && Catches(b, plats[i], down)
    ensures LandAll(b, plats, down).onGround && LandAll(b, plats, down).velY == 0
  {
    var init := plats[..|plats| - 1];
    if exists i :: 0 <= i < |init| && Catches(b, init[i], down) {
      var i :| 0 <= i < |init| && Catches(b, init[i], down);
      LandAllLands(b, init, down);
      assert LandOn(LandAll(b, init, down), plats[|plats| - 1], down).onGround;
    } else {
      LandAllMissesAll(b, init, down);
      assert Catches(b, plats[|plats| - 1], down);
    }
  }
}
