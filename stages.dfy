/** The four stage layouts, the coins placed above their raised platforms,
    and the choice of the next stage. */
module Stages {
  import opened Geometry

  /** No stage has more platforms than this. */
  const MAX_PLATFORMS: nat := 4

  /** The stage table. The first platform of every stage is the floor. */
  function StageTable(): (t: seq<seq<Rect>>)
    ensures |t| == 4
    ensures forall i :: 0 <= i < |t| ==> 0 < |t[i]| <= MAX_PLATFORMS
    ensures forall i :: 0 <= i < |t| ==> IsFloor(t[i][0])
    ensures forall i, j :: 0 <= i < |t| && 0 <= j < |t[i]| ==> 0 <= t[i][j].x && t[i][j].Right() <= WIDTH
  {
    var floor := Rect(0, HEIGHT - 50, WIDTH as nat, 60);
    [ [floor, Rect(150, HEIGHT - 220, 240, 30), Rect(475, HEIGHT - 380, 240, 30), Rect(800, HEIGHT - 220, 240, 30)],
      [floor, Rect(300, HEIGHT - 220, 240, 30), Rect(650, HEIGHT - 380, 240, 30)],
      [floor, Rect(150, HEIGHT - 220, 240, 30), Rect(475, HEIGHT - 380, 240, 30), Rect(800, HEIGHT - 300, 240, 30)],
      [floor, Rect(150, HEIGHT - 300, 240, 30), Rect(475, HEIGHT - 220, 240, 30), Rect(800, HEIGHT - 380, 240, 30)] ]
  }

  /** The coin loop skips the platform whose top is exactly the floor line. */
  predicate IsFloor(p: Rect) { p.y == HEIGHT - 50 }

  /** The coin for one raised platform: a 30x30 square horizontally centred
      on the platform with a 30-pixel gap between its bottom and the
      platform's top. */
  function CoinAbove(p: Rect): (c: Rect)
    ensures c.w == 30 && c.h == 30
    ensures c.CenterX() == p.CenterX()
    ensures c.Bottom() + 30 == p.y
  {
    Rect(p.CenterX() - 15, p.y - 60, 30, 30)
  }

  /** The coins of a stage, one per non-floor platform, in platform order. */
  function CoinsFor(plats: seq<Rect>): (coins: seq<Rect>)
    ensures |coins| <= |plats|
    ensures forall c :: c in coins ==> exists p :: p in plats && !IsFloor(p) && c == CoinAbove(p)
    ensures forall p :: p in plats && !IsFloor(p) ==> CoinAbove(p) in coins
    decreases |plats|
  {
    if plats == [] then []
    else
      var last := plats[|plats| - 1];
      CoinsFor(plats[..|plats| - 1]) + (if IsFloor(last) then [] else [CoinAbove(last)])
  }

  /** The start-up loop that places the coins of one stage. */
  method PlaceCoins(plats: seq<Rect>) returns (coins: seq<Rect>)
    ensures coins == CoinsFor(plats)
  {
    coins := [];
    var i := 0;
    while i < |plats|
      invariant 0 <= i <= |plats|
      invariant coins == CoinsFor(plats[..i])
    {
      assert plats[..i + 1][..i] == plats[..i];
      if IsFloor(plats[i]) {
        i := i + 1;
        continue;
      }
      coins := coins + [CoinAbove(plats[i])];
      i := i + 1;
    }
    assert plats[..i] == plats;
  }

  /** The start-up loop over the stage table: every stage gets its coins. */
  method PlaceAllCoins(stages: seq<seq<Rect>>) returns (table: seq<seq<Rect>>)
    ensures |table| == |stages|
    ensures forall i :: 0 <= i < |stages| ==> table[i] == CoinsFor(stages[i])
  {
    table := [];
    var k := 0;
    while k < |stages|
      invariant 0 <= k <= |stages| && |table| == k
      invariant forall i :: 0 <= i < k ==> table[i] == CoinsFor(stages[i])
    {
      var coins := PlaceCoins(stages[k]);
      table := table + [coins];
      k := k + 1;
    }
  }

  /** The stage indices the next stage may be drawn from: every index below
      `n` except the current one, in increasing order. */
  function OtherStages(n: nat, current: int): (r: seq<nat>)
    ensures forall i: nat :: i in r <==> i < n && i != current
    ensures forall j, k :: 0 <= j < k < |r| ==> r[j] < r[k]
    ensures |r| == if 0 <= current < n then n - 1 else n
  {
    if n == 0 then []
    else
      var below := OtherStages(n - 1, current);
      assert forall j :: 0 <= j < |below| ==> below[j] in below;
      below + (if n - 1 == current then [] else [n - 1])
  }
}
