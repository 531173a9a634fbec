/** Coins and score: which coins the player picks up in a tick, what they
    are worth, and the best-score rule. */
module Scoring {
  import opened Geometry

  /** A normal coin is worth one point; a blue one grants invincibility. */
  datatype CoinKind = Normal | Blue

  datatype Coin = Coin(rect: Rect, kind: CoinKind)

  /** The coins of a freshly loaded stage: the placed coin rectangles, in
      order, each blue when its draw says so. */
  function MakeCoins(rects: seq<Rect>, blue: seq<bool>): (r: seq<Coin>)
    requires |blue| >= |rects|
    ensures |r| == |rects|
    ensures forall i :: 0 <= i < |r| ==> r[i].rect == rects[i] && (r[i].kind == Blue <==> blue[i])
  {
    seq(|rects|, i requires 0 <= i < |rects| => Coin(rects[i], if blue[i] then Blue else Normal))
  }

  /** Python's `list.remove`: drop the first element equal to `x`. */
  function RemoveFirst<T(==)>(s: seq<T>, x: T): (r: seq<T>)
    ensures x in s ==> |r| == |s| - 1
    ensures x !in s ==> r == s
    ensures forall y :: y in r ==> y in s
  {
    if s == [] then []
    else if s[0] == x then s[1..]
    else [s[0]] + RemoveFirst(s[1..], x)
  }

  /** Removing an element that is not in `a` from `a + [x] + b` removes
      exactly that `x`. */
  lemma {:induction false} RemoveFirstAt<T>(a: seq<T>, x: T, b: seq<T>)
    requires x !in a
    ensures RemoveFirst(a + [x] + b, x) == a + b
  {
    if a == [] {
      assert a + [x] + b == [x] + b;
    } else {
      assert (a + [x] + b)[1..] == a[1..] + [x] + b;
      RemoveFirstAt(a[1..], x, b);
      assert [a[0]] + (a[1..] + b) == a + b;
    }
  }

  predicate Touches(player: Rect, c: Coin) { Overlaps(player, c.rect) }

  /** The coins left on the stage after the player at `player` has picked
      up every coin it touches: the untouched ones, in their old order. */
  function Kept(player: Rect, coins: seq<Coin>): (r: seq<Coin>)
    ensures |r| <= |coins|
    decreases |coins|
  {
    if coins == [] then []
    else
      var last := coins[|coins| - 1];
      Kept(player, coins[..|coins| - 1]) + (if Touches(player, last) then [] else [last])
  }

  /** The kept coins are exactly the untouched ones. */
  lemma {:induction false} KeptMembers(player: Rect, coins: seq<Coin>)
    ensures forall c :: c in Kept(player, coins) <==> c in coins && !Touches(player, c)
    decreases |coins|
  {
    if coins != [] {
      var init := coins[..|coins| - 1];
      KeptMembers(player, init);
      assert coins == init + [coins[|coins| - 1]];
    }
  }

  /** Points scored: the number of touched normal coins. */
  function Gained(player: Rect, coins: seq<Coin>): nat
    decreases |coins|
  {
    if coins == [] then 0
    else
      var last := coins[|coins| - 1];
      Gained(player, coins[..|coins| - 1]) + (if Touches(player, last) && last.kind == Normal then 1 else 0)
  }

  /** Every coin the player touches either scores or is blue, and either way
      leaves the stage: the points plus the coins left never exceed the coins
      there were, and they add up exactly when no blue coin was touched. */
  lemma {:induction false} PickupAccounting(player: Rect, coins: seq<Coin>)
    ensures Gained(player, coins) + |Kept(player, coins)| <= |coins|
    ensures Gained(player, coins) + |Kept(player, coins)| == |coins| <==> !TouchedBlue(player, coins)
    decreases |coins|
  {
    if coins != [] {
      PickupAccounting(player, coins[..|coins| - 1]);
    }
  }

  /** The pickup loop of one tick. It walks a snapshot of the coin list and
      removes each touched coin from the live list (the first equal one,
      as `list.remove` does); a touched normal coin scores a point, a
      touched blue one switches invincibility on and restarts its timer at
      `now`. */
  method PickUpCoins(player: Rect, coins: seq<Coin>, score: nat, invincible: bool, timer: int, now: int)
    returns (live: seq<Coin>, score': nat, invincible': bool, timer': int)
    ensures live == Kept(player, coins)
    ensures score' == score + Gained(player, coins)
    ensures invincible' == (invincible || TouchedBlue(player, coins))
    ensures timer' == if TouchedBlue(player, coins) then now else timer
  {
    live, score', invincible', timer' := coins, score, invincible, timer;
    var i := 0;
    while i < |coins|
      invariant 0 <= i <= |coins|
      invariant live == Kept(player, coins[..i]) + coins[i..]
      invariant score' == score + Gained(player, coins[..i])
      invariant invincible' == (invincible || TouchedBlue(player, coins[..i]))
      invariant timer' == if TouchedBlue(player, coins[..i]) then now else timer
    {
      var coin := coins[i];
      KeptStep(player, coins, i);
      GainedStep(player, coins, i);
      if Overlaps(player, coin.rect) {
        if coin.kind == Blue {
          invincible' := true;
          timer' := now;
        } else {
          score' := score' + 1;
        }
        live := RemoveFirst(live, coin);
      }
      i := i + 1;
    }
    assert coins[..i] == coins;
  }

  /** Some touched coin is blue. */
  predicate TouchedBlue(player: Rect, coins: seq<Coin>)
    decreases |coins|
  {
    if coins == [] then false
    else
      var last := coins[|coins| - 1];
      TouchedBlue(player, coins[..|coins| - 1]) || (Touches(player, last) && last.kind == Blue)
  }

  /** Picking up distributes over concatenation, so the kept coins keep
      their relative order. */
  lemma {:induction false} KeptAppend(player: Rect, a: seq<Coin>, b: seq<Coin>)
    ensures Kept(player, a + b) == Kept(player, a) + Kept(player, b)
    decreases |b|
  {
    if b == [] {
      assert a + b == a;
    } else {
      var b' := b[..|b| - 1];
      assert (a + b)[..|a + b| - 1] == a + b';
      KeptAppend(player, a, b');
    }
  }

  /** One step of the pickup loop, which walks a snapshot `coins` of the
      coin list while removing from the live list. Before step `i` the live
      list is the kept coins of the first `i` snapshot entries followed by
      the rest of the snapshot. Removing the i-th coin (`list.remove`, the
      first equal element) when it is touched, or leaving the list alone
      when it is not, gives the same shape one entry further on. */
  lemma {:induction false} KeptStep(player: Rect, coins: seq<Coin>, i: nat)
    requires i < |coins|
    ensures var before := Kept(player, coins[..i]) + coins[i..];
      var after := Kept(player, coins[..i + 1]) + coins[i + 1..];
      && (Touches(player, coins[i]) ==> RemoveFirst(before, coins[i]) == after)
      && (!Touches(player, coins[i]) ==> before == after)
  {
    var c := coins[i];
    var rest := coins[i + 1..];
    assert coins[..i + 1][..i] == coins[..i];
    assert coins[..i + 1][i] == c;
    var k := Kept(player, coins[..i]);
    assert Kept(player, coins[..i + 1]) == k + (if Touches(player, c) then [] else [c]);
    assert k + coins[i..] == k + [c] + rest by {
      assert coins[i..] == [c] + rest;
    }
    if Touches(player, c) {
      KeptMembers(player, coins[..i]);
      RemoveFirstAt(k, c, rest);
    }
  }

  /** The points and the blue-coin flag of the pickup loop, one entry
      further on. */
  lemma {:induction false} GainedStep(player: Rect, coins: seq<Coin>, i: nat)
    requires i < |coins|
    ensures Gained(player, coins[..i + 1]) ==
              Gained(player, coins[..i]) + (if Touches(player, coins[i]) && coins[i].kind == Normal then 1 else 0)
    ensures TouchedBlue(player, coins[..i + 1]) <==>
              TouchedBlue(player, coins[..i]) || (Touches(player, coins[i]) && coins[i].kind == Blue)
  {
    assert coins[..i + 1][..i] == coins[..i];
  }

  /** The best score after a run: the stored one, replaced by the run's
      score only when that is strictly higher. */
  function NewHighScore(stored: int, score: int): (r: int)
    ensures r >= stored && r >= score
    ensures r == stored || r == score
  {
    if score > stored then score else stored
  }
}
