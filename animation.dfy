/** The sprite frame counters shared by the coins, the player and the
    clones: a tick counter that wraps at a period and a frame index that
    then moves on, modulo the number of frames. */
module Animation {

  /** Ticks a frame is shown for (the player's, the clones' and the coins'
      counters all use 5). */
  const FRAME_PERIOD: nat := 5

  datatype Anim = Anim(timer: nat, index: nat)

  /** One tick of a frame counter with `frames` frames. */
  function Step(a: Anim, frames: nat): (r: Anim)
    requires frames > 0
    ensures r.timer < FRAME_PERIOD
    ensures a.index < frames ==> r.index < frames
    ensures a.timer + 1 < FRAME_PERIOD ==> r == Anim(a.timer + 1, a.index)
    ensures a.timer + 1 >= FRAME_PERIOD ==> r == Anim(0, (a.index + 1) % frames)
  {
    var t := a.timer + 1;
    if t >= FRAME_PERIOD then Anim(0, (a.index + 1) % frames) else Anim(t, a.index)
  }

  /** `k` ticks of a frame counter. */
  function Run(a: Anim, k: nat, frames: nat): Anim
    requires frames > 0
    decreases k
  {
    if k == 0 then a else Run(Step(a, frames), k - 1, frames)
  }

  /** From any timer value below the period, the frame index stays put
      until the timer reaches the period, then moves to the next frame
      (cyclically) and the timer restarts at zero. */
  lemma {:induction false} FrameAdvancesOncePerPeriod(a: Anim, frames: nat)
    requires frames > 0 && a.timer < FRAME_PERIOD
    ensures Run(a, FRAME_PERIOD - a.timer, frames) == Anim(0, (a.index + 1) % frames)
    ensures forall k :: 0 <= k < FRAME_PERIOD - a.timer ==> Run(a, k, frames).index == a.index
    decreases FRAME_PERIOD - a.timer
  {
    if a.timer + 1 < FRAME_PERIOD {
      var b := Step(a, frames);
      FrameAdvancesOncePerPeriod(b, frames);
      forall k | 0 <= k < FRAME_PERIOD - a.timer
        ensures Run(a, k, frames).index == a.index
      {
        if k > 0 {
          assert Run(a, k, frames) == Run(b, k - 1, frames);
        }
      }
    } else {
      assert Run(a, 1, frames) == Run(Step(a, frames), 0, frames);
    }
  }
}
