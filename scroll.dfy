/**
 * The useScrollDirection hook: a direction and the last stored scroll
 * position, updated on every scroll event with a noise threshold of 10.
 */
module ScrollDirection {

  datatype Direction = Up | Down

  /** Scroll movements of at most this many pixels never change the direction. */
  const NoiseThreshold: int := 10

  function Abs(x: int): (r: nat)
    ensures r == x || r == -x
  {
    if x < 0 then -x else x
  }

  /** `scrollY > 0 ? scrollY : 0`: negative overscroll is stored as 0. */
  function Clamp(scrollY: int): (r: int)
    ensures r >= 0 && r >= scrollY
    ensures r == scrollY || r == 0
  {
    if scrollY > 0 then scrollY else 0
  }

  /** The direction after one scroll event, following the handler's two tests. */
  function UpdatedDirection(current: Direction, lastScrollY: int, scrollY: int): (d: Direction)
    ensures Abs(scrollY - lastScrollY) <= NoiseThreshold ==> d == current
    ensures scrollY - lastScrollY > NoiseThreshold ==> d == Down
    ensures scrollY - lastScrollY < -NoiseThreshold ==> d == Up
  {
    var direction := if scrollY > lastScrollY then Down else Up;
    if direction != current && Abs(scrollY - lastScrollY) > NoiseThreshold then direction else current
  }

  /** The hook's two pieces of state. */
  datatype ScrollState = ScrollState(direction: Direction, lastScrollY: int)

  const Initial: ScrollState := ScrollState(Up, 0)

  /** One `updateScrollDirection` call. */
  function Step(s: ScrollState, scrollY: int): (t: ScrollState)
    ensures t.lastScrollY >= 0
  {
    ScrollState(UpdatedDirection(s.direction, s.lastScrollY, scrollY), Clamp(scrollY))
  }

  /** The state after a sequence of scroll events, in order. */
  function Replay(s: ScrollState, ys: seq<int>): (t: ScrollState)
    decreases |ys|
  {
    if ys == [] then s else Replay(Step(s, ys[0]), ys[1..])
  }

  /** After any events, the stored position is the last event's position clamped at 0. */
  lemma {:induction false} ReplayStoresLastPosition(s: ScrollState, ys: seq<int>)
    requires ys != []
    ensures Replay(s, ys).lastScrollY == Clamp(ys[|ys| - 1])
    ensures Replay(s, ys).lastScrollY >= 0
    decreases |ys|
  {
    if |ys| > 1 {
      ReplayStoresLastPosition(Step(s, ys[0]), ys[1..]);
    }
  }

  /** Every event moves at most NoiseThreshold from the position stored before it. */
  predicate Quiet(lastScrollY: int, ys: seq<int>)
    decreases |ys|
  {
    ys == [] || (Abs(ys[0] - lastScrollY) <= NoiseThreshold && Quiet(Clamp(ys[0]), ys[1..]))
  }

  /** Jitter within the noise threshold never changes the direction. */
  lemma {:induction false} QuietScrollKeepsDirection(s: ScrollState, ys: seq<int>)
    requires Quiet(s.lastScrollY, ys)
    ensures Replay(s, ys).direction == s.direction
    decreases |ys|
  {
    if ys != [] {
      QuietScrollKeepsDirection(Step(s, ys[0]), ys[1..]);
    }
  }

  /** Scrolling 0 -> 5 -> 3 keeps the initial direction; a jump of more than 10 each way flips it both times. */
  lemma ScrollScenarios()
    ensures Replay(Initial, [5, 3]) == ScrollState(Up, 3)
    ensures Replay(Initial, [20]) == ScrollState(Down, 20)
    ensures Replay(Initial, [20, 5]) == ScrollState(Up, 5)
    ensures Replay(Initial, [-30]) == ScrollState(Up, 0)
  {
  }

  /** The mounted hook. */
  class ScrollTracker {
    var scrollDirection: Direction
    var lastScrollY: int

    ghost predicate Valid()
      reads this
    {
      lastScrollY >= 0
    }

    function State(): (s: ScrollState)
      reads this
    {
      ScrollState(scrollDirection, lastScrollY)
    }

    constructor ()
      ensures Valid() && State() == Initial
    {
      scrollDirection := Up;
      lastScrollY := 0;
    }

    /** The scroll listener, with `window.scrollY` passed in. */
    method OnScroll(scrollY: int)
      requires Valid()
      modifies this
      ensures Valid()
      ensures State() == Step(old(State()), scrollY)
    {
      var direction := if scrollY > lastScrollY then Down else Up;
      if direction != scrollDirection && Abs(scrollY - lastScrollY) > NoiseThreshold {
        scrollDirection := direction;
      }
      lastScrollY := if scrollY > 0 then scrollY else 0;
    }
  }
}
