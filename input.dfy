/**
  `UProcessInput`: once per frame the viewer polls the keyboard, closes the
  window on Escape, forwards the six movement keys to the camera in a fixed
  order, switches the projection mode on P and O, and pauses or resumes the
  lamp orbit on L and K.
 */
module Input {
  import opened Camera

  /** The keys `UProcessInput` polls. */
  datatype Key = Escape | W | S | A | D | Q | E | P | O | L | K

  /** The order in which the movement keys are polled: W, S, A, D, Q, E. */
  function Rank(m: Movement): (n: nat)
    ensures n < 6
  {
    match m
    case Forward => 0
    case Backward => 1
    case Left => 2
    case Right => 3
    case Up => 4
    case Down => 5
  }

  /** The movement polled at position `n`. */
  function MovementAt(n: nat): (m: Movement)
    requires n < 6
    ensures Rank(m) == n
  {
    if n == 0 then Forward
    else if n == 1 then Backward
    else if n == 2 then Left
    else if n == 3 then Right
    else if n == 4 then Up
    else Down
  }

  /** The key that moves the camera in direction `m`. */
  function KeyFor(m: Movement): (k: Key)
    ensures k in {W, S, A, D, Q, E}
  {
    match m
    case Forward => W
    case Backward => S
    case Left => A
    case Right => D
    case Up => Q
    case Down => E
  }

  /**
    The camera calls the first `n` movement keys in polling order produce,
    in the order they are made.
   */
  function MovementCallsUpTo(keys: set<Key>, deltaTime: real, n: nat): (calls: seq<CameraCall>)
    requires n <= 6
    ensures |calls| <= n
  {
    if n == 0 then []
    else
      var m := MovementAt(n - 1);
      var earlier := MovementCallsUpTo(keys, deltaTime, n - 1);
      if KeyFor(m) in keys then earlier + [ProcessKeyboard(m, deltaTime)] else earlier
  }

  /**
    Polling the first `n` movement keys calls `ProcessKeyboard` once for each
    of them that is held, with the frame's time step, in polling order, and
    makes no other call.
   */
  lemma {:induction false} MovementCallsUpToSpec(keys: set<Key>, deltaTime: real, n: nat)
    requires n <= 6
    ensures var calls := MovementCallsUpTo(keys, deltaTime, n);
            (forall i :: 0 <= i < |calls| ==>
               calls[i].ProcessKeyboard? && calls[i].deltaTime == deltaTime && Rank(calls[i].direction) < n) &&
            (forall m :: ProcessKeyboard(m, deltaTime) in calls <==> Rank(m) < n && KeyFor(m) in keys) &&
            (forall i, j :: 0 <= i < j < |calls| ==> Rank(calls[i].direction) < Rank(calls[j].direction))
  {
    if n > 0 {
      MovementCallsUpToSpec(keys, deltaTime, n - 1);
    }
  }

  /** All camera calls one frame of keyboard polling produces. */
  function MovementCalls(keys: set<Key>, deltaTime: real): (calls: seq<CameraCall>)
    ensures |calls| <= 6
  {
    MovementCallsUpTo(keys, deltaTime, 6)
  }

  /**
    One frame of polling calls `ProcessKeyboard(m, deltaTime)` exactly for the
    directions whose key is held, each once, in the order W, S, A, D, Q, E.
   */
  lemma MovementCallsSpec(keys: set<Key>, deltaTime: real)
    ensures var calls := MovementCalls(keys, deltaTime);
            (forall i :: 0 <= i < |calls| ==> calls[i].ProcessKeyboard? && calls[i].deltaTime == deltaTime) &&
            (forall m :: ProcessKeyboard(m, deltaTime) in calls <==> KeyFor(m) in keys) &&
            (forall i, j :: 0 <= i < j < |calls| ==> Rank(calls[i].direction) < Rank(calls[j].direction))
  {
    MovementCallsUpToSpec(keys, deltaTime, 6);
  }

  /** Keys other than the six movement keys never reach the camera. */
  lemma MovementCallsIgnoreOtherKeys(keys: set<Key>, deltaTime: real)
    ensures MovementCalls(keys, deltaTime) == MovementCalls(keys * {W, S, A, D, Q, E}, deltaTime)
  {
    MovementCallsUpToIgnoreOtherKeys(keys, deltaTime, 6);
  }

  lemma {:induction false} MovementCallsUpToIgnoreOtherKeys(keys: set<Key>, deltaTime: real, n: nat)
    requires n <= 6
    ensures MovementCallsUpTo(keys, deltaTime, n) == MovementCallsUpTo(keys * {W, S, A, D, Q, E}, deltaTime, n)
  {
    if n > 0 {
      MovementCallsUpToIgnoreOtherKeys(keys, deltaTime, n - 1);
    }
  }

  /**
    The projection flag after one frame. P clears it, then O sets it; since
    O is checked second it wins when both are held.
   */
  function ProjectionFlag(before: bool, keys: set<Key>): (after: bool)
    ensures O in keys ==> after
    ensures P in keys && O !in keys ==> !after
    ensures P !in keys && O !in keys ==> after == before
  {
    var afterP := if P in keys then false else before;
    if O in keys then true else afterP
  }

  /** Holding the same keys for another frame changes the flag no further. */
  lemma ProjectionFlagSettles(before: bool, keys: set<Key>)
    ensures ProjectionFlag(ProjectionFlag(before, keys), keys) == ProjectionFlag(before, keys)
  {
  }

  /**
    The lamp orbit after one frame: L resumes a paused lamp, otherwise K
    pauses an orbiting one.
   */
  function LampToggle(orbiting: bool, keys: set<Key>): (after: bool)
    ensures after == if orbiting then K !in keys else L in keys
  {
    if L in keys && !orbiting then true
    else if K in keys && orbiting then false
    else orbiting
  }

  /** With L and K both held, the lamp flips between orbiting and paused every frame. */
  lemma LampToggleBothKeys(orbiting: bool, keys: set<Key>)
    requires L in keys && K in keys
    ensures LampToggle(orbiting, keys) == !orbiting
    ensures LampToggle(LampToggle(orbiting, keys), keys) == orbiting
  {
  }

  /** The globals `UProcessInput` reads and writes, apart from the camera. */
  class Controls {
    /** `perspective`: despite its name, `true` selects the orthographic view. */
    var perspective: bool
    /** `gIsLampOrbiting`. */
    var lampOrbiting: bool
    /** The window's should-close flag, set by Escape. */
    var closeRequested: bool

    /** The start-up values: perspective view, lamp orbiting, window open. */
    constructor ()
      ensures !perspective && lampOrbiting && !closeRequested
    {
      perspective := false;
      lampOrbiting := true;
      closeRequested := false;
    }

    /**
      One call of `UProcessInput` with the keys held this frame; returns the
      camera calls made, in order.
     */
    method ProcessInput(keys: set<Key>, deltaTime: real) returns (calls: seq<CameraCall>)
      modifies this
      ensures closeRequested == (old(closeRequested) || Escape in keys)
      ensures calls == MovementCalls(keys, deltaTime)
      ensures perspective == ProjectionFlag(old(perspective), keys)
      ensures lampOrbiting == LampToggle(old(lampOrbiting), keys)
    {
      if Escape in keys {
        closeRequested := true;
      }
      calls := [];
      if W in keys {
        calls := calls + [ProcessKeyboard(Forward, deltaTime)];
      }
      assert calls == MovementCallsUpTo(keys, deltaTime, 1);
      if S in keys {
        calls := calls + [ProcessKeyboard(Backward, deltaTime)];
      }
      assert calls == MovementCallsUpTo(keys, deltaTime, 2);
      if A in keys {
        calls := calls + [ProcessKeyboard(Left, deltaTime)];
      }
      assert calls == MovementCallsUpTo(keys, deltaTime, 3);
      if D in keys {
        calls := calls + [ProcessKeyboard(Right, deltaTime)];
      }
      assert calls == MovementCallsUpTo(keys, deltaTime, 4);
      if Q in keys {
        calls := calls + [ProcessKeyboard(Up, deltaTime)];
      }
      assert calls == MovementCallsUpTo(keys, deltaTime, 5);
      if E in keys {
        calls := calls + [ProcessKeyboard(Down, deltaTime)];
      }
      assert calls == MovementCallsUpTo(keys, deltaTime, 6);
      if P in keys {
        perspective := false;
      }
      if O in keys {
        perspective := true;
      }
      if L in keys && !lampOrbiting {
        lampOrbiting := true;
      } else if K in keys && lampOrbiting {
        lampOrbiting := false;
      }
    }
  }
}
