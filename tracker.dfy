/**
 * The tracker glue written in C++ inside the program: `init` seeds the box and
 * arms the object selection, and `track`, called once per frame, initialises
 * the tracker on its first call after `init` and on every later call updates
 * the box and reports it to the caller.
 *
 * The tracker itself is a foreign library. Its update is modelled as an
 * arbitrary box supplied by the caller (`updated`), and its initialisation as
 * an arbitrary success flag (`initOk`).
 */
module Tracker {
  import opened MachineWords

  datatype Option<T> = None | Some(value: T)

  /** The tracker's box, as the four `int32_t` values `track` reports. */
  datatype Rect = Rect(x: i32, y: i32, width: i32, height: i32)

  /** The box `init` seeds the tracker with. */
  const SeedBox: Rect := Rect(347, 85, 73, 70)

  /** The static state shared by `init` and `track`. */
  datatype TrackerState = TrackerState(box: Rect, selectObject: bool, initialized: bool)

  /** Program start: a zero box, both flags false. */
  const StartState: TrackerState := TrackerState(Rect(0, 0, 0, 0), false, false)

  /** `init`: seed the box and arm the selection; `initialized` is not touched. */
  function InitStep(s: TrackerState): (t: TrackerState)
    ensures t.selectObject && t.box == SeedBox
    ensures t.initialized == s.initialized
  {
    s.(box := SeedBox, selectObject := true)
  }

  /** The state after one `track` call and the box it wrote to `result`, if any. */
  datatype TrackOutcome = TrackOutcome(state: TrackerState, written: Option<Rect>)

  /**
   * One `track` call, given the box the tracker's update would produce: what it
   * does to each flag, and when it writes `result`.
   */
  function TrackStep(s: TrackerState, updated: Rect): (o: TrackOutcome)
    ensures o.state.initialized == (s.initialized || s.selectObject)
    ensures o.state.selectObject == s.selectObject
    ensures o.written.Some? <==> s.initialized
    ensures s.initialized ==> o.written == Some(updated) && o.state.box == updated
    ensures !s.initialized ==> o.state.box == s.box
  {
    if !s.initialized && s.selectObject then
      TrackOutcome(s.(initialized := true), None)
    else if s.initialized then
      TrackOutcome(s.(box := updated), Some(updated))
    else
      TrackOutcome(s, None)
  }

  /** The state after a sequence of `track` calls and every box written, in order. */
  datatype RunOutcome = RunOutcome(state: TrackerState, written: seq<Rect>)

  function Run(s: TrackerState, updates: seq<Rect>): RunOutcome
    decreases |updates|
  {
    if updates == [] then RunOutcome(s, [])
    else
      var o := TrackStep(s, updates[0]);
      var rest := Run(o.state, updates[1..]);
      RunOutcome(rest.state, (if o.written.Some? then [o.written.value] else []) + rest.written)
  }

  /**
   * Over any sequence of `track` calls `initialized` only moves from false to
   * true, `selectObject` is never changed, and once the tracker is initialised
   * every call writes its update.
   */
  lemma {:induction false} RunMonotone(s: TrackerState, updates: seq<Rect>)
    ensures s.initialized ==> Run(s, updates).state.initialized
    ensures Run(s, updates).state.selectObject == s.selectObject
    ensures s.initialized ==> Run(s, updates).written == updates
    ensures s.initialized && updates != [] ==> Run(s, updates).state.box == updates[|updates| - 1]
    decreases |updates|
  {
    if updates != [] {
      RunMonotone(TrackStep(s, updates[0]).state, updates[1..]);
      if s.initialized {
        assert updates == [updates[0]] + updates[1..];
        if |updates| > 1 {
          assert updates[1..][|updates[1..]| - 1] == updates[|updates| - 1];
        }
      }
    }
  }

  /** Without a prior `init`, `track` calls change nothing and write nothing. */
  lemma {:induction false} RunWithoutInit(s: TrackerState, updates: seq<Rect>)
    requires !s.selectObject && !s.initialized
    ensures Run(s, updates) == RunOutcome(s, [])
    decreases |updates|
  {
    if updates != [] {
      RunWithoutInit(s, updates[1..]);
    }
  }

  /**
   * The program's life: `init` once, then one `track` per frame. The first call
   * only initialises the tracker and writes nothing; from the second call on,
   * every update is written, so `result` sees exactly the updates after the first.
   */
  lemma {:induction false} RunAfterInit(s: TrackerState, updates: seq<Rect>)
    requires !s.initialized
    ensures Run(InitStep(s), updates).state.initialized == (updates != [])
    ensures Run(InitStep(s), updates).written == if updates == [] then [] else updates[1..]
  {
    if updates != [] {
      var first := TrackStep(InitStep(s), updates[0]);
      assert first.state.initialized && first.written == None;
      RunMonotone(first.state, updates[1..]);
    }
  }

  /**
   * The static variables of the C++ glue. `boundingBox` is a `Rect2d` of
   * doubles there; here it holds the `int32_t` values `track` reports.
   */
  class TrackerContext {
    var boundingBox: Rect
    var selectObject: bool
    var initialized: bool

    function State(): TrackerState
      reads this
    {
      TrackerState(boundingBox, selectObject, initialized)
    }

    /** The statics' initial values. */
    constructor ()
      ensures State() == StartState
    {
      boundingBox := Rect(0, 0, 0, 0);
      selectObject := false;
      initialized := false;
    }

    /** `init`: creating the tracker object is left to the library. */
    method Init()
      modifies this
      ensures State() == InitStep(old(State()))
      ensures selectObject && boundingBox == SeedBox
      ensures initialized == old(initialized)
    {
      boundingBox := SeedBox;
      selectObject := true;
    }

    /**
     * `track`. On the first call after `init` the tracker is initialised
     * (whether `initOk` or not, the flag is set and `result` is not written);
     * once initialised, the box becomes the tracker's update and is written to
     * `result[0..4]` as x, y, width, height.
     */
    method Track(result: array<i32>, updated: Rect, initOk: bool)
      requires result.Length >= 4
      modifies this, result
      ensures State() == TrackStep(old(State()), updated).state
      ensures old(initialized) ==> initialized
      ensures !old(initialized) ==> unchanged(result)
      ensures old(initialized) ==>
        result[..] == [updated.x, updated.y, updated.width, updated.height] + old(result[4..])
    {
      if !initialized && selectObject {
        // A failed initialisation only prints a message; the flag is set regardless.
        initialized := true;
      } else if initialized {
        boundingBox := updated;
        result[0] := boundingBox.x;
        result[1] := boundingBox.y;
        result[2] := boundingBox.width;
        result[3] := boundingBox.height;
      }
    }
  }
}
