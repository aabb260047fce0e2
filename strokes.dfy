/**
 * The stroke recorder of canvas.js as a transition system: the pair of
 * module-level variables `drawing` and `points`, and what each pointer
 * event does to them. The class `Canvas.DrawingCanvas` holds the same two
 * fields and its handlers are proved to take exactly these steps, so the
 * trace lemmas below describe every run of the handlers.
 */
module Strokes {

  /** A pointer position relative to the canvas. The coordinates come from
      floating-point DOM values and are never inspected, only stored. */
  datatype Point = Point(x: real, y: real)

  /** The pointer events the canvas listens to. `pointerup` and `pointerout`
      are both bound to the same handler. */
  datatype Event = PointerDown | PointerUp | PointerOut | PointerMove(p: Point)

  /** The recorder's state: the `drawing` flag and the captured `points`. */
  datatype RecorderState = RecorderState(drawing: bool, points: seq<Point>)

  /** The state at page load, and the state every release leaves behind. */
  const Idle := RecorderState(false, [])

  predicate IsRelease(e: Event) {
    e.PointerUp? || e.PointerOut?
  }

  /** One event handler: pointer-down sets the flag and keeps the points,
      a release clears both, a move appends only while drawing. After the
      step the recorder draws iff it was pressed, or was drawing and only
      moved; the path grows by at most one point; and "not drawing implies
      no points" is kept. */
  function Step(s: RecorderState, e: Event): (r: RecorderState)
    ensures r.drawing <==> e.PointerDown? || (s.drawing && e.PointerMove?)
    ensures |r.points| <= |s.points| + 1
    ensures Consistent(s) ==> Consistent(r)
  {
    match e
    case PointerDown => s.(drawing := true)
    case PointerUp => Idle
    case PointerOut => Idle
    case PointerMove(p) => if s.drawing then s.(points := s.points + [p]) else s
  }

  /** The state after handling `evs` in order, starting from `s`: the path
      gains at most one point per event, and a list that ends in a release
      leaves the recorder idle. */
  function Replay(s: RecorderState, evs: seq<Event>): (r: RecorderState)
    decreases |evs|
    ensures |r.points| <= |s.points| + |evs|
    ensures evs != [] && IsRelease(evs[|evs| - 1]) ==> r == Idle
  {
    if evs == [] then s else Replay(Step(s, evs[0]), evs[1..])
  }

  /** The positions carried by the move events of `evs`, in order. */
  function Moves(evs: seq<Event>): seq<Point>
    decreases |evs|
  {
    if evs == [] then []
    else (if evs[0].PointerMove? then [evs[0].p] else []) + Moves(evs[1..])
  }

  /** The index of the first pointer-down in `evs`, or |evs| if there is none. */
  function FirstDown(evs: seq<Event>): (k: nat)
    decreases |evs|
    ensures k <= |evs|
    ensures k < |evs| ==> evs[k].PointerDown?
    ensures forall i :: 0 <= i < k ==> !evs[i].PointerDown?
  {
    if evs == [] then 0
    else if evs[0].PointerDown? then 0
    else 1 + FirstDown(evs[1..])
  }

  predicate NoRelease(evs: seq<Event>) {
    forall i :: 0 <= i < |evs| ==> !IsRelease(evs[i])
  }

  /** The recorder never holds points while it is not drawing. */
  predicate Consistent(s: RecorderState) {
    s.drawing || s.points == []
  }

  /** Handling events one list after another is handling their concatenation. */
  lemma {:induction false} ReplayAppend(s: RecorderState, a: seq<Event>, b: seq<Event>)
    ensures Replay(s, a + b) == Replay(Replay(s, a), b)
    decreases |a|
  {
    if a == [] {
      assert a + b == b;
    } else {
      assert (a + b)[0] == a[0];
      assert (a + b)[1..] == a[1..] + b;
      ReplayAppend(Step(s, a[0]), a[1..], b);
    }
  }

  /** Every handler keeps "not drawing implies no points"; in particular a
      pointer-down that starts a gesture from a consistent state starts it
      with an empty path, even though pointer-down itself does not clear. */
  lemma {:induction false} ReplayKeepsConsistent(s: RecorderState, evs: seq<Event>)
    requires Consistent(s)
    ensures Consistent(Replay(s, evs))
    decreases |evs|
  {
    if evs != [] {
      ReplayKeepsConsistent(Step(s, evs[0]), evs[1..]);
    }
  }

  /** Within one gesture (no release among the events) the recorder draws
      exactly when it was drawing already or some pointer-down occurred, and
      the path grows by the move positions from the moment drawing began. */
  lemma {:induction false} ReplayWithinGesture(s: RecorderState, evs: seq<Event>)
    requires NoRelease(evs)
    ensures Replay(s, evs).drawing == (s.drawing || FirstDown(evs) < |evs|)
    ensures Replay(s, evs).points
         == s.points + Moves(evs[if s.drawing then 0 else FirstDown(evs)..])
    decreases |evs|
  {
    if evs == [] {
      assert s.points + [] == s.points;
    } else {
      var e, rest := evs[0], evs[1..];
      assert evs == [e] + rest;
      assert NoRelease(rest) by {
        forall i | 0 <= i < |rest| ensures !IsRelease(rest[i]) {
          assert rest[i] == evs[i + 1];
        }
      }
      assert !IsRelease(evs[0]);
      ReplayWithinGesture(Step(s, e), rest);
      match e
      case PointerDown =>
        assert Moves(evs) == Moves(rest);
      case PointerMove(p) =>
        assert Moves(evs) == [p] + Moves(rest);
        if s.drawing {
          assert s.points + [p] + Moves(rest) == s.points + ([p] + Moves(rest));
        } else {
          assert FirstDown(evs) == 1 + FirstDown(rest);
          assert evs[FirstDown(evs)..] == rest[FirstDown(rest)..];
        }
    }
  }

  /** A gesture from the idle state: after a pointer-down and any events
      without a release, the recorder is drawing and its path is exactly the
      positions of the moves, in order. */
  lemma GesturePath(evs: seq<Event>)
    requires NoRelease(evs)
    ensures Replay(Idle, [PointerDown] + evs).drawing
    ensures Replay(Idle, [PointerDown] + evs).points == Moves(evs)
  {
    var g := [PointerDown] + evs;
    assert g[0] == PointerDown && g[1..] == evs;
    assert Replay(Idle, g) == Replay(RecorderState(true, []), evs);
    ReplayWithinGesture(RecorderState(true, []), evs);
    assert evs[0..] == evs;
  }

  /** A pointer-up or pointer-out forgets everything before it: what follows
      a release behaves as from page load. */
  lemma {:induction false} ReleaseForgets(s: RecorderState, before: seq<Event>, e: Event, after: seq<Event>)
    requires IsRelease(e)
    ensures Replay(s, before + [e] + after) == Replay(Idle, after)
  {
    ReplayAppend(s, before + [e], after);
    ReplayAppend(s, before, [e]);
    assert Replay(Replay(s, before), [e]) == Step(Replay(s, before), e);
  }
}
