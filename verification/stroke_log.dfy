/** The authoritative drawing history of one room (server/state-manager.js):
    the committed strokes in commit order plus a redo stack of undone
    strokes whose top is its LAST element, as with a JavaScript array used
    through push/pop. */
module StrokeLog {
  import opened Wrappers

  type UserId = string
  type StrokeId = string

  /** A canvas point. Coordinates are floats in the source; no arithmetic is
      done on them, so any totally opaque numeric type would do. */
  datatype Point = Point(x: int, y: int)

  /** The fields of a `stroke-start` message that a new stroke takes over. */
  datatype StartData = StartData(x: int, y: int, tool: string, color: string, width: int)

  datatype Stroke = Stroke(
    id: StrokeId,
    userId: UserId,
    tool: string,
    color: string,
    width: int,
    points: seq<Point>)

  datatype DrawingState = DrawingState(strokes: seq<Stroke>, redoStack: seq<Stroke>)

  /** What undo and redo give back: the new state, and either the resulting
      committed log or `None`, the "nothing to do" sentinel (`null`). */
  datatype LogResult = LogResult(state: DrawingState, result: Option<seq<Stroke>>)

  function Last(s: seq<Stroke>): Stroke
    requires s != []
  {
    s[|s| - 1]
  }

  function DropLast(s: seq<Stroke>): seq<Stroke>
    requires s != []
  {
    s[..|s| - 1]
  }

  /** The state of a freshly constructed log. */
  function Initial(): DrawingState {
    DrawingState([], [])
  }

  /** A stroke whose every point list is non-empty: what committed strokes
      and in-progress strokes always satisfy. */
  predicate HasPoints(s: Stroke) {
    s.points != []
  }

  predicate AllHavePoints(ss: seq<Stroke>) {
    forall i :: 0 <= i < |ss| ==> HasPoints(ss[i])
  }

  predicate LogWellFormed(d: DrawingState) {
    AllHavePoints(d.strokes) && AllHavePoints(d.redoStack)
  }

  /** startStroke: a new stroke for `userId` with the drawing fields of the
      message and the message's point as its only point. The identifier is
      the caller-supplied stand-in for the source's uuid(). The log itself is
      not an argument: starting a stroke cannot change it. */
  function StartStroke(strokeId: StrokeId, userId: UserId, data: StartData): (s: Stroke)
    ensures s.id == strokeId && s.userId == userId
    ensures s.tool == data.tool && s.color == data.color && s.width == data.width
    ensures |s.points| == 1 && s.points[0] == Point(data.x, data.y)
    ensures HasPoints(s)
  {
    Stroke(strokeId, userId, data.tool, data.color, data.width, [Point(data.x, data.y)])
  }

  /** addPoint: one more point at the end of an in-progress stroke. */
  function AddPoint(s: Stroke, p: Point): (r: Stroke)
    ensures |r.points| == |s.points| + 1
    ensures r.points[..|s.points|] == s.points && r.points[|s.points|] == p
    ensures r.(points := s.points) == s
    ensures HasPoints(r)
  {
    s.(points := s.points + [p])
  }

  /** The points of a gesture added one by one, in order. */
  function AddPoints(s: Stroke, ps: seq<Point>): Stroke
    decreases |ps|
  {
    if ps == [] then s else AddPoints(AddPoint(s, ps[0]), ps[1..])
  }

  /** A stroke started at the gesture's origin and fed the rest of the
      gesture holds exactly the gesture's points, in order, and keeps the
      id, author and drawing fields it was started with. */
  lemma {:induction false} StartThenAddPoints(strokeId: StrokeId, userId: UserId, data: StartData, ps: seq<Point>)
    ensures var s := AddPoints(StartStroke(strokeId, userId, data), ps);
            && s.points == [Point(data.x, data.y)] + ps
            && s.(points := []) == Stroke(strokeId, userId, data.tool, data.color, data.width, [])
  {
    AddPointsAppends(StartStroke(strokeId, userId, data), ps);
  }

  lemma {:induction false} AddPointsAppends(s: Stroke, ps: seq<Point>)
    ensures AddPoints(s, ps) == s.(points := s.points + ps)
    decreases |ps|
  {
    if ps == [] {
      assert s.points + ps == s.points;
    } else {
      AddPointsAppends(AddPoint(s, ps[0]), ps[1..]);
      assert (s.points + [ps[0]]) + ps[1..] == s.points + ps;
    }
  }

  /** commitStroke: the stroke goes on the end of the log and the redo stack
      is invalidated. Committing the same stroke twice is not prevented. */
  function CommitStroke(d: DrawingState, s: Stroke): (r: DrawingState)
    ensures |r.strokes| == |d.strokes| + 1
    ensures DropLast(r.strokes) == d.strokes && Last(r.strokes) == s
    ensures r.redoStack == []
  {
    DrawingState(d.strokes + [s], [])
  }

  /** undo: moves the last committed stroke onto the redo stack and returns
      the shortened log, which may be empty; `None` when the log is empty. */
  function Undo(d: DrawingState): (r: LogResult)
    ensures r.result.None? <==> d.strokes == []
    ensures r.result.None? ==> r.state == d
    ensures d.strokes != [] ==>
      && r.state.strokes == DropLast(d.strokes)
      && r.state.redoStack != []
      && DropLast(r.state.redoStack) == d.redoStack
      && Last(r.state.redoStack) == Last(d.strokes)
      && r.result == Some(r.state.strokes)
    ensures |r.state.strokes| + |r.state.redoStack| == |d.strokes| + |d.redoStack|
  {
    if d.strokes == [] then LogResult(d, None)
    else
      var n := |d.strokes|;
      var d' := DrawingState(d.strokes[..n - 1], d.redoStack + [d.strokes[n - 1]]);
      LogResult(d', Some(d'.strokes))
  }

  /** redo: pops the top of the redo stack back onto the end of the log and
      returns the lengthened log; `None` when the redo stack is empty. */
  function Redo(d: DrawingState): (r: LogResult)
    ensures r.result.None? <==> d.redoStack == []
    ensures r.result.None? ==> r.state == d
    ensures d.redoStack != [] ==>
      && r.state.redoStack == DropLast(d.redoStack)
      && r.state.strokes != []
      && DropLast(r.state.strokes) == d.strokes
      && Last(r.state.strokes) == Last(d.redoStack)
      && r.result == Some(r.state.strokes)
    ensures |r.state.strokes| + |r.state.redoStack| == |d.strokes| + |d.redoStack|
  {
    if d.redoStack == [] then LogResult(d, None)
    else
      var n := |d.redoStack|;
      var d' := DrawingState(d.strokes + [d.redoStack[n - 1]], d.redoStack[..n - 1]);
      LogResult(d', Some(d'.strokes))
  }

  /** getAllStrokes: the committed history, as replayed to late joiners. */
  function GetAllStrokes(d: DrawingState): seq<Stroke> {
    d.strokes
  }

  /** Undo then redo restores both sequences exactly and hands back the
      original log. */
  lemma UndoThenRedo(d: DrawingState)
    requires d.strokes != []
    ensures Redo(Undo(d).state).state == d
    ensures Redo(Undo(d).state).result == Some(d.strokes)
  {
    var u := Undo(d).state;
    assert u.strokes + [Last(d.strokes)] == d.strokes;
  }

  /** Redo then undo restores both sequences exactly. */
  lemma RedoThenUndo(d: DrawingState)
    requires d.redoStack != []
    ensures Undo(Redo(d).state).state == d
  {
    var r := Redo(d).state;
    assert r.redoStack + [Last(d.redoStack)] == d.redoStack;
  }

  /** Any commit invalidates redo: after commit, undo, commit', redo has
      nothing to do and changes nothing. */
  lemma CommitInvalidatesRedo(d: DrawingState, s: Stroke, s': Stroke)
    ensures Redo(CommitStroke(Undo(CommitStroke(d, s)).state, s')).result == None
    ensures var d' := CommitStroke(Undo(CommitStroke(d, s)).state, s');
            Redo(d').state == d' && d'.strokes == d.strokes + [s'] && d'.redoStack == []
  {
    var c := CommitStroke(d, s);
    assert DropLast(c.strokes) == d.strokes;
  }

  /** Commit, undo, redo succeeds and gives back the log with the stroke. */
  lemma CommitUndoRedo(d: DrawingState, s: Stroke)
    ensures Redo(Undo(CommitStroke(d, s)).state).result == Some(d.strokes + [s])
    ensures Redo(Undo(CommitStroke(d, s)).state).state == DrawingState(d.strokes + [s], [])
  {
    UndoThenRedo(CommitStroke(d, s));
  }

  /** The log operations keep every stroke they hold non-empty. */
  lemma OperationsKeepPoints(d: DrawingState, s: Stroke)
    requires LogWellFormed(d)
    ensures HasPoints(s) ==> LogWellFormed(CommitStroke(d, s))
    ensures LogWellFormed(Undo(d).state)
    ensures LogWellFormed(Redo(d).state)
  {
    if d.strokes != [] {
      var u := Undo(d).state;
      assert u.redoStack == d.redoStack + [Last(d.strokes)];
    }
    if d.redoStack != [] {
      var r := Redo(d).state;
      assert r.strokes == d.strokes + [Last(d.redoStack)];
    }
  }

  /** `k` undos in a row. */
  function UndoTimes(d: DrawingState, k: nat): DrawingState
    decreases k
  {
    if k == 0 then d else UndoTimes(Undo(d).state, k - 1)
  }

  /** `k` redos in a row. */
  function RedoTimes(d: DrawingState, k: nat): DrawingState
    decreases k
  {
    if k == 0 then d else RedoTimes(Redo(d).state, k - 1)
  }

  /** The sequence read back to front. */
  function Reverse(s: seq<Stroke>): (r: seq<Stroke>)
    ensures |r| == |s|
  {
    if s == [] then [] else [Last(s)] + Reverse(DropLast(s))
  }

  /** One undo on a log that ends with `x`. */
  lemma UndoStep(d: DrawingState, front: seq<Stroke>, x: Stroke)
    requires d.strokes == front + [x]
    ensures Undo(d).state == DrawingState(front, d.redoStack + [x])
  {
    assert DropLast(d.strokes) == front;
  }

  /** One redo on a redo stack whose top is `x`. */
  lemma RedoStep(d: DrawingState, below: seq<Stroke>, x: Stroke)
    requires d.redoStack == below + [x]
    ensures Redo(d).state == DrawingState(d.strokes + [x], below)
  {
    assert DropLast(d.redoStack) == below;
  }

  /** Undoing as many times as there are strokes after `keep` leaves
      `keep` as the log and pushes the undone strokes onto the redo stack,
      the earliest of them on top. */
  lemma {:induction false} UndoTimesShape(d: DrawingState, keep: seq<Stroke>, undone: seq<Stroke>)
    requires d.strokes == keep + undone
    ensures UndoTimes(d, |undone|) == DrawingState(keep, d.redoStack + Reverse(undone))
    decreases |undone|
  {
    if undone == [] {
      assert d.strokes == keep;
      assert d.redoStack + Reverse(undone) == d.redoStack;
    } else {
      var x := Last(undone);
      var rest := DropLast(undone);
      SplitLast(keep, undone);
      UndoStep(d, keep + rest, x);
      var u := DrawingState(keep + rest, d.redoStack + [x]);
      assert UndoTimes(d, |undone|) == UndoTimes(u, |rest|);
      UndoTimesShape(u, keep, rest);
      PushThenReverse(d.redoStack, undone);
    }
  }

  lemma SplitLast(keep: seq<Stroke>, undone: seq<Stroke>)
    requires undone != []
    ensures keep + undone == (keep + DropLast(undone)) + [Last(undone)]
  {
    assert undone == DropLast(undone) + [Last(undone)];
  }

  lemma PushThenReverse(below: seq<Stroke>, undone: seq<Stroke>)
    requires undone != []
    ensures (below + [Last(undone)]) + Reverse(DropLast(undone)) == below + Reverse(undone)
  {
  }

  /** The reverse of a non-empty sequence ends with its first element. */
  lemma {:induction false} ReverseEndsWithFirst(t: seq<Stroke>)
    requires t != []
    ensures Reverse(t) == Reverse(t[1..]) + [t[0]]
  {
    if |t| > 1 {
      ReverseEndsWithFirst(DropLast(t));
      assert DropLast(t)[1..] == DropLast(t[1..]);
      assert Last(t[1..]) == Last(t);
    } else {
      assert t[1..] == [];
    }
  }

  lemma PopReversed(rest: seq<Stroke>, t: seq<Stroke>)
    requires t != []
    ensures rest + Reverse(t) == (rest + Reverse(t[1..])) + [t[0]]
  {
    ReverseEndsWithFirst(t);
  }

  lemma AppendFirst(s: seq<Stroke>, t: seq<Stroke>)
    requires t != []
    ensures (s + [t[0]]) + t[1..] == s + t
  {
    assert t == [t[0]] + t[1..];
  }

  /** Redoing `|t|` times from a redo stack that ends with `t` reversed
      appends `t` to the log and leaves the rest of the stack. */
  lemma {:induction false} RedoTimesShape(e: DrawingState, rest: seq<Stroke>, t: seq<Stroke>)
    requires e.redoStack == rest + Reverse(t)
    ensures RedoTimes(e, |t|) == DrawingState(e.strokes + t, rest)
    decreases |t|
  {
    if t == [] {
      assert e.strokes + t == e.strokes;
      assert rest + Reverse(t) == rest;
    } else {
      var shorter := rest + Reverse(t[1..]);
      PopReversed(rest, t);
      RedoStep(e, shorter, t[0]);
      var r := DrawingState(e.strokes + [t[0]], shorter);
      assert RedoTimes(e, |t|) == RedoTimes(r, |t[1..]|);
      RedoTimesShape(r, rest, t[1..]);
      AppendFirst(e.strokes, t);
    }
  }

  /** `k` undos followed by `k` redos restore the log and the redo stack
      exactly: every undone stroke is recovered, in order. */
  lemma RedoTimesUndoesUndoTimes(d: DrawingState, k: nat)
    requires k <= |d.strokes|
    ensures RedoTimes(UndoTimes(d, k), k) == d
  {
    var n := |d.strokes|;
    var keep, undone := d.strokes[..n - k], d.strokes[n - k..];
    assert d.strokes == keep + undone;
    UndoTimesShape(d, keep, undone);
    RedoTimesShape(UndoTimes(d, k), d.redoStack, undone);
  }
}
