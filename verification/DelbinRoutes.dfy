// DeLorme route uploads: route points one message each, the shape points between them in groups of
// at most 25 behind the route point they belong to.
module DelbinRoutes {
  import opened Sequences
  import opened Wrappers

  datatype Waypoint = Waypoint(isShape: bool, id: int)

  datatype RouteMsg =
    | RoutePoint(total: nat, index: nat, shapes: nat, wpt: Waypoint)
    | RouteShape(total: nat, index: nat, points: seq<Waypoint>)

  const POINTS_PER_MSG := 25

  function PointsOf(m: RouteMsg): seq<Waypoint> {
    match m
    case RoutePoint(_, _, _, w) => [w]
    case RouteShape(_, _, ws) => ws
  }

  // What a list of messages carries, in order.
  function Carried(msgs: seq<RouteMsg>): seq<Waypoint> {
    if msgs == [] then [] else Carried(msgs[..|msgs| - 1]) + PointsOf(msgs[|msgs| - 1])
  }

  lemma CarriedOne(msgs: seq<RouteMsg>, m: RouteMsg)
    ensures Carried(msgs + [m]) == Carried(msgs) + PointsOf(m)
  {
    assert (msgs + [m])[..|msgs|] == msgs;
  }

  lemma {:induction false} CarriedTogether(a: seq<RouteMsg>, b: seq<RouteMsg>)
    ensures Carried(a + b) == Carried(a) + Carried(b)
  {
    if b == [] {
      assert a + b == a;
    } else {
      var n := |b| - 1;
      CarriedTogether(a, b[..n]);
      assert (a + b)[..|a| + n] == a + b[..n];
      Associate(Carried(a), Carried(b[..n]), PointsOf(b[n]));
    }
  }

  // ---------------------------------------------------------------- counting

  function RoutePoints(ws: seq<Waypoint>): (n: nat)
    ensures n <= |ws|
  {
    if ws == [] then 0 else RoutePoints(ws[..|ws| - 1]) + if ws[|ws| - 1].isShape then 0 else 1
  }

  // Shape points that have exactly k route points before them.
  function CountAt(ws: seq<Waypoint>, k: nat): nat {
    if ws == [] then 0
    else
      var front := ws[..|ws| - 1];
      CountAt(front, k) + if ws[|ws| - 1].isShape && RoutePoints(front) == k then 1 else 0
  }

  // Shape points that have at least one and at most k route points before them.
  function UpTo(ws: seq<Waypoint>, k: nat): nat {
    if ws == [] then 0
    else
      var front := ws[..|ws| - 1];
      UpTo(front, k) + if ws[|ws| - 1].isShape && 1 <= RoutePoints(front) <= k then 1 else 0
  }

  lemma {:induction false} UpToNext(ws: seq<Waypoint>, k: nat)
    ensures UpTo(ws, k + 1) == UpTo(ws, k) + CountAt(ws, k + 1) && UpTo(ws, 0) == 0
  {
    if ws != [] {
      UpToNext(ws[..|ws| - 1], k);
    }
  }

  lemma {:induction false} UpToBound(ws: seq<Waypoint>, k: nat)
    ensures UpTo(ws, k) + RoutePoints(ws) <= |ws|
  {
    if ws != [] {
      UpToBound(ws[..|ws| - 1], k);
    }
  }

  lemma {:induction false} NoneBeyond(ws: seq<Waypoint>, k: nat)
    requires k > RoutePoints(ws)
    ensures CountAt(ws, k) == 0
  {
    if ws != [] {
      NoneBeyond(ws[..|ws| - 1], k);
    }
  }

  // Some shape point stands behind a route point.
  ghost predicate ShapeBehindPoint(ws: seq<Waypoint>) {
    exists i, j :: 0 <= i < j < |ws| && !ws[i].isShape && ws[j].isShape
  }

  lemma {:induction false} PointBefore(ws: seq<Waypoint>)
    ensures RoutePoints(ws) > 0 <==> exists i :: 0 <= i < |ws| && !ws[i].isShape
  {
    if ws != [] {
      var n := |ws| - 1;
      PointBefore(ws[..n]);
      if i :| 0 <= i < |ws| && !ws[i].isShape {
        assert i < n ==> !ws[..n][i].isShape;
      }
      if i :| 0 <= i < n && !ws[..n][i].isShape {
        assert !ws[i].isShape;
      }
    }
  }

  // Once k is large enough, a shape point behind a route point is counted, and no other is.
  lemma {:induction false} UpToMeaning(ws: seq<Waypoint>, k: nat)
    ensures UpTo(ws, k) > 0 ==> ShapeBehindPoint(ws)
    ensures k >= |ws| && ShapeBehindPoint(ws) ==> UpTo(ws, k) > 0
  {
    if ws != [] {
      var n := |ws| - 1;
      var front := ws[..n];
      UpToMeaning(front, k);
      PointBefore(front);
      if ShapeBehindPoint(front) {
        var i, j :| 0 <= i < j < |front| && !front[i].isShape && front[j].isShape;
        assert !ws[i].isShape && ws[j].isShape;
      }
      if ws[n].isShape && RoutePoints(front) > 0 {
        var i :| 0 <= i < |front| && !front[i].isShape;
        assert !ws[i].isShape;
      }
      if ShapeBehindPoint(ws) {
        var i, j :| 0 <= i < j < |ws| && !ws[i].isShape && ws[j].isShape;
        assert !front[i].isShape && (j < n ==> front[j].isShape);
      }
    }
  }

  /** The last count a loop over the route reads lies inside the slots, one for each waypoint, exactly if
      some shape point stands behind a route point. */
  lemma CountsFit(ws: seq<Waypoint>, last: nat)
    requires |ws| == last + UpTo(ws, last)
    ensures last < |ws| <==> ShapeBehindPoint(ws)
  {
    UpToMeaning(ws, last);
  }

  // Counts, as the route is announced point by point.
  method CountShapes(ws: seq<Waypoint>) returns (counts: array<nat>, routePoints: nat)
    ensures fresh(counts) && counts.Length == |ws| && routePoints == RoutePoints(ws)
    ensures forall k | 0 <= k < counts.Length :: counts[k] == CountAt(ws, k)
  {
    counts := new nat[|ws|](i => 0);
    routePoints := 0;
    var i := 0;
    while i < |ws|
      invariant 0 <= i <= |ws| && routePoints == RoutePoints(ws[..i])
      invariant forall k | 0 <= k < counts.Length :: counts[k] == CountAt(ws[..i], k)
    {
      assert ws[..i + 1][..i] == ws[..i];
      if ws[i].isShape {
        counts[routePoints] := counts[routePoints] + 1;
      } else {
        routePoints := routePoints + 1;
      }
      i := i + 1;
    }
    assert ws[..i] == ws;
  }

  // ---------------------------------------------------------------- what an upload should look like

  // How many shape points follow directly.
  function RunLength(ws: seq<Waypoint>): (n: nat)
    ensures n <= |ws|
  {
    if ws == [] || !ws[0].isShape then 0 else 1 + RunLength(ws[1..])
  }

  // The shape messages for a run of n points of which `done` are already sent: full groups and a rest.
  function Groups(run: seq<Waypoint>, n: nat, done: nat): seq<RouteMsg> {
    if run == [] then []
    else
      var j := if |run| < POINTS_PER_MSG then |run| else POINTS_PER_MSG;
      [RouteShape(n, done + 1, run[..j])] + Groups(run[j..], n, done + j)
  }

  // A correct upload: each route point is announced with its number and the length of the run of shape
  // points behind it, and that run follows at once.
  function Upload(ws: seq<Waypoint>, total: nat, index: nat): seq<RouteMsg> {
    if ws == [] then []
    else
      var n := RunLength(ws[1..]);
      [RoutePoint(total, index, n, ws[0])] + Groups(ws[1..1 + n], n, 0) + Upload(ws[1 + n..], total, index + 1)
  }

  // Shape points travel as such, and route points too.
  predicate InKind(msgs: seq<RouteMsg>) {
    forall i | 0 <= i < |msgs| :: match msgs[i]
      case RoutePoint(_, _, _, w) => !w.isShape
      case RouteShape(_, _, ws) => 0 < |ws| <= POINTS_PER_MSG && forall j | 0 <= j < |ws| :: ws[j].isShape
  }

  // ---------------------------------------------------------------- writing

  // The messages so far and those for what is not yet sent make up all groups.
  ghost predicate Sending(run: seq<Waypoint>, sent: nat, msgs: seq<RouteMsg>) {
    sent <= |run| && msgs + Groups(run[sent..], |run|, sent) == Groups(run, |run|, 0)
  }

  // A run of shape points, message by message; the counter j says how full the current one is.
  method WriteShapePoints(run: seq<Waypoint>) returns (msgs: seq<RouteMsg>)
    requires run != []
    ensures msgs == Groups(run, |run|, 0)
  {
    msgs := [];
    var n, i, j := |run|, 0, 0;
    var points: seq<Waypoint>, index: nat := [], 0;
    ghost var sent: nat := 0;
    assert run[0..] == run;
    while true
      invariant 0 <= sent <= i < n && j == i - sent < POINTS_PER_MSG
      invariant j > 0 ==> index == sent + 1 && points == run[sent..i]
      invariant Sending(run, sent, msgs)
      decreases n - i
    {
      if j == 0 {
        points, index := [], i + 1;
      }
      OnePoint(run, sent, i, points);
      points := points + [run[i]];
      i := i + 1;
      j := j + 1;
      if j == POINTS_PER_MSG || i == n {
        NextGroup(run, sent, i, msgs, RouteShape(n, index, points));
        msgs := msgs + [RouteShape(n, index, points)];
        sent := i;
        j := 0;
      }
      if i == n {
        AllSent(run, msgs);
        break;
      }
    }
  }

  lemma OnePoint(run: seq<Waypoint>, sent: nat, i: nat, points: seq<Waypoint>)
    requires sent <= i < |run| && points == run[sent..i]
    ensures points + [run[i]] == run[sent..i + 1]
  {
  }

  lemma AllSent(run: seq<Waypoint>, msgs: seq<RouteMsg>)
    requires Sending(run, |run|, msgs)
    ensures msgs == Groups(run, |run|, 0)
  {
    assert run[|run|..] == [];
  }

  lemma NextGroup(run: seq<Waypoint>, sent: nat, i: nat, msgs: seq<RouteMsg>, m: RouteMsg)
    requires sent < i <= |run| && i - sent <= POINTS_PER_MSG && (i - sent == POINTS_PER_MSG || i == |run|)
    requires m == RouteShape(|run|, sent + 1, run[sent..i]) && Sending(run, sent, msgs)
    ensures Sending(run, i, msgs + [m])
  {
    var rest, j := run[sent..], i - sent;
    assert rest[..j] == run[sent..i] && rest[j..] == run[i..];
    assert msgs + ([m] + Groups(run[i..], |run|, i)) == msgs + [m] + Groups(run[i..], |run|, i);
  }

  lemma {:induction false} GroupsCarry(run: seq<Waypoint>, n: nat, done: nat)
    ensures Carried(Groups(run, n, done)) == run
    decreases |run|
  {
    if run != [] {
      var j := if |run| < POINTS_PER_MSG then |run| else POINTS_PER_MSG;
      var m := RouteShape(n, done + 1, run[..j]);
      GroupsCarry(run[j..], n, done + j);
      CarriedTogether([m], Groups(run[j..], n, done + j));
      CarriedOne([], m);
      assert [] + [m] == [m];
      assert run == run[..j] + run[j..];
    }
  }

  predicate Aligned(ws: seq<Waypoint>) {
    ws == [] || !ws[0].isShape
  }

  ghost predicate Owed(ws: seq<Waypoint>, total: nat, next: nat, i: nat, msgs: seq<RouteMsg>)
    requires i <= |ws|
  {
    msgs + Upload(ws[i..], total, next) == Upload(ws, total, 1)
  }

  // As a correct upload goes, the messages so far and those for the rest make it up.
  ghost predicate Uploading(ws: seq<Waypoint>, total: nat, index: nat, i: nat, msgs: seq<RouteMsg>)
    requires i <= |ws|
  {
    && Owed(ws, total, index + 1, i, msgs)
    && RoutePoints(ws[..i]) == index && (i < |ws| ==> !ws[i].isShape)
  }

  lemma StepUploading(ws: seq<Waypoint>, total: nat, index: nat, i: nat, msgs: seq<RouteMsg>, n: nat, step: seq<RouteMsg>, index': nat, i': nat)
    requires i < |ws| && Uploading(ws, total, index, i, msgs) && n == CountAt(ws, index') && index' == index + 1 && i' == i + 1 + n <= |ws|
    requires step == [RoutePoint(total, index', n, ws[i])] + Groups(ws[i + 1..i'], n, 0)
    ensures Uploading(ws, total, index', i', msgs + step)
  {
    RunIsCounted(ws, i, index', n, i');
    UploadStep(ws, i, n, i', total, index', msgs, step);
  }

  // What the writer sends from waypoint i on, with `index` route points written: one more, and as many
  // waypoints as shape points as were counted for its number.
  function Plan(ws: seq<Waypoint>, total: nat, index: nat, i: nat): seq<RouteMsg>
    decreases |ws| - i
  {
    var n := CountAt(ws, index + 1);
    var next := i + 1 + n;
    if next > |ws| then []
    else [RoutePoint(total, index + 1, n, ws[i])] + Groups(ws[i + 1..next], n, 0) + Plan(ws, total, index + 1, next)
  }

  ghost predicate Planned(ws: seq<Waypoint>, total: nat, index: nat, i: nat, msgs: seq<RouteMsg>) {
    msgs + Plan(ws, total, index, i) == Plan(ws, total, 0, 0)
  }

  lemma StepPlanned(ws: seq<Waypoint>, total: nat, index: nat, i: nat, msgs: seq<RouteMsg>, n: nat, step: seq<RouteMsg>, index': nat, i': nat)
    requires Planned(ws, total, index, i, msgs) && n == CountAt(ws, index') && index' == index + 1 && i' == i + 1 + n <= |ws|
    requires step == [RoutePoint(total, index', n, ws[i])] + Groups(ws[i + 1..i'], n, 0)
    ensures Planned(ws, total, index', i', msgs + step)
  {
    Associate(msgs, step, Plan(ws, total, index', i'));
  }

  // Midway: so many route points, and the waypoints they took, are written.
  ghost predicate Writing(ws: seq<Waypoint>, total: nat, index: nat, i: nat, msgs: seq<RouteMsg>) {
    && i <= |ws| && i == index + UpTo(ws, index) && Carried(msgs) == ws[..i]
    && (Aligned(ws) ==> Uploading(ws, total, index, i, msgs)) && Planned(ws, total, index, i, msgs)
    && Begun(ws, i, msgs)
  }

  // The first message is a route point with the first waypoint.
  ghost predicate Begun(ws: seq<Waypoint>, i: nat, msgs: seq<RouteMsg>)
    requires i <= |ws|
  {
    if i == 0 then msgs == [] else msgs != [] && msgs[0].RoutePoint? && msgs[0].wpt == ws[0]
  }

  lemma BeginWriting(ws: seq<Waypoint>, total: nat)
    ensures Writing(ws, total, 0, 0, [])
  {
    UpToNext(ws, 0);
    assert ws[0..] == ws;
  }

  lemma StepWriting(ws: seq<Waypoint>, total: nat, index: nat, i: nat, msgs: seq<RouteMsg>, n: nat, step: seq<RouteMsg>, index': nat, i': nat)
    requires Writing(ws, total, index, i, msgs) && i < |ws| && n == CountAt(ws, index') && index' == index + 1 && i' == i + 1 + n <= |ws|
    requires step == [RoutePoint(total, index', n, ws[i])] + Groups(ws[i + 1..i'], n, 0) && Carried(step) == ws[i..i']
    ensures Writing(ws, total, index', i', msgs + step)
  {
    RunFits(ws, index, i);
    CarriedTogether(msgs, step);
    StepPlanned(ws, total, index, i, msgs, n, step, index', i');
    assert ws[..i] + ws[i..i'] == ws[..i'];
    if Aligned(ws) {
      StepUploading(ws, total, index, i, msgs, n, step, index', i');
    }
    StillBegun(ws, i, i', msgs, step);
  }

  lemma StillBegun(ws: seq<Waypoint>, i: nat, i': nat, msgs: seq<RouteMsg>, step: seq<RouteMsg>)
    requires i < i' <= |ws| && Begun(ws, i, msgs) && step != [] && step[0].RoutePoint? && step[0].wpt == ws[i]
    ensures Begun(ws, i', msgs + step)
  {
  }

  lemma EndWriting(ws: seq<Waypoint>, total: nat, index: nat, msgs: seq<RouteMsg>)
    requires Writing(ws, total, index, |ws|, msgs)
    ensures msgs == Plan(ws, total, 0, 0) && Carried(msgs) == ws
    ensures (Aligned(ws) ==> msgs == Upload(ws, total, 1)) && (InKind(msgs) <==> Aligned(ws))
  {
    assert ws[..|ws|] == ws && ws[|ws|..] == [];
    UploadInKind(ws, total, 1);
  }

  /** The whole route. The count of a route point one past the last waypoint is read behind the slots, where
      `behind` stands; if it is not 0, waypoints behind the list are read too and there is no result. Otherwise
      nothing is lost and the order is kept, and every waypoint travels as what it is exactly if the route
      does not begin with a shape point. */
  method WriteRoute(ws: seq<Waypoint>, behind: nat) returns (r: Option<seq<RouteMsg>>, last: nat)
    ensures |ws| == last + UpTo(ws, last) && (last < |ws| <==> ShapeBehindPoint(ws))
    ensures r.None? <==> behind > 0 && ws != [] && !ShapeBehindPoint(ws)
    ensures r.Some? ==> r.value == Plan(ws, RoutePoints(ws), 0, 0) && Carried(r.value) == ws
    ensures r.Some? && Aligned(ws) ==> r.value == Upload(ws, RoutePoints(ws), 1)
    ensures r.Some? ==> (InKind(r.value) <==> Aligned(ws))
  {
    var counts, total := CountShapes(ws);
    var msgs: seq<RouteMsg> := [];
    var i: nat := 0;
    last := 0;
    BeginWriting(ws, total);
    while i < |ws|
      invariant Writing(ws, total, last, i, msgs)
      invariant last == |ws| > 0 ==> behind == 0
      invariant counts.Length == |ws| && forall k | 0 <= k < counts.Length :: counts[k] == CountAt(ws, k)
      decreases |ws| - i
    {
      RunFits(ws, last, i);
      var point := last + 1;
      var n := if point < counts.Length then counts[point] else behind;
      if i + 1 + n > |ws| {
        CountsFit(ws, point);
        return None, point;
      }
      var step, next := WritePoint(ws, i, n, total, point);
      StepWriting(ws, total, last, i, msgs, n, step, point, next);
      msgs := msgs + step;
      last, i := point, next;
    }
    CountsFit(ws, last);
    EndWriting(ws, total, last, msgs);
    r := Some(msgs);
  }

  // One route point and its run.
  method WritePoint(ws: seq<Waypoint>, i: nat, n: nat, total: nat, index: nat) returns (msgs: seq<RouteMsg>, next: nat)
    requires i + 1 + n <= |ws|
    ensures next == i + 1 + n && msgs == [RoutePoint(total, index, n, ws[i])] + Groups(ws[i + 1..next], n, 0)
    ensures Carried(msgs) == ws[i..next]
  {
    var m := RoutePoint(total, index, n, ws[i]);
    msgs := [m];
    next := i + 1 + n;
    var run := ws[i + 1..next];
    if n != 0 {
      var shapes := WriteShapePoints(run);
      msgs := msgs + shapes;
    }
    PointCarries(m, run);
    assert [ws[i]] + run == ws[i..next];
  }

  lemma PointCarries(m: RouteMsg, run: seq<Waypoint>)
    ensures Carried([m] + Groups(run, |run|, 0)) == PointsOf(m) + run
  {
    GroupsCarry(run, |run|, 0);
    FirstCarries(m, Groups(run, |run|, 0));
  }

  lemma FirstCarries(m: RouteMsg, rest: seq<RouteMsg>)
    ensures Carried([m] + rest) == PointsOf(m) + Carried(rest)
  {
    var one, none: seq<RouteMsg> := [m], [];
    assert one[..0] == none && Carried(none) == [];
    assert Carried(one) == [] + PointsOf(m) == PointsOf(m);
    CarriedTogether(one, rest);
  }

  lemma RunFits(ws: seq<Waypoint>, k: nat, i: nat)
    requires i == k + UpTo(ws, k) && i < |ws|
    ensures k + 1 <= |ws| && i + 1 + CountAt(ws, k + 1) <= |ws|
    ensures i + 1 + CountAt(ws, k + 1) == k + 1 + UpTo(ws, k + 1)
  {
    UpToNext(ws, k);
    UpToBound(ws, k + 1);
    if k + 1 > RoutePoints(ws) {
      NoneBeyond(ws, k + 1);
    }
  }

  // ---------------------------------------------------------------- counts are run lengths

  // Behind more than k route points, nothing adds to the count at k.
  lemma {:induction false} CountStays(a: seq<Waypoint>, b: seq<Waypoint>, k: nat)
    requires RoutePoints(a) > k
    ensures CountAt(a + b, k) == CountAt(a, k) && RoutePoints(a + b) > k
  {
    if b == [] {
      assert a + b == a;
    } else {
      assert (a + b)[..|a + b| - 1] == a + b[..|b| - 1];
      CountStays(a, b[..|b| - 1], k);
    }
  }

  lemma {:induction false} CountRun(a: seq<Waypoint>, rest: seq<Waypoint>, k: nat)
    requires RoutePoints(a) == k
    ensures CountAt(a + rest, k) == CountAt(a, k) + RunLength(rest)
    ensures RoutePoints(a + rest[..RunLength(rest)]) == k
    decreases |rest|
  {
    if rest == [] {
      assert a + rest == a;
      assert a + rest[..0] == a;
    } else {
      var a' := a + [rest[0]];
      assert a'[..|a|] == a && a + rest == a' + rest[1..];
      if rest[0].isShape {
        CountRun(a', rest[1..], k);
        var n := RunLength(rest[1..]);
        assert a + rest[..1 + n] == a' + rest[1..][..n];
      } else {
        CountStays(a', rest[1..], k);
        assert a + rest[..0] == a;
      }
    }
  }

  // What was counted for a route point is the run behind it, if the count began with a route point.
  lemma RunIsCounted(ws: seq<Waypoint>, i: nat, index: nat, n: nat, i': nat)
    requires i < |ws| && index > 0 && RoutePoints(ws[..i]) == index - 1 && !ws[i].isShape
    requires n == CountAt(ws, index) && i' == i + 1 + n <= |ws|
    ensures n == RunLength(ws[i + 1..]) && RoutePoints(ws[..i']) == index
  {
    var a, b := ws[..i + 1], ws[i + 1..];
    assert a[..i] == ws[..i];
    NoneBeyond(ws[..i], index);
    CountRun(a, b, index);
    assert a + b == ws;
    assert a + b[..n] == ws[..i'];
  }

  lemma {:induction false} RunEnds(ws: seq<Waypoint>)
    ensures RunLength(ws) < |ws| ==> !ws[RunLength(ws)].isShape
  {
    if ws != [] && ws[0].isShape {
      RunEnds(ws[1..]);
    }
  }

  lemma UploadStep(ws: seq<Waypoint>, i: nat, n: nat, i': nat, total: nat, index: nat, msgs: seq<RouteMsg>, step: seq<RouteMsg>)
    requires i < |ws| && n == RunLength(ws[i + 1..]) && index > 0 && i' == i + 1 + n
    requires step == [RoutePoint(total, index, n, ws[i])] + Groups(ws[i + 1..i'], n, 0)
    ensures Owed(ws, total, index, i, msgs) ==> Owed(ws, total, index + 1, i', msgs + step)
    ensures i' < |ws| ==> !ws[i'].isShape
  {
    RunEnds(ws[i + 1..]);
    FirstOfUpload(ws, i, n, i', total, index);
    Associate(msgs, step, Upload(ws[i'..], total, index + 1));
  }

  lemma FirstOfUpload(ws: seq<Waypoint>, i: nat, n: nat, i': nat, total: nat, index: nat)
    requires i < |ws| && n == RunLength(ws[i + 1..]) && i' == i + 1 + n
    ensures Upload(ws[i..], total, index) == [RoutePoint(total, index, n, ws[i])] + Groups(ws[i + 1..i'], n, 0) + Upload(ws[i'..], total, index + 1)
  {
    var rest := ws[i..];
    assert rest[1..] == ws[i + 1..] && rest[1..1 + n] == ws[i + 1..i'] && rest[1 + n..] == ws[i'..];
  }

  // ---------------------------------------------------------------- what that means

  lemma {:induction false} GroupsInKind(run: seq<Waypoint>, n: nat, done: nat)
    requires forall j | 0 <= j < |run| :: run[j].isShape
    ensures InKind(Groups(run, n, done))
    decreases |run|
  {
    if run != [] {
      var j := if |run| < POINTS_PER_MSG then |run| else POINTS_PER_MSG;
      GroupsInKind(run[j..], n, done + j);
    }
  }

  lemma {:induction false} RunIsShapes(ws: seq<Waypoint>)
    ensures forall j | 0 <= j < RunLength(ws) :: ws[j].isShape
  {
    if ws != [] && ws[0].isShape {
      RunIsShapes(ws[1..]);
    }
  }

  /** A correct upload sends every shape point as one and every route point as one exactly for routes that
      begin with a route point; one that begins with a shape point puts it where a route point belongs. */
  lemma {:induction false} UploadInKind(ws: seq<Waypoint>, total: nat, index: nat)
    ensures InKind(Upload(ws, total, index)) <==> ws == [] || !ws[0].isShape
    decreases |ws|
  {
    if ws != [] {
      var n := RunLength(ws[1..]);
      var first, groups, rest := [RoutePoint(total, index, n, ws[0])], Groups(ws[1..1 + n], n, 0), Upload(ws[1 + n..], total, index + 1);
      RunIsShapes(ws[1..]);
      RunEnds(ws[1..]);
      GroupsInKind(ws[1..1 + n], n, 0);
      UploadInKind(ws[1 + n..], total, index + 1);
      assert Upload(ws, total, index) == first + groups + rest;
      assert (first + groups + rest)[0] == first[0];
    }
  }
  /** A route of shape points only has its first count read one behind the slots. */
  lemma OnlyShapes()
    ensures var ws := [Waypoint(true, 0)]; |ws| == 1 + UpTo(ws, 1) && !ShapeBehindPoint(ws)
  {
    CountsFit([Waypoint(true, 0)], 1);
  }

  /** A shape point in front is sent as a route point, and the count behind it is read one behind the slots. */
  lemma ShapeFirst()
    ensures var s, p := Waypoint(true, 0), Waypoint(false, 1);
      && Plan([s, p], 1, 0, 0) == [RoutePoint(1, 1, 0, s), RoutePoint(1, 2, 0, p)] && !InKind(Plan([s, p], 1, 0, 0))
      && |[s, p]| == 2 + UpTo([s, p], 2) && !ShapeBehindPoint([s, p])
  {
    var s, p := Waypoint(true, 0), Waypoint(false, 1);
    var ws := [s, p];
    assert ws[..1] == [s] && [s][..0] == [];
    assert RoutePoints([s]) == 0 && CountAt([s], 1) == 0 && CountAt([s], 2) == 0 && UpTo([s], 2) == 0;
    assert CountAt(ws, 1) == 0 && CountAt(ws, 2) == 0 && UpTo(ws, 2) == 0;
    assert Plan(ws, 1, 2, 2) == [] && Groups(ws[1..1], 0, 0) == [] && Groups(ws[2..2], 0, 0) == [];
    assert Plan(ws, 1, 1, 1) == [RoutePoint(1, 2, 0, p)];
    CountsFit(ws, 2);
    assert Plan(ws, 1, 0, 0)[0] == RoutePoint(1, 1, 0, s);
  }

  // ---------------------------------------------------------------- numbers in the messages

  // How many points the first k messages of a run hold.
  function Held(msgs: seq<RouteMsg>, k: nat): nat
    requires k <= |msgs|
  {
    if k == 0 then 0 else Held(msgs, k - 1) + |PointsOf(msgs[k - 1])|
  }

  // Shape messages for n points of which `done` went before: each says how many there are in all and which of them
  // is its first, counted from 1, and all but the last are full.
  ghost predicate ShapesNumbered(msgs: seq<RouteMsg>, n: nat, done: nat) {
    forall k | 0 <= k < |msgs| ::
      && msgs[k].RouteShape? && msgs[k].total == n && msgs[k].index == done + Held(msgs, k) + 1
      && 0 < |msgs[k].points| <= 25 && (k < |msgs| - 1 ==> |msgs[k].points| == 25)
  }

  lemma {:induction false} HeldBehind(m: RouteMsg, rest: seq<RouteMsg>, k: nat)
    requires k <= |rest|
    ensures Held([m] + rest, k + 1) == |PointsOf(m)| + Held(rest, k)
  {
    if k > 0 {
      HeldBehind(m, rest, k - 1);
      assert ([m] + rest)[k] == rest[k - 1];
    } else {
      assert Held([m] + rest, 0) == 0;
    }
  }

  /** The messages of a run of shape points. */
  lemma {:induction false} GroupsAreNumbered(run: seq<Waypoint>, n: nat, done: nat)
    ensures ShapesNumbered(Groups(run, n, done), n, done)
    decreases |run|
  {
    if run != [] {
      var j, first, left := FirstGroup(run, n, done);
      GroupsAreNumbered(left, n, done + j);
      NumberedMore(first, Groups(left, n, done + j), n, done, j);
    }
  }

  lemma FirstGroup(run: seq<Waypoint>, n: nat, done: nat) returns (j: nat, first: RouteMsg, left: seq<Waypoint>)
    requires run != []
    ensures 0 < j <= 25 && |left| == |run| - j && (left != [] ==> j == 25)
    ensures first.RouteShape? && first.total == n && first.index == done + 1 && |first.points| == j
    ensures Groups(run, n, done) == [first] + Groups(left, n, done + j) && (Groups(left, n, done + j) != [] ==> j == 25)
  {
    j := if |run| < POINTS_PER_MSG then |run| else POINTS_PER_MSG;
    first, left := RouteShape(n, done + 1, run[..j]), run[j..];
  }

  lemma NumberedMore(m: RouteMsg, rest: seq<RouteMsg>, n: nat, done: nat, j: nat)
    requires ShapesNumbered(rest, n, done + j) && m.RouteShape? && m.total == n && m.index == done + 1 && |m.points| == j
    requires 0 < j <= 25 && (rest != [] ==> j == 25)
    ensures ShapesNumbered([m] + rest, n, done)
  {
    var msgs := [m] + rest;
    forall k | 0 <= k < |msgs|
      ensures msgs[k].RouteShape? && msgs[k].total == n && msgs[k].index == done + Held(msgs, k) + 1
      ensures 0 < |msgs[k].points| <= 25 && (k < |msgs| - 1 ==> |msgs[k].points| == 25)
    {
      if k > 0 {
        HeldBehind(m, rest, k - 1);
        assert msgs[k] == rest[k - 1];
      }
    }
  }

  // Route points numbered on from `index`, each announcing the shape points that follow it in numbered messages.
  ghost predicate PointsNumbered(msgs: seq<RouteMsg>, total: nat, index: nat, ws: seq<Waypoint>)
    decreases |msgs|
  {
    if msgs == [] then ws == []
    else exists n: nat, k: nat ::
      && 1 <= k <= |msgs| && 1 + n <= |ws| && msgs[0] == RoutePoint(total, index, n, ws[0])
      && ShapesNumbered(msgs[1..k], n, 0) && Carried(msgs[1..k]) == ws[1..1 + n]
      && PointsNumbered(msgs[k..], total, index + 1, ws[1 + n..])
  }

  /** A correct upload announces every route point with its number and the number of its shape points. */
  lemma {:induction false} UploadIsNumbered(ws: seq<Waypoint>, total: nat, index: nat)
    ensures PointsNumbered(Upload(ws, total, index), total, index, ws)
    decreases |ws|
  {
    if ws != [] {
      var n := RunLength(ws[1..]);
      var msgs, groups, rest := Upload(ws, total, index), Groups(ws[1..1 + n], n, 0), Upload(ws[1 + n..], total, index + 1);
      var k := 1 + |groups|;
      assert msgs == [RoutePoint(total, index, n, ws[0])] + groups + rest;
      assert msgs[1..k] == groups && msgs[k..] == rest;
      GroupsAreNumbered(ws[1..1 + n], n, 0);
      GroupsCarry(ws[1..1 + n], n, 0);
      UploadIsNumbered(ws[1 + n..], total, index + 1);
    }
  }
}
