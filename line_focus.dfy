/**
 * The focus state of the line graph (public/vizualization.js:182, 387-405, 407-479, 481-515).
 *
 * Each function is drawn as a line. Hovering a line highlights it, shows its details below the
 * graph, and puts an author marker at each of its points. Clicking a line locks the focus on
 * it. `linesLock` records the locked line. While a lock is held, leaving another line brings
 * back the locked line's details and markers, and leaving the locked line itself changes
 * nothing.
 *
 * The page-global state is a class. Its fields are:
 * - the lock;
 * - the set of lines carrying the `hover` class;
 * - the HTML of `#details`;
 * - the author markers, keyed like d3's data join by `t + ',' + c`.
 * Whether a line's project group is shown (its opacity is 1) is read from the page, so it is
 * a parameter.
 */
module LineFocus {
  import opened Wrappers

  /** A point of a line: `{t, c, n, g}`, a commit's time, complexity, author name and gravatar. */
  datatype Point = Point(t: int, c: int, name: string, gravatar: string)

  /**
   * One drawn line: a function of a project, with its points. Two lines with the same `id`
   * are the same line: the source compares their `data` arrays by reference.
   */
  datatype Line = Line(id: nat, project: string, file: string, name: string, points: seq<Point>)

  /** d3's key for an author marker, `d.t + ',' + d.c`, as the pair it is built from. */
  type Key = (int, int)

  function KeyOf(p: Point): Key {
    (p.t, p.c)
  }

  function KeysOf(points: seq<Point>): set<Key> {
    set p | p in points :: KeyOf(p)
  }

  /** The HTML that lines 419-422 and 500-504 write into `#details` for a line. */
  function DetailsOf(l: Line): string {
    "<h3>" + l.project + "</h3><p>File: " + l.file + "<br />Function: " + l.name + "</p>"
  }

  /**
   * The `enter()` of lines 425-462: each point whose key has no marker yet gets one. A
   * marker already on the page keeps its point, and the first point of a new key wins.
   */
  function Enter(markers: map<Key, Point>, points: seq<Point>): map<Key, Point>
    decreases |points|
  {
    if points == [] then markers
    else
      var p := points[0];
      Enter(if KeyOf(p) in markers then markers else markers[KeyOf(p) := p], points[1..])
  }

  /** The `exit().remove()` of lines 510-513: markers whose key is not among `points` go. */
  function Exit(markers: map<Key, Point>, points: seq<Point>): map<Key, Point> {
    map k | k in markers && k in KeysOf(points) :: markers[k]
  }

  /** `linesLock.data`: the locked line's points, or the empty array. */
  function LockPoints(lock: Option<Line>): seq<Point> {
    if lock.Some? then lock.value.points else []
  }

  /** `linesLock.data === d.data`: the lock is on this line. */
  predicate LockedOn(lock: Option<Line>, d: Line) {
    lock.Some? && lock.value.id == d.id
  }

  /** The state of the focus, as a value. */
  datatype Focus = Focus(lock: Option<Line>, hovered: set<nat>, details: string, markers: map<Key, Point>)

  /** Line 182: no lock, nothing highlighted, nothing shown. */
  function Initial(): Focus {
    Focus(None, {}, "", map[])
  }

  /** `onmouseover` (lines 407-479). */
  function MouseOver(s: Focus, d: Line, visible: bool): Focus {
    if !visible then s
    else s.(hovered := s.hovered + {d.id}, details := DetailsOf(d), markers := Enter(s.markers, d.points))
  }

  /** `onmouseout` (lines 481-515). */
  function MouseOut(s: Focus, d: Line, visible: bool): Focus {
    if !visible || LockedOn(s.lock, d) then s
    else
      s.(hovered := s.hovered - {d.id},
         details := if s.lock.Some? then DetailsOf(s.lock.value) else "",
         markers := Exit(s.markers, LockPoints(s.lock)))
  }

  /**
   * `onclick` (lines 387-405). `oldVisible` says whether the group of the line locked before
   * is shown, which the replayed `onmouseout` of line 401 checks.
   */
  function Click(s: Focus, d: Line, visible: bool, oldVisible: bool): Focus {
    if !visible then s
    else if LockedOn(s.lock, d) then s.(lock := None)
    else
      var locked := s.(lock := Some(d));
      if s.lock.Some? then MouseOut(locked, s.lock.value, oldVisible) else locked
  }

  /** The page globals the three handlers share. */
  class Page {
    var lock: Option<Line>
    var hovered: set<nat>
    var details: string
    var markers: map<Key, Point>

    function State(): Focus
      reads this
    {
      Focus(lock, hovered, details, markers)
    }

    constructor ()
      ensures State() == Initial()
    {
      lock, hovered, details, markers := None, {}, "", map[];
    }

    method OnMouseOver(d: Line, visible: bool)
      modifies this
      ensures State() == MouseOver(old(State()), d, visible)
    {
      if !visible {
        return;
      }
      hovered := hovered + {d.id};
      details := DetailsOf(d);
      markers := Enter(markers, d.points);
    }

    method OnMouseOut(d: Line, visible: bool)
      modifies this
      ensures State() == MouseOut(old(State()), d, visible)
    {
      if !visible {
        return;
      }
      if LockedOn(lock, d) {
        return;
      }
      hovered := hovered - {d.id};
      details := if lock.Some? then DetailsOf(lock.value) else "";
      markers := Exit(markers, LockPoints(lock));
    }

    method OnClick(d: Line, visible: bool, oldVisible: bool)
      modifies this
      ensures State() == Click(old(State()), d, visible, oldVisible)
    {
      if !visible {
        return;
      }
      if LockedOn(lock, d) {
        lock := None;
      } else {
        var oldLock := lock;
        lock := Some(d);
        if oldLock.Some? {
          OnMouseOut(oldLock.value, oldVisible);
        }
      }
    }
  }

  // ---------------------------------------------------------------------------
  // the author markers

  /** Every marker sits under the key of its own point. */
  predicate Keyed(markers: map<Key, Point>) {
    forall k :: k in markers ==> KeyOf(markers[k]) == k
  }

  /** The marker under `k` shows a point of the line with that key. */
  predicate NewMarker(markers: map<Key, Point>, points: seq<Point>, k: Key)
    requires k in markers
  {
    markers[k] in points && KeyOf(markers[k]) == k
  }

  /**
   * Entering adds a marker for each new key and leaves every marker already shown as it
   * was. A new marker shows a point of the line under its own key.
   */
  lemma {:induction false} EnterFacts(markers: map<Key, Point>, points: seq<Point>)
    ensures Enter(markers, points).Keys == markers.Keys + KeysOf(points)
    ensures forall k :: k in markers ==> Enter(markers, points)[k] == markers[k]
    ensures forall k :: k in Enter(markers, points) && k !in markers ==> NewMarker(Enter(markers, points), points, k)
    decreases |points|
  {
    if points != [] {
      var p, rest := points[0], points[1..];
      var next := if KeyOf(p) in markers then markers else markers[KeyOf(p) := p];
      var r := Enter(next, rest);
      assert Enter(markers, points) == r;
      EnterFacts(next, rest);
      assert KeysOf(points) == {KeyOf(p)} + KeysOf(rest) by {
        assert points == [p] + rest;
      }
      forall k | k in r && k !in markers ensures NewMarker(r, points, k) {
        if k in next {
          assert r[k] == p;
        } else {
          assert r[k] in rest;
        }
      }
    }
  }

  /** Exiting keeps exactly the markers whose key the points have, unchanged. */
  lemma ExitFacts(markers: map<Key, Point>, points: seq<Point>)
    ensures Exit(markers, points).Keys == markers.Keys * KeysOf(points)
    ensures forall k :: k in Exit(markers, points) ==> Exit(markers, points)[k] == markers[k]
  {
  }

  /** Both joins keep every marker under its own key. */
  lemma JoinsKeyed(markers: map<Key, Point>, points: seq<Point>)
    requires Keyed(markers)
    ensures Keyed(Enter(markers, points)) && Keyed(Exit(markers, points))
  {
    EnterFacts(markers, points);
  }

  // ---------------------------------------------------------------------------
  // what the lock promises

  /** The locked line's markers are all on the page, and every marker sits under its own key. */
  predicate Shown(s: Focus) {
    Keyed(s.markers) && KeysOf(LockPoints(s.lock)) <= s.markers.Keys
  }

  /** Lines 394-395: clicking the locked line unlocks it and changes nothing else. */
  lemma ClickLockedUnlocks(s: Focus, d: Line, oldVisible: bool)
    requires LockedOn(s.lock, d)
    ensures Click(s, d, true, oldVisible) == s.(lock := None)
  {
  }

  /**
   * Lines 397-402: clicking another line locks it. The line locked before loses its
   * highlight, the details show the new line, and only markers of the new line remain.
   */
  lemma ClickOtherLocks(s: Focus, d: Line, oldVisible: bool)
    requires !LockedOn(s.lock, d)
    ensures Click(s, d, true, oldVisible).lock == Some(d)
    ensures s.lock.None? ==> Click(s, d, true, oldVisible) == s.(lock := Some(d))
    ensures s.lock.Some? && oldVisible ==>
      var r := Click(s, d, true, oldVisible);
      && r.hovered == s.hovered - {s.lock.value.id}
      && r.details == DetailsOf(d)
      && r.markers.Keys <= KeysOf(d.points)
  {
    ExitFacts(s.markers, d.points);
  }

  /** A second click on the same line undoes the lock that the first click took. */
  lemma ClickTwiceUnlocks(s: Focus, d: Line, oldVisible: bool, againVisible: bool)
    requires !LockedOn(s.lock, d)
    ensures var r := Click(Click(s, d, true, oldVisible), d, true, againVisible);
      r.lock.None? && r == Click(s, d, true, oldVisible).(lock := None)
  {
    ClickOtherLocks(s, d, oldVisible);
    assert LockedOn(Click(s, d, true, oldVisible).lock, d);
  }

  /** Lines 488-491: leaving the locked line changes nothing, markers included. */
  lemma MouseOutLockedKeeps(s: Focus, d: Line, visible: bool)
    requires LockedOn(s.lock, d)
    ensures MouseOut(s, d, visible) == s
  {
  }

  /**
   * Leaving any other line while a lock is held puts back the locked line's details, and
   * leaves exactly the locked line's markers, each as it was.
   */
  lemma MouseOutRestoresLock(s: Focus, d: Line)
    requires Shown(s) && s.lock.Some? && !LockedOn(s.lock, d)
    ensures var r := MouseOut(s, d, true);
      && r.lock == s.lock
      && r.details == DetailsOf(s.lock.value)
      && r.markers.Keys == KeysOf(s.lock.value.points)
      && forall k :: k in r.markers ==> r.markers[k] == s.markers[k]
  {
    ExitFacts(s.markers, s.lock.value.points);
  }

  /** Hovering shows the line: it is highlighted, its details show, all its points have markers. */
  lemma MouseOverShows(s: Focus, d: Line)
    ensures var r := MouseOver(s, d, true);
      && r.lock == s.lock
      && d.id in r.hovered
      && r.details == DetailsOf(d)
      && r.markers.Keys == s.markers.Keys + KeysOf(d.points)
  {
    EnterFacts(s.markers, d.points);
  }

  /** With no lock, hovering a line and leaving it clears the details and every marker. */
  lemma HoverRoundTripUnlocked(s: Focus, d: Line)
    requires s.lock.None?
    ensures MouseOut(MouseOver(s, d, true), d, true) == Focus(None, s.hovered - {d.id}, "", map[])
  {
  }

  /**
   * With a lock held on another line whose markers are all shown, hovering a line and
   * leaving it puts the markers back as they were before the hover.
   */
  lemma HoverRoundTripLocked(s: Focus, d: Line)
    requires Shown(s) && s.lock.Some? && !LockedOn(s.lock, d)
    requires s.markers.Keys == KeysOf(s.lock.value.points)
    ensures var r := MouseOut(MouseOver(s, d, true), d, true);
      r.lock == s.lock && r.details == DetailsOf(s.lock.value) && r.markers == s.markers
  {
    var over := MouseOver(s, d, true);
    EnterFacts(s.markers, d.points);
    ExitFacts(over.markers, s.lock.value.points);
    var r := MouseOut(over, d, true);
    assert r.markers.Keys == s.markers.Keys;
  }

  /**
   * The locked line keeps its markers. Hovering and leaving lines preserves `Shown`. So
   * does a click, as long as the clicked line's markers are on the page: they are, since
   * the mouse is over that line.
   */
  lemma ShownPreserved(s: Focus, d: Line, visible: bool, oldVisible: bool)
    requires Shown(s)
    ensures Shown(MouseOver(s, d, visible))
    ensures Shown(MouseOut(s, d, visible))
    ensures KeysOf(d.points) <= s.markers.Keys ==> Shown(Click(s, d, visible, oldVisible))
  {
    JoinsKeyed(s.markers, d.points);
    JoinsKeyed(s.markers, LockPoints(s.lock));
    JoinsKeyed(s.markers, d.points);
    EnterFacts(s.markers, d.points);
    ExitFacts(s.markers, LockPoints(s.lock));
    ExitFacts(s.markers, d.points);
  }

  /** The page starts with nothing locked and nothing shown, which is `Shown`. */
  lemma InitialShown()
    ensures Shown(Initial()) && Initial().lock.None?
  {
  }
}
