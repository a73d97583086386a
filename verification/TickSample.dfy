/** One controller tick as the profiler records it. Times are nanoseconds since the recording began. */
module TickSamples {
  import opened Basics

  datatype Outcome = Completed | CommandSweepThrew | SessionSweepThrew | PolicyEvaluateThrew

  datatype TickSample = TickSample(id: nat, started: nat, commandEnded: nat, sessionEnded: nat, policyEnded: nat,
                                   finished: nat, outcome: Outcome)

  predicate CommandSweepCompleted(o: Outcome) {
    o == Completed || o == SessionSweepThrew || o == PolicyEvaluateThrew
  }

  predicate SessionSweepCompleted(o: Outcome) {
    o == Completed || o == PolicyEvaluateThrew
  }

  predicate PolicyEvaluateCompleted(o: Outcome) {
    o == Completed
  }

  /** The phases a tick completed end in order; the others carry no time. */
  predicate ValidSample(s: TickSample) {
    && s.id != 0
    && match s.outcome
       case Completed =>
         s.started <= s.commandEnded <= s.sessionEnded <= s.policyEnded == s.finished
       case CommandSweepThrew =>
         s.commandEnded == 0 && s.sessionEnded == 0 && s.policyEnded == 0 && s.started <= s.finished
       case SessionSweepThrew =>
         s.sessionEnded == 0 && s.policyEnded == 0 && s.started <= s.commandEnded <= s.finished
       case PolicyEvaluateThrew =>
         s.policyEnded == 0 && s.started <= s.commandEnded <= s.sessionEnded <= s.finished
  }

  /** The times a tick recorded: its start, the end of every phase it completed, and its end. */
  function Times(s: TickSample): seq<nat> {
    [s.started]
    + (if s.outcome != CommandSweepThrew then [s.commandEnded] else [])
    + (if s.outcome == Completed || s.outcome == PolicyEvaluateThrew then [s.sessionEnded] else [])
    + (if s.outcome == Completed then [s.policyEnded] else [])
    + [s.finished]
  }

  /** A sample is valid exactly if its recorded times do not go back, the times it did not record are zero, and a
      completed tick ends with its last phase. */
  lemma ValidMeansInOrder(s: TickSample)
    ensures ValidSample(s) <==>
            && s.id != 0
            && (forall i :: 0 < i < |Times(s)| ==> Times(s)[i - 1] <= Times(s)[i])
            && (s.commandEnded == 0 || CommandSweepCompleted(s.outcome))
            && (s.sessionEnded == 0 || SessionSweepCompleted(s.outcome))
            && (s.policyEnded == 0 || PolicyEvaluateCompleted(s.outcome))
            && (s.outcome == Completed ==> s.finished == s.policyEnded)
  {
    var t := Times(s);
    if forall i :: 0 < i < |t| ==> t[i - 1] <= t[i] {
      assert t[0] <= t[1];
      assert |t| > 2 ==> t[1] <= t[2];
      assert |t| > 3 ==> t[2] <= t[3];
      assert |t| > 4 ==> t[3] <= t[4];
    }
  }

  /** Which ticks an analysis is about: those that start in [from, to) and whose id is at most `through`. */
  datatype Window = Window(from: Option<nat>, to: Option<nat>, through: Option<nat>)

  predicate InWindow(s: TickSample, w: Window) {
    && (w.from.Some? ==> s.started >= w.from.value)
    && (w.to.Some? ==> s.started < w.to.value)
    && (w.through.Some? ==> s.id <= w.through.value)
  }

  /** A sample may follow another: its id is greater and it did not start earlier. */
  predicate Follows(a: TickSample, b: TickSample) {
    a.id < b.id && a.started <= b.started
  }

  /** A log the analysis accepts. */
  ghost predicate WellOrdered(log: seq<TickSample>) {
    && (forall s :: s in log ==> ValidSample(s))
    && (forall i :: 0 < i < |log| ==> Follows(log[i - 1], log[i]))
  }

  lemma {:induction false} OrderedFar(log: seq<TickSample>, i: nat, j: nat)
    requires WellOrdered(log) && i < j < |log|
    ensures Follows(log[i], log[j]) && log[j].id - log[i].id >= j - i
    decreases j - i
  {
    assert Follows(log[j - 1], log[j]);
    if i < j - 1 {
      OrderedFar(log, i, j - 1);
    }
  }

  function Selected(log: seq<TickSample>, w: Window): seq<TickSample> {
    if log == [] then []
    else
      var last := log[|log| - 1];
      Selected(log[..|log| - 1], w) + if InWindow(last, w) then [last] else []
  }

  /** What lies between two selected samples is selected. */
  lemma WindowIsConvex(log: seq<TickSample>, w: Window, i: nat, j: nat, k: nat)
    requires WellOrdered(log) && i < j < k < |log| && InWindow(log[i], w) && InWindow(log[k], w)
    ensures InWindow(log[j], w)
  {
    OrderedFar(log, i, j);
    OrderedFar(log, j, k);
  }

  lemma FrontIsOrdered(log: seq<TickSample>, n: nat)
    requires WellOrdered(log) && n <= |log|
    ensures WellOrdered(log[..n])
  {
    forall i | 0 < i < n ensures Follows(log[..n][i - 1], log[..n][i]) {
      assert Follows(log[i - 1], log[i]);
    }
  }

  /** The selected samples are those from lo up to hi. */
  ghost predicate Stretch(log: seq<TickSample>, w: Window, lo: nat, hi: nat) {
    && lo <= hi <= |log|
    && Selected(log, w) == log[lo..hi]
    && forall i :: 0 <= i < |log| ==> (InWindow(log[i], w) <==> lo <= i < hi)
  }

  /** In an ordered log a window selects one contiguous stretch. */
  lemma {:induction false} SelectedIsContiguous(log: seq<TickSample>, w: Window) returns (lo: nat, hi: nat)
    requires WellOrdered(log)
    ensures Stretch(log, w, lo, hi)
  {
    if log == [] {
      return 0, 0;
    }
    var n := |log| - 1;
    FrontIsOrdered(log, n);
    lo, hi := SelectedIsContiguous(log[..n], w);
    assert forall i :: 0 <= i < n ==> log[..n][i] == log[i];
    if InWindow(log[n], w) {
      if lo == hi {
        lo, hi := n, n + 1;
      } else {
        assert InWindow(log[..n][lo], w);
        if hi < n {
          WindowIsConvex(log, w, lo, hi, n);
        }
        assert log[lo..n + 1] == log[..n][lo..hi] + [log[n]];
        hi := n + 1;
      }
    } else {
      assert log[lo..hi] == log[..n][lo..hi];
    }
  }

  /** When the present sample is selected and an earlier one was, so was the previous one. */
  lemma PreviousSelected(log: seq<TickSample>, i: nat, w: Window)
    requires WellOrdered(log) && i < |log| && InWindow(log[i], w) && Selected(log[..i], w) != []
    ensures i > 0 && InWindow(log[i - 1], w)
    ensures var s := Selected(log[..i], w); s[|s| - 1] == log[i - 1]
  {
    FrontIsOrdered(log, i);
    var lo, hi := SelectedIsContiguous(log[..i], w);
    assert InWindow(log[..i][lo], w);
    if lo < i - 1 {
      WindowIsConvex(log, w, lo, i - 1, i);
    }
    assert InWindow(log[..i][i - 1], w);
  }

  lemma {:induction false} NothingStartsEarlier(log: seq<TickSample>, w: Window)
    requires WellOrdered(log) && w.from.Some? && forall s :: s in log ==> s.started < w.from.value
    ensures Selected(log, w) == []
  {
    if log != [] {
      FrontIsOrdered(log, |log| - 1);
      NothingStartsEarlier(log[..|log| - 1], w);
    }
  }

  /** Windows that meet take a log apart: every tick between the outer bounds is in exactly one of them, the ticks that
      start at the bound in the later one. */
  lemma {:induction false} AdjacentWindowsPartition(log: seq<TickSample>, a: nat, b: nat, c: nat)
    requires WellOrdered(log) && a <= b <= c
    ensures var early := Selected(log, Window(Some(a), Some(b), None));
            var late := Selected(log, Window(Some(b), Some(c), None));
            && Selected(log, Window(Some(a), Some(c), None)) == early + late
            && (forall s :: s in late ==> s.started >= b) && (forall s :: s in early ==> s.started < b)
            && (forall s :: s in log && a <= s.started < c ==> s in early || s in late)
  {
    if log != [] {
      var n := |log| - 1;
      var front, last := log[..n], log[n];
      FrontIsOrdered(log, n);
      AdjacentWindowsPartition(front, a, b, c);
      assert log == front + [last];
      if last.started < b {
        forall s | s in front ensures s.started < b {
          var i :| 0 <= i < n && log[i] == s;
          OrderedFar(log, i, n);
        }
        NothingStartsEarlier(front, Window(Some(b), Some(c), None));
      }
    }
  }
}
