/**
 `concurrently`: n workers launched behind a start barrier, each writing its own result slot,
 and a caller waiting for all of them. A run is any sequence of enabled steps.
 */
module FanOut {

  /** What an attempt returns; a slot holds NoError until its worker writes it. */
  datatype Outcome = NoError | Failed(code: int)

  datatype Main = Launching(next: nat) | Waiting | Returned

  datatype Worker = Unlaunched | Blocked | Running | Ended(r: Outcome) | Stored | Gone

  datatype State = State(main: Main, workers: seq<Worker>, wg: int, slots: seq<Outcome>)

  datatype Step =
    | Launch(i: nat)
    | Close
    | Begin(i: nat)
    | End(i: nat, r: Outcome)
    | Store(i: nat)
    | Leave(i: nat)
    | Return

  function Start(n: nat): State {
    State(Launching(0), seq(n, _ => Unlaunched), 0, seq(n, _ => NoError))
  }

  predicate WellFormed(n: nat, s: State) {
    |s.workers| == n && |s.slots| == n
  }

  /** Which steps the channel, the wait group and the control flow of each goroutine allow. */
  predicate Enabled(n: nat, s: State, step: Step)
    requires WellFormed(n, s)
  {
    match step
    case Launch(i) => s.main == Launching(i) && i < n
    case Close => s.main == Launching(n)
    case Begin(i) => i < n && s.workers[i] == Blocked && !s.main.Launching?
    case End(i, _) => i < n && s.workers[i] == Running
    case Store(i) => i < n && s.workers[i].Ended?
    case Leave(i) => i < n && s.workers[i] == Stored
    case Return => s.main == Waiting && s.wg == 0
  }

  function Apply(n: nat, s: State, step: Step): (t: State)
    requires WellFormed(n, s) && Enabled(n, s, step)
    ensures WellFormed(n, t)
  {
    match step
    case Launch(i) => s.(main := Launching(i + 1), workers := s.workers[i := Blocked], wg := s.wg + 1)
    case Close => s.(main := Waiting)
    case Begin(i) => s.(workers := s.workers[i := Running])
    case End(i, r) => s.(workers := s.workers[i := Ended(r)])
    case Store(i) => s.(workers := s.workers[i := Stored], slots := s.slots[i := s.workers[i].r])
    case Leave(i) => s.(workers := s.workers[i := Gone], wg := s.wg - 1)
    case Return => s.(main := Returned)
  }

  /** The state after a run, or None when some step of it is not enabled. */
  function After(n: nat, steps: seq<Step>): (r: (bool, State))
    ensures WellFormed(n, r.1)
  {
    if steps == [] then (true, Start(n))
    else
      var (ok, s) := After(n, steps[..|steps| - 1]);
      var step := steps[|steps| - 1];
      if ok && Enabled(n, s, step) then (true, Apply(n, s, step)) else (false, s)
  }

  predicate Runs(n: nat, steps: seq<Step>) {
    After(n, steps).0
  }

  function Final(n: nat, steps: seq<Step>): (s: State)
    ensures WellFormed(n, s)
  {
    After(n, steps).1
  }

  // ----- what every schedule keeps -----

  /** Workers the wait group counts. */
  function Live(ws: seq<Worker>): nat {
    if ws == [] then 0
    else Live(ws[..|ws| - 1]) + if ws[|ws| - 1].Unlaunched? || ws[|ws| - 1].Gone? then 0 else 1
  }

  function Weight(w: Worker): nat {
    match w
    case Unlaunched => 5
    case Blocked => 4
    case Running => 3
    case Ended(_) => 2
    case Stored => 1
    case Gone => 0
  }

  /** Steps the workers still have to take. */
  function Owed(ws: seq<Worker>): nat {
    if ws == [] then 0 else Owed(ws[..|ws| - 1]) + Weight(ws[|ws| - 1])
  }

  function Remaining(s: State): nat {
    Owed(s.workers) + match s.main case Launching(_) => 2 case Waiting => 1 case Returned => 0
  }

  lemma {:induction false} LiveUpdate(ws: seq<Worker>, i: nat, w: Worker)
    requires i < |ws|
    ensures Live(ws[i := w]) == Live(ws) - (if ws[i].Unlaunched? || ws[i].Gone? then 0 else 1)
                                         + (if w.Unlaunched? || w.Gone? then 0 else 1)
    ensures Owed(ws[i := w]) == Owed(ws) - Weight(ws[i]) + Weight(w)
  {
    var front := ws[..|ws| - 1];
    if i < |ws| - 1 {
      LiveUpdate(front, i, w);
      assert ws[i := w][..|ws| - 1] == front[i := w];
    } else {
      assert ws[i := w][..|ws| - 1] == front;
    }
  }

  lemma {:induction false} NoneLive(ws: seq<Worker>)
    ensures Live(ws) == 0 <==> forall i :: 0 <= i < |ws| ==> ws[i].Unlaunched? || ws[i].Gone?
    ensures Owed(ws) == 0 <==> forall i :: 0 <= i < |ws| ==> ws[i].Gone?
  {
    if ws != [] {
      NoneLive(ws[..|ws| - 1]);
      assert forall i :: 0 <= i < |ws| - 1 ==> ws[i] == ws[..|ws| - 1][i];
    }
  }

  lemma {:induction false} OwedAtStart(n: nat)
    ensures Owed(Start(n).workers) == 5 * n && Live(Start(n).workers) == 0
  {
    if n > 0 {
      OwedAtStart(n - 1);
      assert Start(n).workers[..n - 1] == Start(n - 1).workers;
    }
  }

  ghost predicate Inv(n: nat, s: State) {
    && WellFormed(n, s)
    && s.wg == Live(s.workers)
    && (match s.main
        case Launching(k) =>
          k <= n && forall i :: 0 <= i < n ==> s.workers[i] == if i < k then Blocked else Unlaunched
        case Waiting => forall i :: 0 <= i < n ==> s.workers[i] != Unlaunched
        case Returned => forall i :: 0 <= i < n ==> s.workers[i] == Gone)
  }

  lemma {:induction false} StepKeepsInv(n: nat, s: State, step: Step)
    requires Inv(n, s) && Enabled(n, s, step)
    ensures Inv(n, Apply(n, s, step))
    ensures Remaining(Apply(n, s, step)) == Remaining(s) - 1
  {
    match step
    case Launch(i) => LiveUpdate(s.workers, i, Blocked);
    case Close =>
    case Begin(i) => LiveUpdate(s.workers, i, Running);
    case End(i, r) => LiveUpdate(s.workers, i, Ended(r));
    case Store(i) => LiveUpdate(s.workers, i, Stored);
    case Leave(i) => LiveUpdate(s.workers, i, Gone);
    case Return => NoneLive(s.workers);
  }

  /** Every schedule keeps the invariant, and every step brings the return one step closer. */
  lemma {:induction false} RunsAreBounded(n: nat, steps: seq<Step>)
    requires Runs(n, steps)
    ensures Inv(n, Final(n, steps))
    ensures |steps| + Remaining(Final(n, steps)) == 5 * n + 2
  {
    if steps == [] {
      OwedAtStart(n);
    } else {
      var front := steps[..|steps| - 1];
      RunsAreBounded(n, front);
      StepKeepsInv(n, Final(n, front), steps[|steps| - 1]);
    }
  }

  /**
   The caller always gets its results: no schedule is longer than 5n + 2 steps, one that has
   not returned can go on, and one that has returned is over, with no worker left to write.
   */
  lemma {:induction false} EveryScheduleReturns(n: nat, steps: seq<Step>)
    requires Runs(n, steps)
    ensures |steps| <= 5 * n + 2
    ensures Final(n, steps).main == Returned <==> |steps| == 5 * n + 2
    ensures Final(n, steps).main == Returned <==> forall step :: !Enabled(n, Final(n, steps), step)
  {
    RunsAreBounded(n, steps);
    var s := Final(n, steps);
    NoneLive(s.workers);
    if s.main == Returned {
      assert forall step :: !Enabled(n, s, step);
    } else {
      var step := SomeStep(n, s);
      assert Enabled(n, s, step);
    }
  }

  /** A step some goroutine can take. */
  ghost function SomeStep(n: nat, s: State): (step: Step)
    requires Inv(n, s) && s.main != Returned
    ensures Enabled(n, s, step)
  {
    match s.main
    case Launching(k) => if k < n then Launch(k) else Close
    case Waiting =>
      NoneLive(s.workers);
      if s.wg == 0 then Return
      else
        var i :| 0 <= i < n && s.workers[i] != Gone;
        var w := s.workers[i];
        if w == Blocked then Begin(i) else if w == Running then End(i, NoError) else if w.Ended? then Store(i) else Leave(i)
  }

  // ----- what the steps taken so far say about the state -----

  function Begins(steps: seq<Step>, i: nat): nat {
    if steps == [] then 0
    else Begins(steps[..|steps| - 1], i) + if steps[|steps| - 1] == Begin(i) then 1 else 0
  }

  ghost predicate EndedWith(steps: seq<Step>, i: nat, r: Outcome) {
    End(i, r) in steps && forall q :: End(i, q) in steps ==> q == r
  }

  ghost predicate NotEnded(steps: seq<Step>, i: nat) {
    forall q :: End(i, q) !in steps
  }

  /** The history of one worker: launched, begun at most once, ended once, stored by itself. */
  ghost predicate History(n: nat, steps: seq<Step>, i: nat)
    requires i < n
  {
    var s := Final(n, steps);
    var w := s.workers[i];
    && (w != Unlaunched ==> Launch(i) in steps)
    && Begins(steps, i) == (if w == Unlaunched || w == Blocked then 0 else 1)
    && (match w
        case Unlaunched => NotEnded(steps, i) && s.slots[i] == NoError
        case Blocked => NotEnded(steps, i) && s.slots[i] == NoError
        case Running => NotEnded(steps, i) && s.slots[i] == NoError
        case Ended(r) => EndedWith(steps, i, r) && s.slots[i] == NoError
        case Stored => EndedWith(steps, i, s.slots[i])
        case Gone => EndedWith(steps, i, s.slots[i]))
  }

  lemma {:induction false} RunHistory(n: nat, steps: seq<Step>, i: nat)
    requires Runs(n, steps) && i < n
    ensures History(n, steps, i)
    ensures !Final(n, steps).main.Launching? ==> Close in steps
  {
    if steps != [] {
      var front, last := steps[..|steps| - 1], steps[|steps| - 1];
      RunHistory(n, front, i);
      RunsAreBounded(n, front);
      var s := Final(n, front);
      assert Enabled(n, s, last) && Final(n, steps) == Apply(n, s, last);
      assert steps == front + [last];
      assert Begins(steps, i) == Begins(front, i) + if last == Begin(i) then 1 else 0;
      assert last == Begin(i) ==> s.workers[i] == Blocked;
    }
  }

  /** No attempt begins before all n workers are launched and the barrier is open. */
  lemma {:induction false} NoneBeginsEarly(n: nat, steps: seq<Step>, p: nat, i: nat)
    requires Runs(n, steps) && p < |steps| && steps[p] == Begin(i)
    ensures i < n && Close in steps[..p] && forall j :: 0 <= j < n ==> Launch(j) in steps[..p]
  {
    PrefixRuns(n, steps, p + 1);
    PrefixRuns(n, steps, p);
    var before := steps[..p];
    assert steps[..p + 1][..p] == before;
    RunsAreBounded(n, before);
    assert Enabled(n, Final(n, before), Begin(i));
    forall j | 0 <= j < n ensures Launch(j) in before {
      RunHistory(n, before, j);
    }
    RunHistory(n, before, i);
  }

  lemma {:induction false} PrefixRuns(n: nat, steps: seq<Step>, p: nat)
    requires Runs(n, steps) && p <= |steps|
    ensures Runs(n, steps[..p])
  {
    if p < |steps| {
      PrefixRuns(n, steps[..|steps| - 1], p);
      assert steps[..|steps| - 1][..p] == steps[..p];
    } else {
      assert steps[..p] == steps;
    }
  }

  /**
   At return every slot holds the result of its own attempt: each attempt began exactly once
   and ended with exactly one result, and that is what its slot shows.
   */
  lemma {:induction false} ReturnsOwnResults(n: nat, steps: seq<Step>, i: nat)
    requires Runs(n, steps) && Final(n, steps).main == Returned && i < n
    ensures Begins(steps, i) == 1
    ensures EndedWith(steps, i, Final(n, steps).slots[i])
  {
    RunsAreBounded(n, steps);
    RunHistory(n, steps, i);
  }

}
