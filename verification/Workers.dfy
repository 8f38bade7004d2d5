// The parallel checking protocol (src/main.cpp): worker processes walk the declarations in order and claim
// each by one exchange of its flag; the parent adds up their results.  A run is any
// interleaving of the workers' atomic steps.
module Workers {

  /** good(i): the checker accepts declaration i. */
  datatype Job = Job(n: nat, workers: nat, keepGoing: bool, good: nat -> bool)

  /** Before the claim of the next declaration; between the claim and the look at the stop flag; about to raise it. */
  datatype Phase = Ready | Claimed(mine: bool) | Rejecting | Exited | Died

  datatype Worker = Worker(at: nat, phase: Phase, ok: nat, failed: nat)

  /** checks: the declarations whose check has finished, in that order. */
  datatype State = State(claim: seq<bool>, stop: bool, ws: seq<Worker>, checks: seq<nat>)

  /** A worker takes a step, or dies in some other way. */
  datatype Event = Turn(k: nat) | Kill(k: nat)

  function Start(job: Job): State {
    State(seq(job.n, i => false), false, seq(job.workers, k => Worker(0, Ready, 0, 0)), [])
  }

  predicate Finished(w: Worker) { w.phase.Exited? || w.phase.Died? }

  function Step(job: Job, s: State, e: Event): State {
    if e.k >= |s.ws| || Finished(s.ws[e.k]) then s
    else if e.Kill? then s.(ws := s.ws[e.k := s.ws[e.k].(phase := Died)])
    else TurnOf(job, s, e.k)
  }

  function TurnOf(job: Job, s: State, k: nat): State
    requires k < |s.ws|
  {
    var w := s.ws[k];
    match w.phase
    case Ready =>
      if w.at >= |s.claim| then s.(ws := s.ws[k := w.(phase := Exited)])
      else s.(claim := s.claim[w.at := true], ws := s.ws[k := w.(phase := Claimed(!s.claim[w.at]))])
    case Claimed(mine) =>
      if s.stop then s.(ws := s.ws[k := w.(phase := Exited)])
      else if !mine then s.(ws := s.ws[k := w.(at := w.at + 1, phase := Ready)])
      else
        s.(checks := s.checks + [w.at],
           ws := s.ws[k := if job.good(w.at) then w.(at := w.at + 1, phase := Ready, ok := w.ok + 1)
                           else if job.keepGoing then w.(at := w.at + 1, phase := Ready, failed := w.failed + 1)
                           else w.(phase := Rejecting, failed := w.failed + 1)])
    case Rejecting => s.(stop := true, ws := s.ws[k := w.(phase := Exited)])
    case _ => s
  }

  function Run(job: Job, schedule: seq<Event>): State
    decreases |schedule|
  {
    if schedule == [] then Start(job)
    else Step(job, Run(job, schedule[..|schedule| - 1]), schedule[|schedule| - 1])
  }

  // ---------------------------------------------------------------- tallies

  function SumOk(ws: seq<Worker>): nat {
    if ws == [] then 0 else SumOk(ws[..|ws| - 1]) + ws[|ws| - 1].ok
  }

  function SumFailed(ws: seq<Worker>): nat {
    if ws == [] then 0 else SumFailed(ws[..|ws| - 1]) + ws[|ws| - 1].failed
  }

  function Rejected(job: Job, checks: seq<nat>): nat {
    if checks == [] then 0
    else Rejected(job, checks[..|checks| - 1]) + if job.good(checks[|checks| - 1]) then 0 else 1
  }

  /** What the parent returns once every worker has finished. */
  function ExitCode(s: State): nat {
    if (exists k :: 0 <= k < |s.ws| && s.ws[k].phase.Died?) || SumFailed(s.ws) > 0 then 1 else 0
  }

  lemma {:induction false} SumUpdate(ws: seq<Worker>, k: nat, w: Worker)
    requires k < |ws|
    ensures SumOk(ws[k := w]) == SumOk(ws) - ws[k].ok + w.ok
    ensures SumFailed(ws[k := w]) == SumFailed(ws) - ws[k].failed + w.failed
    decreases |ws|
  {
    var n := |ws| - 1;
    if k == n {
      assert ws[k := w][..n] == ws[..n];
    } else {
      assert ws[k := w][..n] == ws[..n][k := w];
      SumUpdate(ws[..n], k, w);
    }
  }

  lemma {:induction false} SumPositive(ws: seq<Worker>, k: nat)
    requires k < |ws|
    ensures SumFailed(ws) >= ws[k].failed
    decreases |ws|
  {
    if k < |ws| - 1 { SumPositive(ws[..|ws| - 1], k); }
  }

  // ---------------------------------------------------------------- the invariant

  ghost predicate WorkerOk(s: State, w: Worker) {
    w.at <= |s.claim|
    && (forall j :: 0 <= j < w.at ==> s.claim[j])
    && (w.phase.Claimed? ==> w.at < |s.claim| && s.claim[w.at])
    && (w.phase == Claimed(true) ==> w.at !in s.checks)
    && (w.phase.Rejecting? ==> w.failed > 0)
    && (w.phase.Exited? && w.at < |s.claim| ==> SumFailed(s.ws) > 0)
  }

  /** Some worker stands at a declaration that it claimed, or stood there when it left. */
  ghost predicate Held(s: State, i: nat) {
    exists k :: 0 <= k < |s.ws| && s.ws[k].at == i && (s.ws[k].phase == Claimed(true) || Finished(s.ws[k]))
  }

  ghost predicate NoDuplicates(xs: seq<nat>) { forall i, j :: 0 <= i < j < |xs| ==> xs[i] != xs[j] }

  ghost predicate Inv(job: Job, s: State) {
    && |s.claim| == job.n && |s.ws| == job.workers
    && (forall k :: 0 <= k < |s.ws| ==> WorkerOk(s, s.ws[k]))
    && (forall k, l :: 0 <= k < l < |s.ws| && s.ws[k].phase == Claimed(true) && s.ws[l].phase == Claimed(true) ==>
          s.ws[k].at != s.ws[l].at)
    && NoDuplicates(s.checks) && (forall i :: i in s.checks ==> i < |s.claim| && s.claim[i])
    && (forall i: nat :: i < |s.claim| && s.claim[i] ==> i in s.checks || Held(s, i))
    && (s.stop ==> SumFailed(s.ws) > 0)
    && SumFailed(s.ws) == Rejected(job, s.checks) && SumOk(s.ws) + SumFailed(s.ws) == |s.checks|
  }

  lemma {:induction false} SumStart(ws: seq<Worker>)
    requires forall k :: 0 <= k < |ws| ==> ws[k].ok == 0 && ws[k].failed == 0
    ensures SumOk(ws) == 0 && SumFailed(ws) == 0
    decreases |ws|
  {
    if ws != [] { SumStart(ws[..|ws| - 1]); }
  }

  lemma StartInv(job: Job)
    ensures Inv(job, Start(job))
  {
    SumStart(Start(job).ws);
  }

  lemma HeldStep(s: State, s': State, k: nat, i: nat)
    requires k < |s.ws| && |s'.ws| == |s.ws| && Held(s, i)
    requires forall l :: 0 <= l < |s.ws| && l != k ==> s'.ws[l] == s.ws[l]
    requires s.ws[k].phase == Claimed(true) && s.ws[k].at == i ==> s'.ws[k].at == i && Finished(s'.ws[k])
    requires !Finished(s.ws[k])
    ensures Held(s', i)
  {
    var l :| 0 <= l < |s.ws| && s.ws[l].at == i && (s.ws[l].phase == Claimed(true) || Finished(s.ws[l]));
    assert s'.ws[l].at == i && (s'.ws[l].phase == Claimed(true) || Finished(s'.ws[l]));
  }

  /** A worker leaves, its tallies as they were. */
  lemma LeaveInv(job: Job, s: State, k: nat, p: Phase, stop: bool)
    requires Inv(job, s) && k < |s.ws| && !Finished(s.ws[k]) && (p.Exited? || p.Died?)
    requires p.Exited? && s.ws[k].at < |s.claim| ==> SumFailed(s.ws) > 0
    requires stop ==> s.stop || SumFailed(s.ws) > 0
    ensures Inv(job, s.(stop := stop, ws := s.ws[k := s.ws[k].(phase := p)]))
  {
    var s' := s.(stop := stop, ws := s.ws[k := s.ws[k].(phase := p)]);
    SumUpdate(s.ws, k, s.ws[k].(phase := p));
    forall l | 0 <= l < |s'.ws| ensures WorkerOk(s', s'.ws[l]) { assert WorkerOk(s, s.ws[l]); }
    forall i: nat | i < |s'.claim| && s'.claim[i] ensures i in s'.checks || Held(s', i) {
      if i !in s.checks { HeldStep(s, s', k, i); }
    }
  }

  lemma ClaimInv(job: Job, s: State, k: nat)
    requires Inv(job, s) && k < |s.ws| && s.ws[k].phase.Ready? && s.ws[k].at < |s.claim|
    ensures Inv(job, TurnOf(job, s, k))
  {
    var s', w := TurnOf(job, s, k), s.ws[k];
    SumUpdate(s.ws, k, s'.ws[k]);
    assert WorkerOk(s, w);
    forall l | 0 <= l < |s'.ws| ensures WorkerOk(s', s'.ws[l]) { assert WorkerOk(s, s.ws[l]); }
    forall i: nat | i < |s'.claim| && s'.claim[i] ensures i in s'.checks || Held(s', i) {
      if !s.claim[i] {
        assert s'.ws[k].at == i && s'.ws[k].phase == Claimed(true);
      } else if i !in s.checks {
        HeldStep(s, s', k, i);
      }
    }
    forall l | 0 <= l < |s.ws| && l != k && s.ws[l].phase == Claimed(true) && s'.ws[k].phase == Claimed(true)
      ensures s.ws[l].at != w.at
    {
      assert WorkerOk(s, s.ws[l]);
    }
  }

  lemma PassInv(job: Job, s: State, k: nat)
    requires Inv(job, s) && k < |s.ws| && s.ws[k].phase == Claimed(false) && !s.stop
    ensures Inv(job, TurnOf(job, s, k))
  {
    var s' := TurnOf(job, s, k);
    SumUpdate(s.ws, k, s'.ws[k]);
    assert WorkerOk(s, s.ws[k]);
    forall l | 0 <= l < |s'.ws| ensures WorkerOk(s', s'.ws[l]) { assert WorkerOk(s, s.ws[l]); }
    forall i: nat | i < |s'.claim| && s'.claim[i] ensures i in s'.checks || Held(s', i) {
      if i !in s.checks { HeldStep(s, s', k, i); }
    }
  }

  lemma CheckTally(job: Job, s: State, k: nat)
    requires Inv(job, s) && k < |s.ws| && s.ws[k].phase == Claimed(true) && !s.stop
    ensures var s' := TurnOf(job, s, k);
            SumFailed(s'.ws) == Rejected(job, s'.checks) && SumOk(s'.ws) + SumFailed(s'.ws) == |s'.checks|
            && SumFailed(s'.ws) >= SumFailed(s.ws) && NoDuplicates(s'.checks)
  {
    var s' := TurnOf(job, s, k);
    SumUpdate(s.ws, k, s'.ws[k]);
    assert s'.checks[..|s.checks|] == s.checks;
    assert WorkerOk(s, s.ws[k]);
  }

  lemma CheckWorkers(job: Job, s: State, k: nat)
    requires Inv(job, s) && k < |s.ws| && s.ws[k].phase == Claimed(true) && !s.stop
    ensures var s' := TurnOf(job, s, k); forall l :: 0 <= l < |s'.ws| ==> WorkerOk(s', s'.ws[l])
  {
    var s' := TurnOf(job, s, k);
    CheckTally(job, s, k);
    assert WorkerOk(s, s.ws[k]);
    forall l | 0 <= l < |s'.ws| ensures WorkerOk(s', s'.ws[l]) { assert WorkerOk(s, s.ws[l]); }
  }

  lemma CheckInv(job: Job, s: State, k: nat)
    requires Inv(job, s) && k < |s.ws| && s.ws[k].phase == Claimed(true) && !s.stop
    ensures Inv(job, TurnOf(job, s, k))
  {
    var s', w := TurnOf(job, s, k), s.ws[k];
    CheckTally(job, s, k);
    CheckWorkers(job, s, k);
    assert WorkerOk(s, w);
    forall i: nat | i < |s'.claim| && s'.claim[i] ensures i in s'.checks || Held(s', i) {
      if i !in s.checks && i != w.at { HeldStep(s, s', k, i); }
    }
  }

  lemma StepInv(job: Job, s: State, e: Event)
    requires Inv(job, s)
    ensures Inv(job, Step(job, s, e))
  {
    if e.k < |s.ws| && !Finished(s.ws[e.k]) {
      var k, w := e.k, s.ws[e.k];
      assert WorkerOk(s, w);
      if e.Kill? {
        LeaveInv(job, s, k, Died, s.stop);
      } else if w.phase.Ready? {
        if w.at >= |s.claim| { LeaveInv(job, s, k, Exited, s.stop); } else { ClaimInv(job, s, k); }
      } else if w.phase.Claimed? {
        if s.stop { LeaveInv(job, s, k, Exited, s.stop); }
        else if w.phase.mine { CheckInv(job, s, k); }
        else { PassInv(job, s, k); }
      } else if w.phase.Rejecting? {
        SumPositive(s.ws, k);
        LeaveInv(job, s, k, Exited, true);
      }
    }
  }

  /** The invariant holds after every interleaving. */
  lemma {:induction false} RunInv(job: Job, schedule: seq<Event>)
    ensures Inv(job, Run(job, schedule))
    decreases |schedule|
  {
    if schedule == [] {
      StartInv(job);
    } else {
      RunInv(job, schedule[..|schedule| - 1]);
      StepInv(job, Run(job, schedule[..|schedule| - 1]), schedule[|schedule| - 1]);
    }
  }

  /** In no interleaving is a declaration checked twice. */
  lemma NeverTwice(job: Job, schedule: seq<Event>)
    ensures NoDuplicates(Run(job, schedule).checks)
    ensures forall i :: i in Run(job, schedule).checks ==> i < job.n
  {
    RunInv(job, schedule);
  }

  // ---------------------------------------------------------------- the end of a run

  lemma {:induction false} RejectedNone(job: Job, checks: seq<nat>)
    ensures Rejected(job, checks) == 0 <==> forall i :: i in checks ==> job.good(i)
    decreases |checks|
  {
    if checks != [] {
      var n := |checks| - 1;
      RejectedNone(job, checks[..n]);
      assert checks == checks[..n] + [checks[n]];
    }
  }

  lemma SomeElement(xs: seq<nat>)
    requires xs != []
    ensures exists i :: i in xs
  {
    assert xs[0] in xs;
  }

  /** A duplicate-free list of exactly the numbers below n has n elements. */
  lemma {:induction false} CountAll(xs: seq<nat>, n: nat)
    requires NoDuplicates(xs) && (forall i :: i in xs ==> i < n) && forall i: nat :: i < n ==> i in xs
    ensures |xs| == n
    decreases n
  {
    if n == 0 {
      if xs != [] { SomeElement(xs); }
    } else {
      assert n - 1 in xs;
      var k :| 0 <= k < |xs| && xs[k] == n - 1;
      var ys := xs[..k] + xs[k + 1..];
      forall i: nat | i < n - 1 ensures i in ys {
        assert i in xs;
        var j :| 0 <= j < |xs| && xs[j] == i;
        assert ys[if j < k then j else j - 1] == i;
      }
      forall i | i in ys ensures i < n - 1 {
        var j :| 0 <= j < |ys| && ys[j] == i;
        assert xs[if j < k then j else j + 1] == i;
        assert i in xs;
      }
      CountAll(ys, n - 1);
    }
  }

  ghost predicate AllFinished(s: State) { forall k :: 0 <= k < |s.ws| ==> Finished(s.ws[k]) }

  ghost predicate NobodyDied(s: State) { forall k :: 0 <= k < |s.ws| ==> !s.ws[k].phase.Died? }

  /** If every worker left in the ordinary way with no failure, every declaration was checked, once. */
  lemma AllChecked(job: Job, schedule: seq<Event>)
    requires job.workers > 0
    requires var s := Run(job, schedule); AllFinished(s) && NobodyDied(s) && SumFailed(s.ws) == 0
    ensures var s := Run(job, schedule);
            (forall i: nat :: i < job.n ==> i in s.checks && job.good(i)) && SumOk(s.ws) == |s.checks| == job.n
  {
    var s := Run(job, schedule);
    RunInv(job, schedule);
    forall i: nat | i < job.n ensures i in s.checks {
      assert WorkerOk(s, s.ws[0]) && Finished(s.ws[0]);
      assert s.claim[i];
      forall k | 0 <= k < |s.ws| ensures s.ws[k].at != i { assert WorkerOk(s, s.ws[k]) && Finished(s.ws[k]); }
    }
    RejectedNone(job, s.checks);
    CountAll(s.checks, job.n);
  }

  /**
   * However the workers are interleaved, and whichever of them die on the way: the parent reports
   * success exactly when no worker died and the checker accepts every declaration.
   */
  lemma ExitCodeExact(job: Job, schedule: seq<Event>)
    requires job.workers > 0 && AllFinished(Run(job, schedule))
    ensures var s := Run(job, schedule);
            ExitCode(s) == 0 <==> NobodyDied(s) && forall i: nat :: i < job.n ==> job.good(i)
  {
    var s := Run(job, schedule);
    RunInv(job, schedule);
    if NobodyDied(s) && SumFailed(s.ws) == 0 { AllChecked(job, schedule); }
    RejectedNone(job, s.checks);
  }

  // ---------------------------------------------------------------- progress

  function Left(s: State, w: Worker): nat {
    if Finished(w) then 0
    else
      var rest := if w.at <= |s.claim| then |s.claim| - w.at else 0;
      3 * rest + match w.phase
        case Ready => 3
        case Claimed(_) => 2
        case _ => 1
  }

  /** Every turn of an unfinished worker brings it nearer its end, so every fair run finishes. */
  lemma TurnProgress(job: Job, s: State, k: nat)
    requires Inv(job, s) && k < |s.ws| && !Finished(s.ws[k])
    ensures var s' := Step(job, s, Turn(k)); Left(s', s'.ws[k]) < Left(s, s.ws[k])
    ensures forall l :: 0 <= l < |s.ws| && l != k ==> Step(job, s, Turn(k)).ws[l] == s.ws[l]
  {
    assert WorkerOk(s, s.ws[k]);
  }
}
