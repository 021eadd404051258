/** The worker thread and the callers that start, stop and end it, one atomic operation at a time. The callers take
    turns on a lock, so one place in their code is enough; the thread interleaves with them in every way. */
module Worker {
  datatype WorkerState = Starting | Started | Stopping | Stopped | Killing

  /** Where the thread is. `Restore` holds what it found when it stored Stopped. */
  datatype ThreadAt = Absent | Head | Cas | Work | Done | Restore(ex: WorkerState) | Wait | Exited

  /** Where the caller that holds the lock is; Free when none does. */
  datatype CallerAt = Free | StartTest | StartSpawn | StartSpin | StopTest | StopSpin | TermTest | TermJoin | TermReset

  /** There is a thread object exactly when the thread is not Absent. */
  datatype Machine = Machine(state: WorkerState, thread: ThreadAt, caller: CallerAt)

  predicate Init(s: Machine) {
    s == Machine(Starting, Absent, Free)
  }

  // ----------------------------------------------------------------------- steps

  /** The work loop may end whenever it likes, by an exception say, and ends when it sees the state is not Started. */
  predicate ThreadStep(s: Machine, t: Machine) {
    t.caller == s.caller &&
    match s.thread
    case Absent => false
    case Exited => false
    case Head => t.state == s.state && t.thread == if s.state == Killing then Exited else Cas
    case Cas => t.state == (if s.state == Starting then Started else s.state) && t.thread == Work
    case Work => t.state == s.state && (t.thread == Done || (t.thread == Work && s.state == Started))
    case Done => t.state == Stopped && t.thread == Restore(s.state)
    case Restore(ex) => t.state == (if ex == Killing || ex == Starting then ex else s.state) && t.thread == Wait
    case Wait => t.state == s.state && t.thread == if s.state == Stopped then Wait else Head
  }

  predicate CallerStep(s: Machine, t: Machine) {
    match s.caller
    case Free => t.caller in {StartTest, StopTest, TermTest} && t.state == s.state && t.thread == s.thread
    case StartTest =>
      if s.thread.Absent? then t == Machine(Starting, Absent, StartSpawn)
      else t == Machine(if s.state == Stopped then Starting else s.state, s.thread, StartSpin)
    case StartSpawn => t == Machine(s.state, Head, StartSpin)
    case StartSpin => t == s.(caller := if s.state == Starting then StartSpin else Free)
    case StopTest =>
      if s.thread.Absent? then t == s.(caller := Free)
      else t == Machine(if s.state == Started then Stopping else s.state, s.thread, StopSpin)
    case StopSpin => t == s.(caller := if s.state == Stopped then Free else StopSpin)
    case TermTest =>
      if s.thread.Absent? then t == s.(caller := Free) else t == Machine(Killing, s.thread, TermJoin)
    case TermJoin => t == s.(caller := if s.thread.Exited? then TermReset else TermJoin)
    case TermReset => t == Machine(s.state, Absent, Free)
  }

  predicate Next(s: Machine, t: Machine) {
    ThreadStep(s, t) || CallerStep(s, t)
  }

  ghost predicate Steps(run: seq<Machine>) {
    |run| > 0 && forall k | 0 <= k < |run| - 1 :: Next(run[k], run[k + 1])
  }

  ghost predicate Run(run: seq<Machine>) {
    Steps(run) && Init(run[0])
  }

  // -------------------------------------------------------------------- invariant

  /** The thread is past its work and goes to wait for the state to change. */
  predicate Outside(t: ThreadAt) {
    t == Wait || t == Restore(Started) || t == Restore(Stopping)
  }

  predicate Working(t: ThreadAt) {
    t == Work || t == Done
  }

  /** What state and thread can be, for each place of the caller. */
  predicate Inv(s: Machine) {
    match s.caller
    case StartSpawn => s.state == Starting && s.thread == Absent
    case StartSpin =>
      || (s.state == Starting && (s.thread == Head || s.thread == Cas || Outside(s.thread)))
      || (s.state == Started && Working(s.thread))
      || (s.state == Stopped && Outside(s.thread))
    case StopSpin => (s.state == Stopping && Working(s.thread)) || (s.state == Stopped && Outside(s.thread))
    case TermJoin =>
      || (s.state == Killing && (Working(s.thread) || Outside(s.thread) || s.thread == Head || s.thread == Exited))
      || (s.state == Stopped && s.thread == Restore(Killing))
    case TermReset => s.state == Killing && s.thread == Exited
    case Free => Resting(s)
    case StartTest => Resting(s)
    case StopTest => Resting(s)
    case TermTest => Resting(s)
  }

  predicate Resting(s: Machine) {
    s.thread == Absent || (s.state == Started && Working(s.thread)) || (s.state == Stopped && Outside(s.thread))
  }

  lemma InvStep(s: Machine, t: Machine)
    requires Inv(s) && Next(s, t)
    ensures Inv(t)
  {
  }

  lemma {:induction false} Reachable(run: seq<Machine>, k: nat)
    requires Run(run) && k < |run|
    ensures Inv(run[k])
  {
    if k > 0 {
      Reachable(run, k - 1);
      InvStep(run[k - 1], run[k]);
    }
  }

  // ------------------------------------------------------------------- properties

  /** Stopped is seen only while the thread is outside its work; `stopWorking` returns only then, or without a
      thread. */
  lemma StoppedIsOutside(run: seq<Machine>, k: nat)
    requires Run(run) && k < |run|
    ensures run[k].state == Stopped && run[k].thread != Absent ==>
      Outside(run[k].thread) || run[k].thread == Restore(Killing)
    ensures k > 0 && run[k - 1].caller in {StopTest, StopSpin} && run[k].caller == Free ==>
      run[k].thread == Absent || (run[k].state == Stopped && Outside(run[k].thread))
  {
    Reachable(run, k);
    if k > 0 { Reachable(run, k - 1); }
  }

  /** Once the thread has been told to end, the word stands, or the thread itself holds it and is about to put it back,
      until the thread has ended. */
  lemma KillingIsKept(run: seq<Machine>, k: nat)
    requires Run(run) && k < |run| && run[k].caller in {TermJoin, TermReset}
    ensures run[k].state == Killing || (run[k].state == Stopped && run[k].thread == Restore(Killing))
    ensures run[k].caller == TermReset ==> run[k].state == Killing && run[k].thread == Exited
  {
    Reachable(run, k);
  }

  /** The thread never puts Starting back. */
  lemma StartingIsNeverRestored(run: seq<Machine>, k: nat)
    requires Run(run) && k < |run|
    ensures run[k].thread != Restore(Starting)
  {
    Reachable(run, k);
  }

  /** A thread only ends because it was told to, and there is never a second one. */
  lemma EndsOnlyWhenKilled(run: seq<Machine>, k: nat)
    requires Run(run) && k < |run|
    ensures run[k].thread == Exited ==> run[k].state == Killing && run[k].caller in {TermJoin, TermReset}
    ensures run[k].caller == StartSpawn ==> run[k].thread == Absent
  {
    Reachable(run, k);
  }

  /** After `stopWorking` has returned no work is done until the next `startWorking`. */
  lemma {:induction false} QuietUntilStarted(run: seq<Machine>)
    requires Steps(run) && Inv(run[0]) && Quiet(run[0])
    requires forall k | 0 <= k < |run| :: run[k].caller != StartSpin && run[k].caller != StartSpawn
    ensures forall k | 0 <= k < |run| :: !Working(run[k].thread)
  {
    if |run| > 1 {
      InvStep(run[0], run[1]);
      QuietUntilStarted(run[1..]);
      forall k | 1 <= k < |run| ensures !Working(run[k].thread) { assert run[k] == run[1..][k - 1]; }
    }
  }

  /** There is no thread, or it is out of its work with the state that keeps it out, Stopped or Killing. */
  predicate Quiet(s: Machine) {
    s.thread in {Absent, Exited} || (s.state == Stopped && (Outside(s.thread) || s.thread == Restore(Killing)))
    || (s.state == Killing && (Outside(s.thread) || s.thread == Head))
  }

  // --------------------------------------------------------------------- waiting

  predicate Waiting(s: Machine) {
    || (s.caller == StartSpin && s.state == Starting)
    || (s.caller == StopSpin && s.state != Stopped)
    || (s.caller == TermJoin && s.thread != Exited)
  }

  /** How far the thread is from what the caller waits for. */
  function Distance(s: Machine): nat {
    match s.thread
    case Work => 6
    case Done => 5
    case Restore(_) => 4
    case Wait => 3
    case Head => 2
    case Cas => 1
    case Exited => 0
    case Absent => 0
  }

  /** While a caller waits the thread can move, every move it makes brings it nearer, and only its moves change
      anything. */
  lemma NearerEachStep(s: Machine, t: Machine)
    requires Inv(s) && Waiting(s)
    ensures exists u :: ThreadStep(s, u)
    ensures ThreadStep(s, t) ==> !Waiting(t) || Distance(t) < Distance(s)
    ensures CallerStep(s, t) ==> t == s
  {
    var u := Machine(
      match s.thread
      case Cas => (if s.state == Starting then Started else s.state)
      case Done => Stopped
      case Restore(ex) => (if ex == Killing || ex == Starting then ex else s.state)
      case Absent => s.state
      case Exited => s.state
      case Head => s.state
      case Work => s.state
      case Wait => s.state,
      match s.thread
      case Head => (if s.state == Killing then Exited else Cas)
      case Cas => Work
      case Work => Done
      case Done => Restore(s.state)
      case Restore(_) => Wait
      case Wait => (if s.state == Stopped then Wait else Head)
      case Absent => Absent
      case Exited => Exited,
      s.caller);
    assert ThreadStep(s, u);
  }

  /** What a caller waited for stays until the caller goes on. */
  lemma WaitStaysOver(s: Machine, t: Machine)
    requires Inv(s) && s.caller in {StartSpin, StopSpin, TermJoin} && !Waiting(s) && ThreadStep(s, t)
    ensures !Waiting(t)
  {
  }

  function Moves(run: seq<Machine>): nat {
    if |run| < 2 then 0 else Moves(run[..|run| - 1]) + if run[|run| - 1] != run[|run| - 2] then 1 else 0
  }

  /** No wait outlasts six moves. */
  lemma {:induction false} WaitIsShort(run: seq<Machine>)
    requires Steps(run) && Inv(run[0]) && forall k | 0 <= k < |run| :: Waiting(run[k])
    ensures Moves(run) + Distance(run[|run| - 1]) <= Distance(run[0]) <= 6 && Inv(run[|run| - 1])
  {
    var n := |run| - 1;
    if n > 0 {
      WaitIsShort(run[..n]);
      InvStep(run[n - 1], run[n]);
      NearerEachStep(run[n - 1], run[n]);
    }
  }

  /** The thread takes a start: it finds Starting and goes to work. */
  predicate Takes(s: Machine, t: Machine) {
    s.thread == Cas && s.state == Starting && t.thread == Work && t.state == Started
  }

  /** A caller that finds the worker stopped, or without a thread, does not come back from `startWorking` before the
      thread has gone to work. */
  lemma {:induction false} StartGetsToWork(run: seq<Machine>, i: nat, j: nat)
    requires Run(run) && i + 1 < j < |run| && run[i].caller == StartTest && run[i + 1].caller != StartTest
    requires run[i].thread == Absent || run[i].state == Stopped
    requires (forall m | i < m < j :: run[m].caller in {StartSpawn, StartSpin}) && run[j].caller == Free
    ensures exists m :: i < m < j - 1 && Takes(run[m], run[m + 1])
  {
    Reachable(run, i);
    Reachable(run, j - 1);
    assert Next(run[i], run[i + 1]) && Next(run[j - 1], run[(j - 1) + 1]);
    if forall m | i < m < j - 1 :: !Takes(run[m], run[m + 1]) {
      StillStarting(run, i, j - 1);
    }
  }

  lemma {:induction false} StillStarting(run: seq<Machine>, i: nat, k: nat)
    requires Run(run) && i < k < |run| && run[i + 1].state == Starting
    requires forall m | i < m <= k :: run[m].caller in {StartSpawn, StartSpin}
    requires forall m | i < m < k :: !Takes(run[m], run[m + 1])
    ensures run[k].state == Starting
  {
    if i + 1 < k {
      StillStarting(run, i, k - 1);
      Reachable(run, k - 1);
      assert Next(run[k - 1], run[k]) && !Takes(run[k - 1], run[(k - 1) + 1]);
    }
  }
}
