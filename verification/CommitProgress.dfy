/** No call gets stuck: each has a step to take until it has returned, and every state leads on to one where all have. */
module CommitProgress {
  import opened Base
  import opened CommitProtocol
  import opened CommitRuns

  /** What a call does next, if nothing fails. */
  function NextAction(job: Job, p: Proc): Action
    requires Sound(job, p) && !p.phase.Done?
  {
    match p.phase
    case Start => Check
    case Running =>
      if !LastComplete(job, p) then Put(|job.contents[|p.files| - 1]| - |p.files[|p.files| - 1]|)
      else if |p.files| < |job.parts| then Create
      else Link
    case Ending(_, removed) => if removed < |p.files| then Remove else Finish
  }

  /** How many such steps a call takes at most: three for every file to come, and one to remove every file there is. */
  function StepsLeft(job: Job, p: Proc): nat
    requires Sound(job, p)
  {
    match p.phase
    case Start => 3 * |job.parts| + 4
    case Running => 3 * (|job.parts| - |p.files|) + |p.files| + 3 + if LastComplete(job, p) then 0 else 1
    case Ending(_, removed) => |p.files| - removed + 1
    case Done(_) => 0
  }

  lemma PutCompletes(job: Job, p: Proc)
    requires Sound(job, p) && p.phase == Running && !LastComplete(job, p)
    ensures Ready(job, p, NextAction(job, p))
    ensures forall ns :: LastComplete(job, NextProc(job, ns, p, NextAction(job, p)))
  {
    var k := |p.files| - 1;
    var file, content := p.files[k], job.contents[k];
    assert file <= content && |file| < |content|;
    assert file + content[|file|..] == content && content[|file|..|content|] == content[|file|..];
  }

  /** The step can be taken, and there are fewer to come. */
  lemma NextStep(job: Job, ns: map<Path, Inode>, p: Proc)
    requires Sound(job, p) && !p.phase.Done?
    ensures var a := NextAction(job, p);
            && a != Abort && a != FailToRemove && Ready(job, p, a)
            && Sound(job, NextProc(job, ns, p, a)) && StepsLeft(job, NextProc(job, ns, p, a)) < StepsLeft(job, p)
  {
    if p.phase == Running && !LastComplete(job, p) {
      PutCompletes(job, p);
    }
    SoundStep(job, ns, p, NextAction(job, p));
  }

  /** In every reached state each call that has not returned has a step to take, other than giving up. */
  lemma NoCallIsStuck(jobs: seq<Job>, first: State, turns: seq<Turn>, s: State, w: int) returns (a: Action)
    requires Reached(jobs, first, turns, s) && 0 <= w < |jobs|
    ensures |s.procs| == |jobs|
    ensures !s.procs[w].phase.Done? ==> Enabled(jobs, s, w, a) && a != Abort && a != FailToRemove
  {
    ReachedIsInvariant(jobs, first, turns, s);
    assert AllSound(jobs, s) && Sound(jobs[w], s.procs[w]);
    a := Check;
    if !s.procs[w].phase.Done? {
      NextStep(jobs[w], s.ns, s.procs[w]);
      a := NextAction(jobs[w], s.procs[w]);
    }
  }

  function AllSteps(jobs: seq<Job>, procs: seq<Proc>): nat
    requires |jobs| == |procs| && forall w | 0 <= w < |jobs| :: Sound(jobs[w], procs[w])
  {
    if jobs == [] then 0 else StepsLeft(jobs[0], procs[0]) + AllSteps(jobs[1..], procs[1..])
  }

  lemma {:induction false} FewerSteps(jobs: seq<Job>, procs: seq<Proc>, w: int, p: Proc)
    requires |jobs| == |procs| && (forall v | 0 <= v < |jobs| :: Sound(jobs[v], procs[v]))
    requires 0 <= w < |jobs| && Sound(jobs[w], p) && StepsLeft(jobs[w], p) < StepsLeft(jobs[w], procs[w])
    ensures forall v | 0 <= v < |jobs| :: Sound(jobs[v], procs[w := p][v])
    ensures AllSteps(jobs, procs[w := p]) < AllSteps(jobs, procs)
    decreases |jobs|
  {
    hide Sound, StepsLeft;
    if w == 0 {
      assert procs[w := p][1..] == procs[1..];
    } else {
      FewerSteps(jobs[1..], procs[1..], w - 1, p);
      assert procs[w := p][1..] == procs[1..][w - 1 := p];
    }
  }

  /** From every state all calls can return, without failure or cancellation. */
  lemma {:induction false} AllCanReturn(jobs: seq<Job>, s: State) returns (turns: seq<Turn>, t: State)
    requires AllSound(jobs, s)
    ensures Run(jobs, s, turns, t) && AllDone(t) && NoAborts(turns) && NoFailedRemovals(turns)
    decreases AllSteps(jobs, s.procs)
  {
    hide Sound, StepsLeft, AllSteps;
    if AllDone(s) {
      turns, t := [], s;
    } else {
      var w :| 0 <= w < |s.procs| && !s.procs[w].phase.Done?;
      var a := NextAction(jobs[w], s.procs[w]);
      NextStep(jobs[w], s.ns, s.procs[w]);
      var next := Step(jobs, s, w, a);
      FewerSteps(jobs, s.procs, w, next.procs[w]);
      var rest;
      rest, t := AllCanReturn(jobs, next);
      turns := [Turn(w, a)] + rest;
      assert turns[1..] == rest;
    }
  }

  /** So the contest of N calls for one name is decided in some run. */
  lemma ContestIsDecided(jobs: seq<Job>, first: State, dest: Path) returns (turns: seq<Turn>, t: State)
    requires Contest(jobs, first, dest) && jobs != [] && Initial(jobs, first)
    ensures Reached(jobs, first, turns, t) && NoAborts(turns) && NoFailedRemovals(turns) && AllDone(t)
    ensures exists w :: 0 <= w < |jobs| && Winner(jobs, t, dest, w)
  {
    InitiallyInvariant(jobs, first);
    turns, t := AllCanReturn(jobs, first);
    ExactlyOneSucceeds(jobs, first, dest, turns, t);
  }

  // ---------------------------------------------------------------- a destination that exists

  /** A call that has not begun, or has been refused before it created anything. */
  predicate Idle(p: Proc) {
    p.files == [] && (p.phase == Start || p.phase == Ending(false, 0) || p.phase == Done(false))
  }

  lemma IdleStep(job: Job, ns: map<Path, Inode>, p: Proc, a: Action)
    requires Idle(p) && job.dest in ns && Ready(job, p, a)
    ensures Idle(NextProc(job, ns, p, a)) && forall v :: NextNames(job, ns, v, p, a) == ns
  {
  }

  /** If the destination exists, the call fails, and creates no file on the way. */
  lemma {:induction false} TakenIsRefused(jobs: seq<Job>, first: State, s: State, turns: seq<Turn>, t: State, w: int)
    requires Invariant(jobs, first, s) && Run(jobs, s, turns, t)
    requires 0 <= w < |jobs| == |s.procs| && jobs[w].dest in first.ns && Idle(s.procs[w])
    ensures |t.procs| == |jobs| && Idle(t.procs[w]) && !Succeeded(t.procs[w])
    decreases |turns|
  {
    if turns != [] {
      var v, a := turns[0].w, turns[0].action;
      assert jobs[w].dest in s.ns;
      if v == w {
        IdleStep(jobs[w], s.ns, s.procs[w], a);
      }
      StepKeepsInvariant(jobs, first, s, v, a);
      hide Invariant, NextProc, NextNames;
      TakenIsRefused(jobs, first, Step(jobs, s, v, a), turns[1..], t, w);
    }
  }

  lemma ExistingIsRefused(jobs: seq<Job>, first: State, turns: seq<Turn>, t: State, w: int)
    requires Reached(jobs, first, turns, t) && 0 <= w < |jobs| && jobs[w].dest in first.ns
    ensures |t.procs| == |jobs| && t.procs[w].files == [] && !Succeeded(t.procs[w])
  {
    InitiallyInvariant(jobs, first);
    hide Invariant, Run;
    TakenIsRefused(jobs, first, first, turns, t, w);
  }
}
