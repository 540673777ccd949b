/** What holds of `write_file` after every interleaving of any number of calls. */
module CommitRuns {
  import opened Base
  import opened CommitProtocol

  /** The state `s` is what these turns make of a filesystem on which no call has begun. */
  predicate Reached(jobs: seq<Job>, first: State, turns: seq<Turn>, s: State) {
    Initial(jobs, first) && Run(jobs, first, turns, s)
  }

  lemma ReachedIsInvariant(jobs: seq<Job>, first: State, turns: seq<Turn>, s: State)
    requires Reached(jobs, first, turns, s)
    ensures Invariant(jobs, first, s)
  {
    hide Invariant, Initial, Run;
    InitiallyInvariant(jobs, first);
    RunKeepsInvariant(jobs, first, first, turns, s);
  }

  /** No call removes or replaces a name that it did not create, or touches another call's files. */
  lemma OnlyOwnNames(jobs: seq<Job>, first: State, turns: seq<Turn>, s: State, w: int, a: Action, name: Path)
    requires Reached(jobs, first, turns, s) && Enabled(jobs, s, w, a) && name in s.ns
    ensures var t := Step(jobs, s, w, a);
            && (name in t.ns ==> t.ns[name] == s.ns[name])
            && (name !in t.ns ==> exists k :: Tracks(s, w, k) && HasName(jobs, w, k, name) && s.ns[name] == Created(w, k))
            && forall v | 0 <= v < |jobs| && v != w :: t.procs[v] == s.procs[v]
  {
    ReachedIsInvariant(jobs, first, turns, s);
    hide Reached, Step, Sound;
    OwnNamesStep(jobs, s, w, a, name);
  }

  lemma OwnNamesStep(jobs: seq<Job>, s: State, w: int, a: Action, name: Path)
    requires AllSound(jobs, s) && Owned(jobs, s) && Enabled(jobs, s, w, a) && name in s.ns
    ensures var t := Step(jobs, s, w, a);
            && (name in t.ns ==> t.ns[name] == s.ns[name])
            && (name !in t.ns ==> exists k :: Tracks(s, w, k) && HasName(jobs, w, k, name) && s.ns[name] == Created(w, k))
            && forall v | 0 <= v < |jobs| && v != w :: t.procs[v] == s.procs[v]
  {
    assert Sound(jobs[w], s.procs[w]);
    NextFacts(jobs[w], s.ns, w, s.procs[w], a);
    hide NextProc, NextNames, NameOf, Sound, Ready;
    if a == Remove {
      var k := RemovedCount(s.procs[w]);
      assert Tracks(s, w, k) && HasName(jobs, w, k, NameOf(jobs[w], k));
    }
  }

  /** A step of any call leaves a committed file as it is. */
  lemma CommitSurvivesStep(jobs: seq<Job>, s: State, w: int, a: Action, v: int)
    requires AllSound(jobs, s) && Enabled(jobs, s, w, a) && 0 <= v < |jobs| && Succeeded(s.procs[v])
    ensures var t := Step(jobs, s, w, a); |t.procs| == |jobs| && Succeeded(t.procs[v]) && t.procs[v].files == s.procs[v].files
  {
    hide NextNames, Sound;
  }

  lemma {:induction false} CommitSurvivesRun(jobs: seq<Job>, first: State, s: State, turns: seq<Turn>, t: State, v: int)
    requires Invariant(jobs, first, s) && Run(jobs, s, turns, t) && 0 <= v < |jobs| && Succeeded(s.procs[v])
    ensures Invariant(jobs, first, t) && Succeeded(t.procs[v]) && t.procs[v].files == s.procs[v].files
    decreases |turns|
  {
    if turns != [] {
      var next := Step(jobs, s, turns[0].w, turns[0].action);
      StepKeepsInvariant(jobs, first, s, turns[0].w, turns[0].action);
      CommitSurvivesStep(jobs, s, turns[0].w, turns[0].action, v);
      hide Step, Sound, Succeeded, Owned, AllAccounted, Untouched;
      CommitSurvivesRun(jobs, first, next, turns[1..], t, v);
    }
  }

  /** The destination of call `v` leads to the whole file of `v`. */
  predicate HoldsFileOf(jobs: seq<Job>, s: State, v: int) {
    && 0 <= v < |jobs| == |s.procs|
    && s.procs[v].files == jobs[v].contents
    && jobs[v].dest in s.ns && s.ns[jobs[v].dest] == Created(v, |jobs[v].contents| - 1)
  }

  lemma SuccessHoldsFile(jobs: seq<Job>, first: State, s: State, v: int)
    requires Invariant(jobs, first, s) && 0 <= v < |jobs| && Succeeded(s.procs[v])
    ensures HoldsFileOf(jobs, s, v)
  {
    assert Sound(jobs[v], s.procs[v]);
  }

  /** A destination holds its writer's complete bytes from the moment of the link on, whatever else runs before or after. */
  lemma CommitIsPermanent(
    jobs: seq<Job>, first: State, before: seq<Turn>, s: State, after: seq<Turn>, t: State, v: int)
    requires Reached(jobs, first, before, s) && Run(jobs, s, after, t)
    requires 0 <= v < |jobs| && v < |s.procs| && Succeeded(s.procs[v])
    ensures HoldsFileOf(jobs, s, v) && HoldsFileOf(jobs, t, v)
  {
    ReachedIsInvariant(jobs, first, before, s);
    hide Reached, Run;
    CommitSurvivesRun(jobs, first, s, after, t, v);
    hide Invariant;
    SuccessHoldsFile(jobs, first, s, v);
    SuccessHoldsFile(jobs, first, t, v);
  }

  /** At most one call succeeds per destination. */
  lemma AtMostOneSuccess(jobs: seq<Job>, first: State, turns: seq<Turn>, s: State, w: int, v: int)
    requires Reached(jobs, first, turns, s) && |s.procs| == |jobs| && 0 <= w < |jobs| && 0 <= v < |jobs|
    requires Succeeded(s.procs[w]) && Succeeded(s.procs[v]) && jobs[w].dest == jobs[v].dest
    ensures w == v
  {
    ReachedIsInvariant(jobs, first, turns, s);
  }

  /** A new name that no call uses for its own files is the complete file of the call that committed it. */
  lemma AppearedIsComplete(jobs: seq<Job>, first: State, turns: seq<Turn>, s: State, name: Path)
    requires Reached(jobs, first, turns, s) && name in s.ns && name !in first.ns
    requires forall v, k :: !HasName(jobs, v, k, name)
    ensures exists w :: HoldsFileOf(jobs, s, w) && jobs[w].dest == name && Succeeded(s.procs[w])
  {
    ReachedIsInvariant(jobs, first, turns, s);
    hide Reached, HasName;
    assert Accounted(jobs, first, s, name);
    var w :| 0 <= w < |jobs| && Succeeded(s.procs[w]) && jobs[w].dest == name;
    SuccessHoldsFile(jobs, first, s, w);
  }

  /** What a call reads back from a finished spool by its path is what it wrote there. */
  lemma SpoolReadsBack(jobs: seq<Job>, first: State, turns: seq<Turn>, s: State, w: int, k: int)
    requires Reached(jobs, first, turns, s)
    requires 0 <= w < |jobs| == |s.procs| && s.procs[w].phase == Running && 0 <= k < |s.procs[w].files| - 1
    ensures k < |jobs[w].parts| == |jobs[w].contents|
    ensures NameOf(jobs[w], k) in s.ns && s.ns[NameOf(jobs[w], k)] == Created(w, k)
    ensures s.procs[w].files[k] == jobs[w].contents[k]
  {
    ReachedIsInvariant(jobs, first, turns, s);
    hide Reached, NameOf;
    assert Sound(jobs[w], s.procs[w]);
    assert Tracks(s, w, k) && HasName(jobs, w, k, NameOf(jobs[w], k));
  }

  predicate AllDone(s: State) {
    forall w | 0 <= w < |s.procs| :: s.procs[w].phase.Done?
  }

  /** The name of a file that its call could not remove. */
  ghost predicate LeftOver(jobs: seq<Job>, s: State, name: Path) {
    exists w, k :: 0 <= w < |s.procs| && k in s.procs[w].kept && HasName(jobs, w, k, name)
  }

  ghost predicate IsCommitted(jobs: seq<Job>, s: State, name: Path) {
    exists w :: 0 <= w < |jobs| == |s.procs| && Succeeded(s.procs[w]) && jobs[w].dest == name
  }

  lemma NamesAtTheEnd(jobs: seq<Job>, first: State, s: State, name: Path)
    requires Invariant(jobs, first, s) && AllDone(s)
    ensures name in s.ns <==> name in first.ns || IsCommitted(jobs, s, name) || LeftOver(jobs, s, name)
  {
    hide HasName, Sound, Succeeded;
    assert forall w, k :: Tracks(s, w, k) <==> 0 <= w < |s.procs| && k in s.procs[w].kept;
    if name in s.ns {
      assert Accounted(jobs, first, s, name);
    }
  }

  predicate NoFailedRemovals(turns: seq<Turn>) {
    forall i | 0 <= i < |turns| :: turns[i].action != FailToRemove
  }

  lemma {:induction false} RemovedWithoutFailure(jobs: seq<Job>, s: State, turns: seq<Turn>, t: State)
    requires Run(jobs, s, turns, t) && NoFailedRemovals(turns)
    requires forall w | 0 <= w < |s.procs| :: s.procs[w].kept == {}
    ensures forall w | 0 <= w < |t.procs| :: t.procs[w].kept == {}
    decreases |turns|
  {
    if turns != [] {
      hide NextNames;
      RemovedWithoutFailure(jobs, Step(jobs, s, turns[0].w, turns[0].action), turns[1..], t);
    }
  }

  /**
   Once all calls have returned, the old names, the committed destinations and the files whose removal
   failed are all there is; where no removal fails, nothing is left behind.
   */
  lemma NothingLeftBehind(jobs: seq<Job>, first: State, turns: seq<Turn>, s: State, name: Path)
    requires Reached(jobs, first, turns, s) && AllDone(s)
    ensures name in s.ns <==> name in first.ns || IsCommitted(jobs, s, name) || LeftOver(jobs, s, name)
    ensures NoFailedRemovals(turns) ==> !LeftOver(jobs, s, name)
  {
    ReachedIsInvariant(jobs, first, turns, s);
    if NoFailedRemovals(turns) {
      RemovedWithoutFailure(jobs, first, turns, s);
    }
    hide Reached, Invariant, AllDone, IsCommitted;
    NamesAtTheEnd(jobs, first, s, name);
  }

  // ---------------------------------------------------------------- exactly one

  /** All calls want the same destination, and neither it nor any of their files exists yet. */
  ghost predicate Contest(jobs: seq<Job>, first: State, dest: Path) {
    && dest !in first.ns
    && (forall w | 0 <= w < |jobs| :: jobs[w].dest == dest)
    && forall w, k, name | HasName(jobs, w, k, name) :: name !in first.ns
  }

  /** Call `v` is still running and has created a file at or behind `r`. */
  predicate Leads(jobs: seq<Job>, s: State, v: int, k: int, r: Resource) {
    && 0 <= v < |jobs| == |s.procs| && s.procs[v].phase == Running
    && 0 <= k < |s.procs[v].files| && k < |jobs[v].parts|
    && (jobs[v].parts[k] == r || Before(r, jobs[v].parts[k]))
  }

  /** Call `f` failed to create a file, and a call that got at least as far is still running. */
  ghost predicate Outrun(jobs: seq<Job>, s: State, f: int) {
    && 0 <= f < |jobs| == |s.procs|
    && |s.procs[f].files| < |jobs[f].parts|
    && exists v, k :: Leads(jobs, s, v, k, jobs[f].parts[|s.procs[f].files|])
  }

  /** Unless the destination exists, somebody is ahead of everyone who has failed. */
  ghost predicate Progress(jobs: seq<Job>, s: State, dest: Path) {
    dest in s.ns || forall f | 0 <= f < |jobs| && f < |s.procs| && Failed(s.procs[f]) :: Outrun(jobs, s, f)
  }

  /** A refused creation is due to a call that is at least as far and still running. */
  lemma RefusalHasLeader(jobs: seq<Job>, first: State, s: State, dest: Path, w: int)
    requires Contest(jobs, first, dest) && Invariant(jobs, first, s) && Progress(jobs, s, dest) && dest !in s.ns
    requires Enabled(jobs, s, w, Create) && NameOf(jobs[w], |s.procs[w].files|) in s.ns
    ensures exists v, k :: v != w && Leads(jobs, s, v, k, jobs[w].parts[|s.procs[w].files|])
  {
    hide NameOf, Owned, Untouched;
    var i := |s.procs[w].files|;
    var r := jobs[w].parts[i];
    var name := NameOf(jobs[w], i);
    assert HasName(jobs, w, i, name);
    assert Accounted(jobs, first, s, name);
    NamesAreDistinct(jobs, w, i, i, name);
    var u, j :| Tracks(s, u, j) && HasName(jobs, u, j, name);
    assert Sound(jobs[u], s.procs[u]);
    SameResource(jobs, w, i, u, j, name);
    if s.procs[u].phase == Running {
      NamesAreDistinct(jobs, w, i, j, name);
      assert Leads(jobs, s, u, j, r);
    } else {
      assert Failed(s.procs[u]);
      hide Invariant, HasName;
      LeaderOfFailed(jobs, s, w, i, u, j, r);
    }
  }

  lemma LeaderOfFailed(jobs: seq<Job>, s: State, w: int, i: int, u: int, j: int, r: Resource)
    requires AllSound(jobs, s) && Outrun(jobs, s, u) && Tracks(s, u, j) && jobs[u].parts[j] == r
    requires 0 <= w < |jobs| && i == |s.procs[w].files| < |jobs[w].parts| && jobs[w].parts[i] == r
    ensures exists v, k :: v != w && Leads(jobs, s, v, k, r)
  {
    assert Sound(jobs[u], s.procs[u]) && Sound(jobs[w], s.procs[w]);
    var last := jobs[u].parts[|s.procs[u].files|];
    var v, k :| Leads(jobs, s, v, k, last);
    assert Before(r, last);
    assert v == w ==> Before(jobs[w].parts[k], r);
    assert Leads(jobs, s, v, k, r);
  }

  lemma SameResource(jobs: seq<Job>, w: int, i: int, u: int, j: int, name: Path)
    requires HasName(jobs, w, i, name) && HasName(jobs, u, j, name) && jobs[w].dest == jobs[u].dest
    ensures jobs[w].parts[i] == jobs[u].parts[j]
  {
    PathsAreDistinct(jobs[w].dest, jobs[w].parts[i], jobs[u].parts[j]);
  }

  /** Everyone whom `w` led is led by whoever leads `w`. */
  lemma LeadPassesOn(jobs: seq<Job>, s: State, t: State, w: int, f: int)
    requires Outrun(jobs, s, f) && 0 <= w < |jobs| && AllSound(jobs, s)
    requires |t.procs| == |s.procs| && |t.procs[f].files| == |s.procs[f].files|
    requires forall v | 0 <= v < |jobs| && v != w :: t.procs[v] == s.procs[v]
    requires |s.procs[w].files| < |jobs[w].parts|
    requires exists v, k :: v != w && Leads(jobs, s, v, k, jobs[w].parts[|s.procs[w].files|])
    ensures Outrun(jobs, t, f)
  {
    var r := jobs[f].parts[|s.procs[f].files|];
    var v, k :| Leads(jobs, s, v, k, r);
    var i := |s.procs[w].files|;
    if v == w {
      assert Sound(jobs[w], s.procs[w]);
      assert Before(jobs[w].parts[k], jobs[w].parts[i]);
      var v', k' :| v' != w && Leads(jobs, s, v', k', jobs[w].parts[i]);
      assert Leads(jobs, t, v', k', r);
    } else {
      assert Leads(jobs, t, v, k, r);
    }
  }

  /** Without an I/O error or cancellation, no step leaves the losers without a leader. */
  lemma ProgressStep(jobs: seq<Job>, first: State, s: State, dest: Path, w: int, a: Action)
    requires Contest(jobs, first, dest) && Invariant(jobs, first, s) && Progress(jobs, s, dest)
    requires Enabled(jobs, s, w, a) && a != Abort
    ensures Progress(jobs, Step(jobs, s, w, a), dest)
  {
    var t := Step(jobs, s, w, a);
    var job, p := jobs[w], s.procs[w];
    assert Sound(job, p);
    NextFacts(job, s.ns, w, p, a);
    hide NextProc, NextNames, NameOf, Sound, AllAccounted, Untouched;
    if dest in s.ns {
      if a == Remove {
        NamesAreDistinct(jobs, w, p.phase.removed, p.phase.removed, NameOf(job, p.phase.removed));
      }
    } else if a == Link {
      assert Tracks(s, w, |p.files| - 1) && HasName(jobs, w, |p.files| - 1, NameOf(job, |p.files| - 1));
    } else {
      hide Owned, Committed;
      forall f | 0 <= f < |jobs| && Failed(t.procs[f])
        ensures Outrun(jobs, t, f)
      {
        LosersAreLed(jobs, first, s, dest, w, a, f);
      }
    }
  }

  lemma LosersAreLed(jobs: seq<Job>, first: State, s: State, dest: Path, w: int, a: Action, f: int)
    requires Contest(jobs, first, dest) && Invariant(jobs, first, s) && Progress(jobs, s, dest) && dest !in s.ns
    requires Enabled(jobs, s, w, a) && a != Abort && a != Link
    requires 0 <= f < |jobs| && Failed(Step(jobs, s, w, a).procs[f])
    ensures Outrun(jobs, Step(jobs, s, w, a), f)
  {
    hide Contest, Invariant, Progress, NameOf, NextProc, NextNames, Outrun;
    if a == Create && NameOf(jobs[w], |s.procs[w].files|) in s.ns {
      LosersAfterRefusal(jobs, first, s, dest, w, f);
    } else {
      LosersOtherwise(jobs, first, s, dest, w, a, f);
    }
  }

  lemma LosersAfterRefusal(jobs: seq<Job>, first: State, s: State, dest: Path, w: int, f: int)
    requires Contest(jobs, first, dest) && Invariant(jobs, first, s) && Progress(jobs, s, dest) && dest !in s.ns
    requires Enabled(jobs, s, w, Create) && NameOf(jobs[w], |s.procs[w].files|) in s.ns
    requires 0 <= f < |jobs| && Failed(Step(jobs, s, w, Create).procs[f])
    ensures Outrun(jobs, Step(jobs, s, w, Create), f)
  {
    var t := Step(jobs, s, w, Create);
    RefusalHasLeader(jobs, first, s, dest, w);
    RefusedProc(jobs[w], s.ns, s.procs[w]);
    InvariantShape(jobs, first, s);
    hide NextProc, NextNames, NameOf, Invariant, Contest, Outrun, Ready, Leads;
    if f == w {
      LeaderStays(jobs, s, t, w);
    } else {
      LeadPassesOn(jobs, s, t, w, f);
    }
  }

  lemma LosersOtherwise(jobs: seq<Job>, first: State, s: State, dest: Path, w: int, a: Action, f: int)
    requires Contest(jobs, first, dest) && Progress(jobs, s, dest) && dest !in s.ns
    requires Enabled(jobs, s, w, a) && a != Abort && a != Link
    requires a == Create ==> NameOf(jobs[w], |s.procs[w].files|) !in s.ns
    requires 0 <= f < |jobs| && Failed(Step(jobs, s, w, a).procs[f])
    ensures Outrun(jobs, Step(jobs, s, w, a), f)
  {
    assert jobs[w].dest == dest;
    UnrefusedProc(jobs[w], s.ns, s.procs[w], a);
    hide NextProc, NextNames, NameOf, Contest, Outrun, Ready, Leads;
    LeadersStay(jobs, s, Step(jobs, s, w, a), w, f);
  }

  lemma RefusedProc(job: Job, ns: map<Path, Inode>, p: Proc)
    requires Ready(job, p, Create) && NameOf(job, |p.files|) in ns
    ensures |p.files| < |job.parts| && NextProc(job, ns, p, Create).files == p.files
  {
  }

  lemma UnrefusedProc(job: Job, ns: map<Path, Inode>, p: Proc, a: Action)
    requires Ready(job, p, a) && a != Abort && a != Link && job.dest !in ns
    requires a == Create ==> NameOf(job, |p.files|) !in ns
    ensures var q := NextProc(job, ns, p, a);
            && (Failed(q) ==> Failed(p) && q.files == p.files)
            && (p.phase == Running ==> q.phase == Running && |p.files| <= |q.files|)
  {
    hide NameOf;
  }

  lemma LeadersStay(jobs: seq<Job>, s: State, t: State, w: int, f: int)
    requires 0 <= w < |jobs| && Outrun(jobs, s, f) && |t.procs| == |s.procs| && |t.procs[f].files| == |s.procs[f].files|
    requires forall v | 0 <= v < |jobs| && v != w :: t.procs[v] == s.procs[v]
    requires s.procs[w].phase == Running ==> t.procs[w].phase == Running && |s.procs[w].files| <= |t.procs[w].files|
    ensures Outrun(jobs, t, f)
  {
    var r := jobs[f].parts[|s.procs[f].files|];
    var v, k :| Leads(jobs, s, v, k, r);
    assert Leads(jobs, t, v, k, r);
  }

  lemma InvariantShape(jobs: seq<Job>, first: State, s: State)
    requires Invariant(jobs, first, s)
    ensures AllSound(jobs, s)
  {
  }

  lemma LeaderStays(jobs: seq<Job>, s: State, t: State, w: int)
    requires 0 <= w < |jobs| == |s.procs| == |t.procs| && t.procs[w].files == s.procs[w].files
    requires forall v | 0 <= v < |jobs| && v != w :: t.procs[v] == s.procs[v]
    requires |s.procs[w].files| < |jobs[w].parts|
    requires exists v, k :: v != w && Leads(jobs, s, v, k, jobs[w].parts[|s.procs[w].files|])
    ensures Outrun(jobs, t, w)
  {
    var r := jobs[w].parts[|s.procs[w].files|];
    var v, k :| v != w && Leads(jobs, s, v, k, r);
    assert Leads(jobs, t, v, k, r);
  }

  predicate NoAborts(turns: seq<Turn>) {
    forall i | 0 <= i < |turns| :: turns[i].action != Abort
  }

  lemma {:induction false} RunKeepsProgress(jobs: seq<Job>, first: State, s: State, dest: Path, turns: seq<Turn>, t: State)
    requires Contest(jobs, first, dest) && Invariant(jobs, first, s) && Progress(jobs, s, dest)
    requires Run(jobs, s, turns, t) && NoAborts(turns)
    ensures Progress(jobs, t, dest)
    decreases |turns|
  {
    if turns != [] {
      hide Invariant, Step, Progress, Contest;
      StepKeepsInvariant(jobs, first, s, turns[0].w, turns[0].action);
      ProgressStep(jobs, first, s, dest, turns[0].w, turns[0].action);
      RunKeepsProgress(jobs, first, Step(jobs, s, turns[0].w, turns[0].action), dest, turns[1..], t);
    }
  }

  lemma DestinationExists(jobs: seq<Job>, first: State, t: State, dest: Path)
    requires Contest(jobs, first, dest) && jobs != [] && Invariant(jobs, first, t) && Progress(jobs, t, dest) && AllDone(t)
    ensures dest in t.ns
  {
    hide HasName, Sound, Owned, AllAccounted, Untouched;
    assert forall v, k, r :: !Leads(jobs, t, v, k, r);
    assert forall f :: !Outrun(jobs, t, f);
    assert t.procs[0].phase.Done?;
  }

  lemma DestinationIsNotLeftOver(jobs: seq<Job>, first: State, t: State, dest: Path)
    requires Contest(jobs, first, dest) && Invariant(jobs, first, t)
    ensures !LeftOver(jobs, t, dest)
  {
    hide Owned, AllAccounted, Untouched, Committed, HasName;
    forall w, k | 0 <= w < |t.procs| && k in t.procs[w].kept && HasName(jobs, w, k, dest)
      ensures false
    {
      assert Sound(jobs[w], t.procs[w]);
      NamesAreDistinct(jobs, w, k, k, dest);
    }
  }

  lemma WinnerExists(jobs: seq<Job>, first: State, t: State, dest: Path)
    requires Contest(jobs, first, dest) && Invariant(jobs, first, t) && AllDone(t) && dest in t.ns
    ensures exists w :: 0 <= w < |jobs| && Winner(jobs, t, dest, w)
  {
    NamesAtTheEnd(jobs, first, t, dest);
    assert !LeftOver(jobs, t, dest) by {
      DestinationIsNotLeftOver(jobs, first, t, dest);
    }
    var w :| 0 <= w < |jobs| && Succeeded(t.procs[w]) && jobs[w].dest == dest;
    forall v | 0 <= v < |jobs|
      ensures Succeeded(t.procs[v]) <==> v == w
    {
      if Succeeded(t.procs[v]) {
        SuccessHoldsFile(jobs, first, t, v);
        SuccessHoldsFile(jobs, first, t, w);
      }
      hide Invariant, HasName;
    }
    SuccessHoldsFile(jobs, first, t, w);
    hide Invariant, HasName;
    assert Winner(jobs, t, dest, w);
  }

  /**
   However N calls for one free destination interleave, once all have returned without an I/O error
   or cancellation exactly one has succeeded and its file is at the destination. No other new name is
   left, but for files whose removal failed.
   */
  lemma ExactlyOneSucceeds(jobs: seq<Job>, first: State, dest: Path, turns: seq<Turn>, t: State)
    requires Contest(jobs, first, dest) && jobs != []
    requires Reached(jobs, first, turns, t) && NoAborts(turns) && AllDone(t)
    ensures |t.procs| == |jobs|
    ensures exists w :: 0 <= w < |jobs| && Winner(jobs, t, dest, w)
    ensures forall name :: name in t.ns <==> name in first.ns || name == dest || LeftOver(jobs, t, name)
    ensures NoFailedRemovals(turns) ==> forall name :: !LeftOver(jobs, t, name)
  {
    InitiallyInvariant(jobs, first);
    RunKeepsInvariant(jobs, first, first, turns, t);
    RunKeepsProgress(jobs, first, first, dest, turns, t);
    if NoFailedRemovals(turns) {
      RemovedWithoutFailure(jobs, first, turns, t);
    }
    hide Run, NoAborts, Initial, HasName, Invariant, Progress;
    DestinationExists(jobs, first, t, dest);
    WinnerExists(jobs, first, t, dest);
    hide Winner;
    InvariantShape(jobs, first, t);
    forall name
      ensures name in t.ns <==> name in first.ns || name == dest || LeftOver(jobs, t, name)
    {
      NamesAtTheEnd(jobs, first, t, name);
    }
  }

  /** Call `w` alone succeeded, and its complete file is at the destination. */
  predicate Winner(jobs: seq<Job>, s: State, dest: Path, w: int) {
    && 0 <= w < |jobs| == |s.procs|
    && (forall v | 0 <= v < |jobs| :: Succeeded(s.procs[v]) <==> v == w)
    && s.procs[w].files == jobs[w].contents
    && dest in s.ns && s.ns[dest] == Created(w, |jobs[w].contents| - 1)
  }
}
