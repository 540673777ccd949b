/**
 `write_file` against other writers on one filesystem: exclusive creation of spools and a temporary,
 writing, a hard link to the destination, removal of what was created. Every interleaving of the
 atomic filesystem steps of N calls is a run of this state machine.
 */
module CommitProtocol {
  import opened Base
  import opened Text

  type Path = string

  // ---------------------------------------------------------------- names

  /** The files a call may create beside its destination. */
  datatype Resource = ImageSpool(index: nat) | PropertySpool(index: nat) | Temporary

  function Suffix(r: Resource): string {
    match r
    case ImageSpool(i) => ".mmxisf-block-" + ToDecimal(i) + "-tmp"
    case PropertySpool(i) => ".mmxisf-property-block-" + ToDecimal(i) + "-tmp"
    case Temporary => ".mmxisf-tmp"
  }

  function PathOf(dest: Path, r: Resource): Path {
    dest + Suffix(r)
  }

  /** The order in which one call creates its files. */
  predicate Before(a: Resource, b: Resource) {
    match a
    case ImageSpool(i) => !b.ImageSpool? || i < b.index
    case PropertySpool(i) => b.Temporary? || (b.PropertySpool? && i < b.index)
    case Temporary => false
  }

  lemma MiddleIsUnique(front: string, a: string, b: string, back: string)
    requires front + a + back == front + b + back
    ensures a == b
  {
    assert (front + a + back)[|front|..|front| + |a|] == a;
    assert (front + b + back)[|front|..|front| + |b|] == b;
  }

  /** Different files of one call, and the destination itself, have different paths. */
  lemma PathsAreDistinct(dest: Path, a: Resource, b: Resource)
    ensures PathOf(dest, a) == PathOf(dest, b) <==> a == b
    ensures PathOf(dest, a) != dest
  {
    hide Suffix;
    SuffixesAreDistinct(a, b);
    var x, y := PathOf(dest, a), PathOf(dest, b);
    assert x[|dest|..] == Suffix(a) && y[|dest|..] == Suffix(b);
    assert |x| > |dest|;
  }

  lemma SuffixesAreDistinct(a: Resource, b: Resource)
    ensures |Suffix(a)| > 8
    ensures Suffix(a) == Suffix(b) <==> a == b
  {
    hide ToDecimal;
    if Suffix(a) == Suffix(b) {
      assert Suffix(a)[8] == Suffix(b)[8];
      if a.ImageSpool? {
        assert b.ImageSpool?;
        MiddleIsUnique(".mmxisf-block-", ToDecimal(a.index), ToDecimal(b.index), "-tmp");
      } else if a.PropertySpool? {
        assert b.PropertySpool?;
        MiddleIsUnique(".mmxisf-property-block-", ToDecimal(a.index), ToDecimal(b.index), "-tmp");
      }
    }
  }

  // ---------------------------------------------------------------- the machine

  /** One call: its destination, the files it creates and the bytes it puts into each, the XISF file last. */
  datatype Job = Job(dest: Path, parts: seq<Resource>, contents: seq<Bytes>)

  predicate ValidJob(job: Job) {
    && |job.parts| == |job.contents| > 0
    && job.parts[|job.parts| - 1] == Temporary
    && forall i, j | 0 <= i < j < |job.parts| :: Before(job.parts[i], job.parts[j])
  }

  function NameOf(job: Job, k: int): Path
    requires 0 <= k < |job.parts|
  {
    PathOf(job.dest, job.parts[k])
  }

  /** `Ending` is the cleanup on return: it has tried to remove the tracked paths below `removed`. */
  datatype Phase = Start | Running | Ending(ok: bool, removed: nat) | Done(ok: bool)

  /** A call, what it has put into the files it created, in order, and which of them it could not remove. */
  datatype Proc = Proc(phase: Phase, files: seq<Bytes>, kept: set<int>)

  predicate Failed(p: Proc) {
    (p.phase.Ending? || p.phase.Done?) && !p.phase.ok
  }

  predicate Succeeded(p: Proc) {
    (p.phase.Ending? || p.phase.Done?) && p.phase.ok
  }

  function RemovedCount(p: Proc): nat {
    if p.phase.Ending? then p.phase.removed else if p.phase.Done? then |p.files| else 0
  }

  /** A file that was there before, or the `k`-th file created by call `w`. */
  datatype Inode = Old(id: int) | Created(w: int, k: int)

  datatype State = State(ns: map<Path, Inode>, procs: seq<Proc>)

  /** The file under construction is complete, or none has been begun. */
  predicate LastComplete(job: Job, p: Proc) {
    p.files == [] || (|p.files| <= |job.contents| && p.files[|p.files| - 1] == job.contents[|p.files| - 1])
  }

  datatype Action =
    | Check
    | Create
    | Put(n: nat)
    | Link
    | Abort
    | Remove
    | FailToRemove
    | Finish

  predicate Ready(job: Job, p: Proc, a: Action) {
    && ValidJob(job)
    && match a
       case Check => p.phase == Start
       case Create => p.phase == Running && |p.files| < |job.parts| && LastComplete(job, p)
       case Put(n) =>
         p.phase == Running && 0 < |p.files| <= |job.contents| && 0 < n && |p.files[|p.files| - 1]| + n <= |job.contents[|p.files| - 1]|
       case Link => p.phase == Running && |p.files| == |job.parts| && LastComplete(job, p)
       case Abort => p.phase == Start || p.phase == Running
       case Remove => p.phase.Ending? && p.phase.removed < |p.files| <= |job.parts|
       case FailToRemove => p.phase.Ending? && p.phase.removed < |p.files| <= |job.parts|
       case Finish => p.phase.Ending? && p.phase.removed == |p.files|
  }

  predicate Enabled(jobs: seq<Job>, s: State, w: int, a: Action) {
    0 <= w < |jobs| == |s.procs| && Ready(jobs[w], s.procs[w], a)
  }

  /** What the step does to the call itself, given the names that exist. */
  function NextProc(job: Job, ns: map<Path, Inode>, p: Proc, a: Action): Proc
    requires Ready(job, p, a)
  {
    match a
    case Check => p.(phase := if job.dest in ns then Ending(false, 0) else Running)
    case Create => if NameOf(job, |p.files|) in ns then p.(phase := Ending(false, 0)) else p.(files := p.files + [[]])
    case Put(n) =>
      var k := |p.files| - 1;
      p.(files := p.files[k := p.files[k] + job.contents[k][|p.files[k]|..|p.files[k]| + n]])
    case Link => p.(phase := Ending(job.dest !in ns && NameOf(job, |p.files| - 1) in ns, 0))
    case Abort => p.(phase := Ending(false, 0))
    case Remove => p.(phase := Ending(p.phase.ok, p.phase.removed + 1))
    case FailToRemove => p.(phase := Ending(p.phase.ok, p.phase.removed + 1), kept := p.kept + {p.phase.removed})
    case Finish => p.(phase := Done(p.phase.ok))
  }

  /** What the step does to the names: exclusive creation, a link that refuses to replace, removal by name. */
  function NextNames(job: Job, ns: map<Path, Inode>, w: int, p: Proc, a: Action): map<Path, Inode>
    requires Ready(job, p, a)
  {
    match a
    case Create => if NameOf(job, |p.files|) in ns then ns else ns[NameOf(job, |p.files|) := Created(w, |p.files|)]
    case Link =>
      var temporary := NameOf(job, |p.files| - 1);
      if job.dest in ns || temporary !in ns then ns else ns[job.dest := ns[temporary]]
    case Remove => ns - {NameOf(job, p.phase.removed)}
    case _ => ns
  }

  /** One atomic step of call `w`. */
  function Step(jobs: seq<Job>, s: State, w: int, a: Action): State
    requires Enabled(jobs, s, w, a)
  {
    State(NextNames(jobs[w], s.ns, w, s.procs[w], a), s.procs[w := NextProc(jobs[w], s.ns, s.procs[w], a)])
  }

  datatype Turn = Turn(w: int, action: Action)

  /** `s` and `t` are the ends of a run with these turns. */
  predicate Run(jobs: seq<Job>, s: State, turns: seq<Turn>, t: State)
    decreases |turns|
  {
    if turns == [] then s == t
    else Enabled(jobs, s, turns[0].w, turns[0].action) && Run(jobs, Step(jobs, s, turns[0].w, turns[0].action), turns[1..], t)
  }

  /** Any filesystem, and no call begun. */
  predicate Initial(jobs: seq<Job>, s: State) {
    && |s.procs| == |jobs|
    && (forall w | 0 <= w < |jobs| :: ValidJob(jobs[w]) && s.procs[w] == Proc(Start, [], {}))
    && forall name | name in s.ns :: s.ns[name].Old?
  }

  // ---------------------------------------------------------------- the invariant

  /** What a call knows of itself: its files are fronts of its own contents, all but the last complete. */
  predicate Sound(job: Job, p: Proc) {
    && ValidJob(job)
    && |p.files| <= |job.parts|
    && RemovedCount(p) <= |p.files|
    && (forall k | k in p.kept :: 0 <= k < RemovedCount(p))
    && (p.phase == Start ==> p.files == [])
    && (forall k | 0 <= k < |p.files| :: p.files[k] <= job.contents[k])
    && (forall k | 0 <= k < |p.files| - 1 :: p.files[k] == job.contents[k])
    && (Succeeded(p) ==> p.files == job.contents)
  }

  predicate AllSound(jobs: seq<Job>, s: State) {
    |s.procs| == |jobs| && forall w | 0 <= w < |jobs| :: Sound(jobs[w], s.procs[w])
  }

  /** The file that the call created `k`-th has its name: its removal is to come, or has failed. */
  predicate Keeps(p: Proc, k: int) {
    RemovedCount(p) <= k < |p.files| || k in p.kept
  }

  predicate Tracks(s: State, w: int, k: int) {
    0 <= w < |s.procs| && Keeps(s.procs[w], k)
  }

  predicate HasName(jobs: seq<Job>, w: int, k: int, name: Path) {
    0 <= w < |jobs| && 0 <= k < |jobs[w].parts| && NameOf(jobs[w], k) == name
  }

  /** The name of such a file is still its own. */
  ghost predicate Owned(jobs: seq<Job>, s: State) {
    forall w, k, name | Tracks(s, w, k) && HasName(jobs, w, k, name) :: name in s.ns && s.ns[name] == Created(w, k)
  }

  /** A committed name leads to the whole file of the call that committed it. */
  predicate Committed(jobs: seq<Job>, s: State) {
    |s.procs| == |jobs| &&
    forall w | 0 <= w < |jobs| && Succeeded(s.procs[w]) ::
      jobs[w].dest in s.ns && s.ns[jobs[w].dest] == Created(w, |s.procs[w].files| - 1)
  }

  /** Every name was there before, or is that of a call's file, or is the destination of a successful call. */
  ghost predicate Accounted(jobs: seq<Job>, first: State, s: State, name: Path) {
    || name in first.ns
    || (exists w, k :: Tracks(s, w, k) && HasName(jobs, w, k, name))
    || (exists w :: 0 <= w < |jobs| && 0 <= w < |s.procs| && Succeeded(s.procs[w]) && jobs[w].dest == name)
  }

  ghost predicate AllAccounted(jobs: seq<Job>, first: State, s: State) {
    forall name | name in s.ns :: Accounted(jobs, first, s, name)
  }

  /** Every name that was there before is untouched. */
  predicate Untouched(first: State, s: State) {
    forall name | name in first.ns :: first.ns[name].Old? && name in s.ns && s.ns[name] == first.ns[name]
  }

  ghost predicate Invariant(jobs: seq<Job>, first: State, s: State) {
    && AllSound(jobs, s)
    && Owned(jobs, s)
    && Committed(jobs, s)
    && Untouched(first, s)
    && AllAccounted(jobs, first, s)
  }

  lemma InitiallyInvariant(jobs: seq<Job>, s: State)
    requires Initial(jobs, s)
    ensures Invariant(jobs, s, s)
  {
  }

  // ---------------------------------------------------------------- every step keeps it

  lemma SoundPut(job: Job, p: Proc, k: int, n: int)
    requires Sound(job, p) && p.phase == Running && k == |p.files| - 1 >= 0
    requires 0 < n && |p.files[k]| + n <= |job.contents[k]|
    ensures Sound(job, p.(files := p.files[k := p.files[k] + job.contents[k][|p.files[k]|..|p.files[k]| + n]]))
  {
    var file, content := p.files[k], job.contents[k];
    assert file + content[|file|..|file| + n] == content[..|file| + n];
    hide ValidJob;
  }

  lemma SoundCreate(job: Job, p: Proc)
    requires Sound(job, p) && p.phase == Running && |p.files| < |job.parts| && LastComplete(job, p)
    ensures Sound(job, p.(files := p.files + [[]]))
  {
  }

  lemma SoundSuccess(job: Job, p: Proc)
    requires Sound(job, p) && p.phase == Running && |p.files| == |job.parts| && LastComplete(job, p)
    ensures p.files == job.contents
  {
  }

  lemma SoundStep(job: Job, ns: map<Path, Inode>, p: Proc, a: Action)
    requires Sound(job, p) && Ready(job, p, a)
    ensures Sound(job, NextProc(job, ns, p, a))
  {
    if a.Put? {
      SoundPut(job, p, |p.files| - 1, a.n);
    } else if a.Create? {
      SoundCreate(job, p);
    } else if a.Link? {
      SoundSuccess(job, p);
    }
    hide ValidJob;
  }

  lemma NamesAreDistinct(jobs: seq<Job>, w: int, k: int, j: int, name: Path)
    requires HasName(jobs, w, k, name) && ValidJob(jobs[w])
    ensures name != jobs[w].dest
    ensures HasName(jobs, w, j, name) ==> j == k
  {
    hide Suffix;
    var parts := jobs[w].parts;
    PathsAreDistinct(jobs[w].dest, parts[k], parts[k]);
    if HasName(jobs, w, j, name) {
      PathsAreDistinct(jobs[w].dest, parts[k], parts[j]);
    }
  }

  /** Nothing that other calls see has changed. */
  lemma QuietStep(jobs: seq<Job>, first: State, s: State, w: int, p: Proc)
    requires Invariant(jobs, first, s) && 0 <= w < |jobs| && Sound(jobs[w], p)
    requires |p.files| == |s.procs[w].files| && forall k :: Keeps(p, k) <==> Keeps(s.procs[w], k)
    requires Succeeded(p) <==> Succeeded(s.procs[w])
    ensures Invariant(jobs, first, s.(procs := s.procs[w := p]))
  {
    hide Sound, RemovedCount, Succeeded, HasName, Keeps;
    var t := s.(procs := s.procs[w := p]);
    assert forall v, k :: Tracks(t, v, k) <==> Tracks(s, v, k);
    forall name | name in t.ns
      ensures Accounted(jobs, first, t, name)
    {
      assert Accounted(jobs, first, s, name);
      Recount(jobs, first, s, t, name);
    }
  }

  /** A name stays accounted for if its tracker or its committer does. */
  lemma Recount(jobs: seq<Job>, first: State, s: State, t: State, name: Path)
    requires Accounted(jobs, first, s, name) && |s.procs| == |t.procs|
    requires forall v, k | Tracks(s, v, k) && HasName(jobs, v, k, name) :: Tracks(t, v, k)
    requires forall v | 0 <= v < |jobs| && v < |s.procs| && Succeeded(s.procs[v]) && jobs[v].dest == name :: Succeeded(t.procs[v])
    ensures Accounted(jobs, first, t, name)
  {
    hide Tracks, HasName, Succeeded;
  }

  lemma CreatedStep(jobs: seq<Job>, first: State, s: State, w: int, p: Proc, name: Path)
    requires Invariant(jobs, first, s) && 0 <= w < |jobs| && Sound(jobs[w], p)
    requires var k := |s.procs[w].files|;
             && p.phase == s.procs[w].phase == Running && |p.files| == k + 1 && p.kept == s.procs[w].kept
             && HasName(jobs, w, k, name) && name !in s.ns
    ensures Invariant(jobs, first, State(s.ns[name := Created(w, |s.procs[w].files|)], s.procs[w := p]))
  {
    hide NameOf, Sound;
    var k := |s.procs[w].files|;
    var t := State(s.ns[name := Created(w, k)], s.procs[w := p]);
    assert forall v, j :: Tracks(t, v, j) <==> Tracks(s, v, j) || (v == w && j == k);
    forall other | other in t.ns
      ensures Accounted(jobs, first, t, other)
    {
      if other == name {
        assert Tracks(t, w, k);
      } else {
        assert Accounted(jobs, first, s, other);
        Recount(jobs, first, s, t, other);
      }
    }
  }

  lemma LinkedNames(jobs: seq<Job>, first: State, s: State, t: State, w: int, temporary: Path)
    requires AllSound(jobs, s) && Owned(jobs, s) && Committed(jobs, s) && Untouched(first, s)
    requires 0 <= w < |jobs| && Tracks(s, w, |s.procs[w].files| - 1) && HasName(jobs, w, |s.procs[w].files| - 1, temporary)
    requires jobs[w].dest !in s.ns && |t.procs| == |s.procs|
    requires t.ns == s.ns[jobs[w].dest := Created(w, |s.procs[w].files| - 1)]
    requires forall v, j :: Tracks(t, v, j) <==> Tracks(s, v, j)
    requires forall v | 0 <= v < |s.procs| ::
               (Succeeded(t.procs[v]) <==> v == w || Succeeded(s.procs[v])) && |t.procs[v].files| == |s.procs[v].files|
    ensures Owned(jobs, t) && Committed(jobs, t) && Untouched(first, t)
  {
    hide NameOf, Sound, Succeeded, RemovedCount, Tracks, HasName;
  }

  lemma LinkedStep(jobs: seq<Job>, first: State, s: State, w: int, p: Proc, temporary: Path)
    requires Invariant(jobs, first, s) && 0 <= w < |jobs| && Sound(jobs[w], p)
    requires s.procs[w].phase == Running && p.phase == Ending(true, 0) && |p.files| == |s.procs[w].files| > 0 && p.kept == s.procs[w].kept
    requires HasName(jobs, w, |p.files| - 1, temporary) && temporary in s.ns && jobs[w].dest !in s.ns
    ensures Invariant(jobs, first, State(s.ns[jobs[w].dest := s.ns[temporary]], s.procs[w := p]))
  {
    hide NameOf, Sound, HasName, Committed, Untouched;
    var t := State(s.ns[jobs[w].dest := s.ns[temporary]], s.procs[w := p]);
    assert Tracks(s, w, |p.files| - 1);
    assert forall v, j :: Tracks(t, v, j) <==> Tracks(s, v, j);
    LinkedNames(jobs, first, s, t, w, temporary);
    hide Owned;
    forall other | other in t.ns
      ensures Accounted(jobs, first, t, other)
    {
      if other == jobs[w].dest {
        assert Succeeded(t.procs[w]);
      } else {
        assert Accounted(jobs, first, s, other);
        Recount(jobs, first, s, t, other);
      }
    }
  }

  /** Without one name, every other tracked name is still there. */
  lemma RemovedOwned(jobs: seq<Job>, s: State, t: State, w: int, k: int, name: Path)
    requires AllSound(jobs, s) && Owned(jobs, s) && Tracks(s, w, k) && HasName(jobs, w, k, name)
    requires t.ns == s.ns - {name}
    requires forall v, j | Tracks(t, v, j) :: Tracks(s, v, j) && !(v == w && j == k)
    ensures Owned(jobs, t)
  {
    forall v, j, other | Tracks(t, v, j) && HasName(jobs, v, j, other)
      ensures other in t.ns && t.ns[other] == Created(v, j)
    {
      assert Tracks(s, v, j);
      assert s.ns[name] == Created(w, k) && s.ns[other] == Created(v, j);
    }
  }

  lemma RemovedOthers(jobs: seq<Job>, first: State, s: State, t: State, w: int, k: int, name: Path)
    requires AllSound(jobs, s) && Owned(jobs, s) && Committed(jobs, s) && Untouched(first, s)
    requires Tracks(s, w, k) && HasName(jobs, w, k, name)
    requires t.ns == s.ns - {name} && |t.procs| == |s.procs|
    requires forall v | 0 <= v < |s.procs| :: (Succeeded(t.procs[v]) <==> Succeeded(s.procs[v])) && t.procs[v].files == s.procs[v].files
    ensures Committed(jobs, t) && Untouched(first, t)
  {
    NamesAreDistinct(jobs, w, k, k, name);
    hide Succeeded, RemovedCount;
    assert s.ns[name] == Created(w, k);
  }

  lemma RemovalKeeps(p: Proc, q: Proc)
    requires p.phase.Ending? && q.phase == Ending(p.phase.ok, RemovedCount(p) + 1) && q.files == p.files && q.kept == p.kept
    requires RemovedCount(p) < |p.files| && forall k | k in p.kept :: 0 <= k < RemovedCount(p)
    ensures Keeps(p, RemovedCount(p)) && forall k :: Keeps(q, k) <==> Keeps(p, k) && k != RemovedCount(p)
    ensures Succeeded(q) <==> Succeeded(p)
  {
  }

  lemma RemovedStep(jobs: seq<Job>, first: State, s: State, w: int, p: Proc, name: Path)
    requires Invariant(jobs, first, s) && 0 <= w < |jobs| && Sound(jobs[w], p)
    requires var k := RemovedCount(s.procs[w]);
             && s.procs[w].phase.Ending? && p.phase == Ending(s.procs[w].phase.ok, k + 1) && p.files == s.procs[w].files && |p.files| > k
             && p.kept == s.procs[w].kept
             && HasName(jobs, w, k, name)
    ensures Invariant(jobs, first, State(s.ns - {name}, s.procs[w := p]))
  {
    var k := RemovedCount(s.procs[w]);
    assert Sound(jobs[w], s.procs[w]);
    RemovalKeeps(s.procs[w], p);
    hide HasName, Sound, Owned, Committed, Untouched, Keeps, RemovedCount;
    var t := State(s.ns - {name}, s.procs[w := p]);
    assert Tracks(s, w, k);
    assert forall v, j :: Tracks(t, v, j) <==> Tracks(s, v, j) && !(v == w && j == k);
    RemovedOwned(jobs, s, t, w, k, name);
    RemovedOthers(jobs, first, s, t, w, k, name);
    forall other | other in t.ns
      ensures Accounted(jobs, first, t, other)
    {
      if HasName(jobs, w, k, other) {
        SameName(jobs, w, k, name, other);
      }
      assert Accounted(jobs, first, s, other);
      Recount(jobs, first, s, t, other);
    }
  }

  lemma SameName(jobs: seq<Job>, w: int, k: int, name: Path, other: Path)
    requires HasName(jobs, w, k, name) && HasName(jobs, w, k, other)
    ensures name == other
  {
  }

  /** The step as the cases above need it. */
  lemma NextFacts(job: Job, ns: map<Path, Inode>, w: int, p: Proc, a: Action)
    requires Ready(job, p, a)
    ensures var q, names := NextProc(job, ns, p, a), NextNames(job, ns, w, p, a);
            && (a.Create? || (|q.files| == |p.files| && (!a.Put? ==> q.files == p.files)))
            && (a.Check? || a.Put? || a.Abort? || a.Finish? ==>
                  && names == ns && RemovedCount(q) == RemovedCount(p) && q.kept == p.kept && Succeeded(q) == Succeeded(p))
            && (a.FailToRemove? ==>
                  && names == ns && RemovedCount(q) == RemovedCount(p) + 1 <= |p.files| && q.kept == p.kept + {RemovedCount(p)}
                  && Succeeded(q) == Succeeded(p))
            && (a.Create? ==>
                  if NameOf(job, |p.files|) in ns then names == ns && q == p.(phase := Ending(false, 0))
                  else names == ns[NameOf(job, |p.files|) := Created(w, |p.files|)] && q == p.(files := p.files + [[]]))
            && (a.Link? ==>
                  if job.dest in ns || NameOf(job, |p.files| - 1) !in ns then names == ns && q == p.(phase := Ending(false, 0))
                  else names == ns[job.dest := ns[NameOf(job, |p.files| - 1)]] && q == p.(phase := Ending(true, 0)))
            && (a.Remove? ==>
                  names == ns - {NameOf(job, p.phase.removed)} && q == p.(phase := Ending(p.phase.ok, p.phase.removed + 1)))
  {
    hide NameOf, ValidJob;
  }

  /** No file of the call gets or loses its name. */
  lemma KeepsStays(p: Proc, q: Proc)
    requires |q.files| == |p.files| && RemovedCount(p) <= |p.files|
    requires
      || (q.kept == p.kept && RemovedCount(q) == RemovedCount(p))
      || (q.kept == p.kept + {RemovedCount(p)} && RemovedCount(q) == RemovedCount(p) + 1 <= |p.files|)
    ensures forall k :: Keeps(q, k) <==> Keeps(p, k)
  {
    hide RemovedCount;
  }

  lemma GivingUpKeeps(p: Proc)
    requires p.phase == Running
    ensures var q := p.(phase := Ending(false, 0)); (forall k :: Keeps(q, k) <==> Keeps(p, k)) && !Succeeded(q) && !Succeeded(p)
  {
  }

  /** The invariant survives every step of every call. */
  lemma StepKeepsInvariant(jobs: seq<Job>, first: State, s: State, w: int, a: Action)
    requires Invariant(jobs, first, s) && Enabled(jobs, s, w, a)
    ensures Invariant(jobs, first, Step(jobs, s, w, a))
  {
    var job, p := jobs[w], s.procs[w];
    var next := NextProc(job, s.ns, p, a);
    assert Sound(job, p);
    SoundStep(job, s.ns, p, a);
    NextFacts(job, s.ns, w, p, a);
    hide Sound, Invariant, NameOf, NextProc, NextNames, Keeps, Succeeded, RemovedCount, HasName;
    match a
    case Create =>
      var name := NameOf(job, |p.files|);
      if name in s.ns {
        GivingUpKeeps(p);
        QuietStep(jobs, first, s, w, next);
      } else {
        CreatedStep(jobs, first, s, w, next, name);
      }
    case Link =>
      var temporary := NameOf(job, |p.files| - 1);
      if job.dest in s.ns || temporary !in s.ns {
        GivingUpKeeps(p);
        QuietStep(jobs, first, s, w, next);
      } else {
        LinkedStep(jobs, first, s, w, next, temporary);
      }
    case Remove =>
      RemovedStep(jobs, first, s, w, next, NameOf(job, p.phase.removed));
    case _ =>
      KeepsStays(p, next);
      QuietStep(jobs, first, s, w, next);
  }

  /** The invariant holds after every interleaving. */
  lemma {:induction false} RunKeepsInvariant(jobs: seq<Job>, first: State, s: State, turns: seq<Turn>, t: State)
    requires Invariant(jobs, first, s) && Run(jobs, s, turns, t)
    ensures Invariant(jobs, first, t)
    decreases |turns|
  {
    if turns != [] {
      hide Invariant, Step;
      StepKeepsInvariant(jobs, first, s, turns[0].w, turns[0].action);
      RunKeepsInvariant(jobs, first, Step(jobs, s, turns[0].w, turns[0].action), turns[1..], t);
    }
  }
}
