/** The multi-database replacement of src/databases.rs: any number of replacing and reading
    processes over one epoch lock, in the source's steps. */
module KeyspaceReplace {
  import opened Basics

  /** The whole contents of one logical database. */
  type Payload = string
  type Keyspaces = seq<Payload>
  type Pid = nat

  /** Where a process stands. A replacer that has left the lock is `Finishing` until its load-flag
      guard is dropped. */
  datatype Phase =
    | Idle
    | Staging(source: Keyspaces, staged: Keyspaces)
    | Installing(staged: Keyspaces, olds: Keyspaces)
    | RollingBack(olds: Keyspaces)
    | Finishing
    | Reading(view: Keyspaces)

  /** `epochs` lists the published keyspaces, first to last, `installed` what each replacement after
      the first put in, `views` what readers took away, and `begun` counts attempts. */
  datatype State = State(
    dbs: Keyspaces, generation: nat, loading: bool, writer: set<Pid>, procs: map<Pid, Phase>,
    epochs: seq<Keyspaces>, installed: seq<Keyspaces>, views: seq<Keyspaces>, begun: nat)

  function Start(dbs: Keyspaces): State {
    State(dbs, 0, false, {}, map[], [dbs], [], [], 0)
  }

  datatype Step =
    | Begin(p: Pid, source: Keyspaces) | Stage(p: Pid) | StagePanic(p: Pid)
    | Lock(p: Pid) | Install(p: Pid) | Commit(p: Pid)
    | Panic(p: Pid) | Restore(p: Pid) | Unlock(p: Pid)
    | Finish(p: Pid)
    | BeginRead(p: Pid) | Sample(p: Pid) | EndRead(p: Pid)

  function At(s: State, p: Pid): Phase {
    if p in s.procs then s.procs[p] else Idle
  }

  function Readers(s: State): set<Pid> {
    set p | p in s.procs && s.procs[p].Reading?
  }

  /** The replacements under way. */
  function InFlight(s: State): set<Pid> {
    set p | p in s.procs && !s.procs[p].Idle? && !s.procs[p].Reading?
  }

  predicate Enabled(s: State, step: Step) {
    var at := At(s, step.p);
    match step
    case Begin(_, _) => at.Idle?
    case Stage(_) => at.Staging? && |at.staged| < Min(|s.dbs|, |at.source|)
    case StagePanic(_) => at.Staging?
    case Lock(_) => at.Staging? && |at.staged| >= Min(|s.dbs|, |at.source|) && s.writer == {} && Readers(s) == {}
    case Install(_) => at.Installing? && |at.olds| < |at.staged| && |at.olds| < |s.dbs|
    case Commit(_) => at.Installing? && |at.olds| >= |at.staged|
    case Panic(_) => at.Installing?
    case Restore(_) => at.RollingBack? && 0 < |at.olds| <= |s.dbs|
    case Unlock(_) => at.RollingBack? && at.olds == []
    case Finish(_) => at.Finishing?
    case BeginRead(_) => at.Idle? && s.writer == {}
    case Sample(_) => at.Reading? && |at.view| < |s.dbs|
    case EndRead(_) => at.Reading? && |at.view| >= |s.dbs|
  }

  /** A step that is not enabled does nothing. */
  function Next(s: State, step: Step): State {
    if !Enabled(s, step) then s
    else
      var p := step.p;
      var at := At(s, p);
      match step
      case Begin(_, source) => s.(procs := s.procs[p := Staging(source, [])], loading := true, begun := s.begun + 1)
      case Stage(_) => s.(procs := s.procs[p := Staging(at.source, at.staged + [at.source[|at.staged|]])])
      case StagePanic(_) => s.(procs := s.procs[p := Finishing])
      case Lock(_) => s.(procs := s.procs[p := Installing(at.staged, [])], writer := {p})
      case Install(_) =>
        s.(dbs := s.dbs[|at.olds| := at.staged[|at.olds|]],
           procs := s.procs[p := Installing(at.staged, at.olds + [s.dbs[|at.olds|]])])
      case Commit(_) =>
        s.(procs := s.procs[p := Finishing], writer := {}, epochs := s.epochs + [s.dbs], installed := s.installed + [at.staged])
      case Panic(_) => s.(procs := s.procs[p := RollingBack(at.olds)])
      case Restore(_) =>
        var i := |at.olds| - 1;
        s.(dbs := s.dbs[i := at.olds[i]], procs := s.procs[p := RollingBack(at.olds[..i])])
      case Unlock(_) => s.(procs := s.procs[p := Finishing], writer := {})
      case Finish(_) => s.(procs := s.procs[p := Idle], generation := s.generation + 1, loading := false)
      case BeginRead(_) => s.(procs := s.procs[p := Reading([])])
      case Sample(_) => s.(procs := s.procs[p := Reading(at.view + [s.dbs[|at.view|]])])
      case EndRead(_) => s.(procs := s.procs[p := Idle], views := s.views + [at.view])
  }

  function Run(s: State, steps: seq<Step>): State
    decreases |steps|
  {
    if steps == [] then s else Next(Run(s, steps[..|steps| - 1]), steps[|steps| - 1])
  }

  // ----- the invariant ---------------------------------------------------------------------------------

  /** What a process may be holding, against the published keyspaces. */
  predicate PhaseOk(at: Phase, dbs: Keyspaces, published: Keyspaces)
    requires |dbs| == |published|
  {
    match at
    case Staging(source, staged) => |staged| <= Min(|dbs|, |source|) && staged == source[..|staged|]
    case Installing(staged, olds) =>
      && |olds| <= |staged| <= |dbs|
      && olds == published[..|olds|]
      && dbs == staged[..|olds|] + published[|olds|..]
    case RollingBack(olds) => |olds| <= |dbs| && olds == published[..|olds|] && dbs[|olds|..] == published[|olds|..]
    case Reading(view) => |view| <= |dbs| && view == published[..|view|]
    case _ => true
  }

  function Published(s: State): Keyspaces
    requires s.epochs != []
  {
    s.epochs[|s.epochs| - 1]
  }

  /** Each epoch is all of what was installed over the rest of the one before. */
  ghost predicate Chain(epochs: seq<Keyspaces>, installed: seq<Keyspaces>) {
    && |epochs| == |installed| + 1
    && forall k :: 0 <= k < |installed| ==>
      |installed[k]| <= |epochs[k]| && epochs[k + 1] == installed[k] + epochs[k][|installed[k]|..]
  }

  ghost predicate LockInv(s: State) {
    && (forall p :: p in s.writer <==> p in s.procs && (s.procs[p].Installing? || s.procs[p].RollingBack?))
    && (forall p, q :: p in s.writer && q in s.writer ==> p == q)
    && (s.writer != {} ==> Readers(s) == {})
  }

  ghost predicate DataInv(s: State) {
    && s.epochs != []
    && |Published(s)| == |s.dbs|
    && (forall p :: p in s.procs ==> PhaseOk(s.procs[p], s.dbs, Published(s)))
    && (s.writer == {} ==> s.dbs == Published(s))
  }

  ghost predicate HistoryInv(s: State) {
    && (forall v :: v in s.views ==> v in s.epochs)
    && Chain(s.epochs, s.installed)
    && s.begun == s.generation + |InFlight(s)|
  }

  ghost predicate Inv(s: State) {
    LockInv(s) && DataInv(s) && HistoryInv(s)
  }

  lemma StepKeepsLock(s: State, step: Step)
    requires LockInv(s)
    ensures LockInv(Next(s, step))
  {
    hide Next, Enabled;
    if Enabled(s, step) {
      StepMoves(s, step);
    } else {
      assert Next(s, step) == s by { Stutters(s, step); }
    }
  }

  lemma Stutters(s: State, step: Step)
    requires !Enabled(s, step)
    ensures Next(s, step) == s
  {
  }

  predicate Writing(at: Phase) { at.Installing? || at.RollingBack? }

  /** What a step can do to the lock: taken by a free process, given up by its holder, or left alone. */
  lemma StepMoves(s: State, step: Step)
    requires Enabled(s, step)
    ensures var t, p := Next(s, step), step.p;
      && t.procs.Keys == s.procs.Keys + {p}
      && (forall q :: q in s.procs && q != p ==> t.procs[q] == s.procs[q])
      && (step.Lock? ==> s.writer == {} && Readers(s) == {} && t.writer == {p} && Writing(t.procs[p]))
      && (step.Commit? || step.Unlock? ==> Writing(At(s, p)) && t.writer == {} && !Writing(t.procs[p]) && !t.procs[p].Reading?)
      && (!step.Lock? && !step.Commit? && !step.Unlock? ==> t.writer == s.writer && Writing(t.procs[p]) == Writing(At(s, p)))
      && (t.procs[p].Reading? ==> s.writer == {} || At(s, p).Reading?)
  {
  }

  lemma InstallOk(staged: Keyspaces, olds: Keyspaces, dbs: Keyspaces, published: Keyspaces)
    requires |dbs| == |published| && |olds| < |staged| && PhaseOk(Installing(staged, olds), dbs, published)
    ensures PhaseOk(Installing(staged, olds + [dbs[|olds|]]), dbs[|olds| := staged[|olds|]], published)
  {
    assert dbs[|olds|] == published[|olds|];
  }

  lemma RestoreOk(olds: Keyspaces, dbs: Keyspaces, published: Keyspaces)
    requires |dbs| == |published| && olds != [] && PhaseOk(RollingBack(olds), dbs, published)
    ensures var i := |olds| - 1; PhaseOk(RollingBack(olds[..i]), dbs[i := olds[i]], published)
  {
    var i := |olds| - 1;
    assert dbs[i := olds[i]][i..] == [olds[i]] + dbs[|olds|..] && published[i..] == [published[i]] + published[|olds|..];
  }

  lemma PanicOk(staged: Keyspaces, olds: Keyspaces, dbs: Keyspaces, published: Keyspaces)
    requires |dbs| == |published| && PhaseOk(Installing(staged, olds), dbs, published)
    ensures PhaseOk(RollingBack(olds), dbs, published)
  {
  }

  /** The phase of the process that moves stays right, and a free lock means published databases. */
  lemma ActorKeeps(s: State, step: Step)
    requires LockInv(s) && DataInv(s) && Enabled(s, step)
    ensures var t := Next(s, step);
      && t.epochs != [] && |Published(t)| == |t.dbs| && PhaseOk(At(t, step.p), t.dbs, Published(t))
      && (t.writer == {} ==> t.dbs == Published(t))
  {
    hide Chain, Readers, InFlight, PhaseOk;
    var at, published, p := At(s, step.p), Published(s), step.p;
    SimplePhasesOk(s.dbs, published);
    SimplePhasesOk(s.dbs, s.dbs);
    if p in s.procs { assert PhaseOk(at, s.dbs, published); }
    match step
    case Begin(_, source) => StagingOk(source, 0, s.dbs, published);
    case Stage(_) => StageOk(at.source, at.staged, s.dbs, published);
    case Lock(_) => LockOk(at.source, at.staged, s.dbs, published);
    case Install(_) => InstallOk(at.staged, at.olds, s.dbs, published);
    case Panic(_) => PanicOk(at.staged, at.olds, s.dbs, published);
    case Restore(_) => RestoreOk(at.olds, s.dbs, published);
    case Unlock(_) => UnlockOk(s.dbs, published);
    case Sample(_) =>
      ReaderExcludes(s, p);
      SampleOk(at.view, s.dbs);
    case _ =>
  }

  lemma SimplePhasesOk(dbs: Keyspaces, published: Keyspaces)
    requires |dbs| == |published|
    ensures PhaseOk(Idle, dbs, published) && PhaseOk(Finishing, dbs, published) && PhaseOk(Reading([]), dbs, published)
  {
  }

  lemma StagingOk(source: Keyspaces, n: nat, dbs: Keyspaces, published: Keyspaces)
    requires |dbs| == |published| && n <= Min(|dbs|, |source|)
    ensures PhaseOk(Staging(source, source[..n]), dbs, published) && source[..0] == []
  {
  }

  lemma StageOk(source: Keyspaces, staged: Keyspaces, dbs: Keyspaces, published: Keyspaces)
    requires |dbs| == |published| && |staged| < Min(|dbs|, |source|) && PhaseOk(Staging(source, staged), dbs, published)
    ensures PhaseOk(Staging(source, staged + [source[|staged|]]), dbs, published)
  {
    assert source[..|staged| + 1] == staged + [source[|staged|]];
  }

  lemma LockOk(source: Keyspaces, staged: Keyspaces, dbs: Keyspaces, published: Keyspaces)
    requires dbs == published && PhaseOk(Staging(source, staged), dbs, published)
    ensures PhaseOk(Installing(staged, []), dbs, published)
  {
    assert staged[..0] + published[0..] == dbs;
  }

  lemma UnlockOk(dbs: Keyspaces, published: Keyspaces)
    requires |dbs| == |published| && PhaseOk(RollingBack([]), dbs, published)
    ensures dbs == published
  {
    assert dbs[0..] == dbs && published[0..] == published;
  }

  lemma SampleOk(view: Keyspaces, dbs: Keyspaces)
    requires |view| < |dbs| && PhaseOk(Reading(view), dbs, dbs)
    ensures PhaseOk(Reading(view + [dbs[|view|]]), dbs, dbs)
  {
  }

  lemma StepKeepsData(s: State, step: Step)
    requires LockInv(s) && DataInv(s)
    ensures DataInv(Next(s, step))
  {
    hide Next, Enabled, PhaseOk, Readers;
    if Enabled(s, step) {
      StepMoves(s, step);
      ActorKeeps(s, step);
      OthersKeep(s, step);
    } else {
      Stutters(s, step);
    }
  }

  lemma ReaderExcludes(s: State, p: Pid)
    requires LockInv(s) && At(s, p).Reading?
    ensures s.writer == {}
  {
    assert p in Readers(s);
  }

  lemma OthersKeep(s: State, step: Step)
    requires LockInv(s) && DataInv(s) && Enabled(s, step)
    ensures var t := Next(s, step); t.epochs != [] && |Published(t)| == |t.dbs|
    ensures var t := Next(s, step); forall q :: q in s.procs && q != step.p ==> PhaseOk(s.procs[q], t.dbs, Published(t))
  {
    var t, p := Next(s, step), step.p;
    forall q | q in s.procs && q != p ensures PhaseOk(s.procs[q], t.dbs, Published(t)) {
      assert PhaseOk(s.procs[q], s.dbs, Published(s));
      if step.Install? || step.Restore? || step.Commit? {
        assert p in s.writer;
        assert q !in Readers(s) && q !in s.writer;
      }
    }
  }

  lemma StepKeepsHistory(s: State, step: Step)
    requires Inv(s)
    ensures HistoryInv(Next(s, step))
  {
    hide PhaseOk, LockInv;
    var at, t, p := At(s, step.p), Next(s, step), step.p;
    if Enabled(s, step) {
      InFlightStep(s, step);
      if step.EndRead? || step.Commit? { HeldOk(s, p); }
      if step.EndRead? {
        assert Published(s) in s.epochs;
      } else if step.Commit? {
        assert forall v :: v in s.epochs ==> v in t.epochs;
      }
    }
  }

  lemma HeldOk(s: State, p: Pid)
    requires Inv(s) && p in s.procs
    ensures s.procs[p].Reading? && |s.procs[p].view| >= |s.dbs| ==> s.procs[p].view == Published(s)
    ensures s.procs[p].Installing? && |s.procs[p].olds| >= |s.procs[p].staged| ==>
      |s.procs[p].staged| <= |Published(s)| && s.dbs == s.procs[p].staged + Published(s)[|s.procs[p].staged|..]
  {
    var at := s.procs[p];
    assert PhaseOk(at, s.dbs, Published(s));
    if at.Installing? && |at.olds| >= |at.staged| { assert at.staged[..|at.staged|] == at.staged; }
    if at.Reading? && |at.view| >= |s.dbs| { assert Published(s)[..|at.view|] == Published(s); }
  }

  lemma InFlightStep(s: State, step: Step)
    requires Enabled(s, step)
    ensures InFlight(Next(s, step)) ==
      if step.Begin? then InFlight(s) + {step.p} else if step.Finish? then InFlight(s) - {step.p} else InFlight(s)
    ensures step.Begin? ==> step.p !in InFlight(s)
    ensures step.Finish? ==> step.p in InFlight(s)
  {
    var t := Next(s, step);
    assert forall q :: q != step.p ==> (q in InFlight(t) <==> q in InFlight(s));
  }

  // ----- whole runs ------------------------------------------------------------------------------------

  lemma {:induction false} RunKeepsInv(s: State, steps: seq<Step>)
    requires Inv(s)
    ensures Inv(Run(s, steps))
    decreases |steps|
  {
    hide LockInv, DataInv, HistoryInv, Next;
    if steps != [] {
      var before := Run(s, steps[..|steps| - 1]);
      RunKeepsInv(s, steps[..|steps| - 1]);
      StepKeepsLock(before, steps[|steps| - 1]);
      StepKeepsData(before, steps[|steps| - 1]);
      StepKeepsHistory(before, steps[|steps| - 1]);
    }
  }

  /** In every run, what a reader took away under the lock is one published epoch, never a mix: an
      epoch is a replacement's databases over the rest of the epoch before, all of them at once. And
      each attempt that is over has raised the generation once. */
  lemma ReadersSeeOneEpoch(dbs: Keyspaces, steps: seq<Step>)
    ensures var s := Run(Start(dbs), steps);
      && (forall v :: v in s.views ==> v in s.epochs)
      && Chain(s.epochs, s.installed) && s.epochs[0] == dbs
      && s.begun == s.generation + |InFlight(s)|
  {
    RunKeepsInv(Start(dbs), steps);
    FirstEpochStays(Start(dbs), steps);
  }

  lemma {:induction false} FirstEpochStays(s: State, steps: seq<Step>)
    requires s.epochs != []
    ensures Run(s, steps).epochs != [] && Run(s, steps).epochs[0] == s.epochs[0]
    decreases |steps|
  {
    if steps != [] { FirstEpochStays(s, steps[..|steps| - 1]); }
  }

  /** If nothing commits, then whatever else happened (any number of attempts that panicked while
      staging or after any number of installs, and rolled back), once the lock is free the databases
      are as they were when it was last free. */
  lemma PanicLeavesTargets(s: State, steps: seq<Step>)
    requires Inv(s) && s.writer == {} && Run(s, steps).writer == {}
    requires forall i :: 0 <= i < |steps| ==> !steps[i].Commit?
    ensures Run(s, steps).dbs == s.dbs
  {
    RunKeepsInv(s, steps);
    NoCommitNoEpoch(s, steps);
  }

  lemma {:induction false} NoCommitNoEpoch(s: State, steps: seq<Step>)
    requires forall i :: 0 <= i < |steps| ==> !steps[i].Commit?
    ensures Run(s, steps).epochs == s.epochs
    decreases |steps|
  {
    if steps != [] { NoCommitNoEpoch(s, steps[..|steps| - 1]); }
  }

  // ----- where installed databases come from -------------------------------------------------------------

  ghost predicate Begun(steps: seq<Step>, source: Keyspaces) {
    exists i :: 0 <= i < |steps| && steps[i].Begin? && steps[i].source == source
  }

  /** All the databases that a replacement begun in these steps has for `n` targets. */
  ghost predicate WholeOf(staged: Keyspaces, steps: seq<Step>, n: nat) {
    exists source :: Begun(steps, source) && staged == source[..Min(n, |source|)]
  }

  ghost predicate Sourced(at: Phase, steps: seq<Step>, n: nat) {
    match at
    case Staging(source, staged) => Begun(steps, source) && |staged| <= Min(n, |source|) && staged == source[..|staged|]
    case Installing(staged, _) => WholeOf(staged, steps, n)
    case _ => true
  }

  ghost predicate AllSourced(s: State, steps: seq<Step>, n: nat) {
    && |s.dbs| == n
    && (forall p :: p in s.procs ==> Sourced(s.procs[p], steps, n))
    && (forall staged :: staged in s.installed ==> WholeOf(staged, steps, n))
  }

  lemma SourcedMore(steps: seq<Step>, step: Step, n: nat)
    ensures forall source :: Begun(steps, source) ==> Begun(steps + [step], source)
    ensures step.Begin? ==> Begun(steps + [step], step.source)
    ensures forall staged :: WholeOf(staged, steps, n) ==> WholeOf(staged, steps + [step], n)
    ensures forall at :: Sourced(at, steps, n) ==> Sourced(at, steps + [step], n)
  {
    var more := steps + [step];
    forall source | Begun(steps, source) ensures Begun(more, source) {
      var i :| 0 <= i < |steps| && steps[i].Begin? && steps[i].source == source;
      assert more[i] == steps[i];
    }
    if step.Begin? { assert more[|steps|] == step; }
  }

  lemma ActorSourced(s: State, step: Step, steps: seq<Step>, n: nat)
    requires AllSourced(s, steps, n) && Enabled(s, step) && (step.Begin? ==> Begun(steps, step.source))
    ensures Sourced(At(Next(s, step), step.p), steps, n)
  {
    var at := At(s, step.p);
    if step.p in s.procs { assert Sourced(at, steps, n); }
    if step.Stage? {
      assert at.source[..|at.staged| + 1] == at.staged + [at.source[|at.staged|]];
    } else if step.Lock? {
      assert WholeOf(at.staged, steps, n);
    }
  }

  lemma InstalledSourced(s: State, step: Step, steps: seq<Step>, n: nat)
    requires AllSourced(s, steps, n) && Enabled(s, step)
    ensures forall staged :: staged in Next(s, step).installed ==> WholeOf(staged, steps, n)
    ensures |Next(s, step).dbs| == n
  {
    hide WholeOf;
    if step.Commit? { assert Sourced(At(s, step.p), steps, n); }
  }

  /** In every run, what a replacement installs is all of what it began with, one database for each
      target both sides have. */
  lemma {:induction false} InstalledWhole(dbs: Keyspaces, steps: seq<Step>)
    ensures AllSourced(Run(Start(dbs), steps), steps, |dbs|)
    decreases |steps|
  {
    hide Next, Enabled, Sourced, WholeOf, Begun;
    if steps != [] {
      var init, last := steps[..|steps| - 1], steps[|steps| - 1];
      InstalledWhole(dbs, init);
      SourcedMore(init, last, |dbs|);
      assert steps == init + [last];
      var s := Run(Start(dbs), init);
      if Enabled(s, last) {
        StepMoves(s, last);
        ActorSourced(s, last, steps, |dbs|);
        InstalledSourced(s, last, steps, |dbs|);
      } else {
        Stutters(s, last);
      }
    }
  }

  // ----- the load flag ---------------------------------------------------------------------------------

  /** The flag says whether a replacement is running. */
  predicate FlagRight(s: State) {
    s.loading <==> InFlight(s) != {}
  }

  /** It is documented to be true throughout every replacement. A step keeps it right exactly unless
      it ends one replacement while another is running: that one runs on with the flag down. */
  lemma FlagStepIff(s: State, step: Step)
    requires FlagRight(s)
    ensures FlagRight(Next(s, step)) <==> !(step.Finish? && Enabled(s, step) && exists q :: q != step.p && q in InFlight(s))
  {
    if Enabled(s, step) {
      InFlightStep(s, step);
      if step.Finish? {
        var others := InFlight(s) - {step.p};
        if q :| q != step.p && q in InFlight(s) { assert q in others; }
        if others != {} {
          var q :| q in others;
          assert q != step.p && q in InFlight(s);
        }
      } else if step.Begin? {
        assert step.p in InFlight(Next(s, step));
      }
    }
  }

  /** One replacement ends while another is running. */
  predicate EndsEarly(s: State, step: Step) {
    step.Finish? && At(s, step.p).Finishing? && exists q :: q != step.p && q in InFlight(s)
  }

  /** So the flag is right throughout a run exactly when no replacement in it ends while another runs. */
  lemma {:induction false} FlagRunIff(dbs: Keyspaces, steps: seq<Step>)
    ensures (forall k :: 0 <= k <= |steps| ==> FlagRight(Run(Start(dbs), steps[..k]))) <==>
      forall k :: 0 <= k < |steps| ==> !EndsEarly(Run(Start(dbs), steps[..k]), steps[k])
    decreases |steps|
  {
    hide FlagRight, EndsEarly, Run, Next, Enabled;
    var start := Start(dbs);
    FlagStarts(dbs);
    assert steps[..0] == [];
    if steps != [] {
      var n := |steps| - 1;
      var init := steps[..n];
      FlagRunIff(dbs, init);
      assert forall k :: 0 <= k <= n ==> init[..k] == steps[..k];
      assert init[..n] == steps[..n] && steps[..n + 1] == steps;
      RunLast(start, steps);
      assert forall k :: 0 <= k < n ==> init[k] == steps[k];
      if FlagRight(Run(start, init)) { FlagStepIff(Run(start, init), steps[n]); EarlyIff(Run(start, init), steps[n]); }
    }
  }

  lemma EarlyIff(s: State, step: Step)
    ensures EndsEarly(s, step) <==> step.Finish? && Enabled(s, step) && exists q :: q != step.p && q in InFlight(s)
  {
  }

  lemma FlagStarts(dbs: Keyspaces)
    ensures FlagRight(Run(Start(dbs), []))
  {
  }

  lemma RunLast(s: State, steps: seq<Step>)
    requires steps != []
    ensures Run(s, steps) == Next(Run(s, steps[..|steps| - 1]), steps[|steps| - 1])
  {
    hide Next;
  }

  /** Two overlapping replacements: the second is still running when the first lowers the flag. */
  lemma OverlapLowersFlag(a: Keyspaces, b: Keyspaces, c: Keyspaces)
    ensures var s := Next(Next(Next(Next(Start(a), Begin(1, b)), Begin(2, c)), StagePanic(1)), Finish(1));
      2 in InFlight(s) && !s.loading
  {
    var s := Next(Start(a), Begin(1, b));
    assert s.procs == map[1 := Staging(b, [])];
    s := Next(s, Begin(2, c));
    assert At(s, 1) == Staging(b, []);
  }

  // ----- one replacement on its own ----------------------------------------------------------------------

  function Times(step: Step, n: nat): seq<Step> { seq(n, _ => step) }

  lemma {:induction false} RunConcat(s: State, a: seq<Step>, b: seq<Step>)
    ensures Run(s, a + b) == Run(Run(s, a), b)
    decreases |b|
  {
    hide Next;
    if b == [] {
      assert a + b == a;
    } else {
      RunConcat(s, a, b[..|b| - 1]);
      assert (a + b)[..|a + b| - 1] == a + b[..|b| - 1];
    }
  }

  lemma RunOne(s: State, step: Step)
    ensures Run(s, [step]) == Next(s, step)
  {
    hide Next;
    assert [step][..0] == [] && Run(s, []) == s;
  }

  lemma {:induction false} Stages(s: State, p: Pid, n: nat)
    requires p in s.procs && s.procs[p].Staging? && s.procs[p].staged == []
    requires n <= Min(|s.dbs|, |s.procs[p].source|)
    ensures Run(s, Times(Stage(p), n)) == s.(procs := s.procs[p := Staging(s.procs[p].source, s.procs[p].source[..n])])
  {
    var source := s.procs[p].source;
    if n == 0 {
      assert s.procs[p := Staging(source, source[..0])] == s.procs;
    } else {
      Stages(s, p, n - 1);
      assert Times(Stage(p), n)[..n - 1] == Times(Stage(p), n - 1);
      assert source[..n - 1] + [source[n - 1]] == source[..n];
    }
  }

  lemma {:induction false} Installs(s: State, p: Pid, n: nat)
    requires p in s.procs && s.procs[p].Installing? && s.procs[p].olds == []
    requires n <= |s.procs[p].staged| <= |s.dbs|
    ensures Run(s, Times(Install(p), n)) ==
      s.(dbs := s.procs[p].staged[..n] + s.dbs[n..], procs := s.procs[p := Installing(s.procs[p].staged, s.dbs[..n])])
  {
    hide Next, Enabled;
    var staged := s.procs[p].staged;
    if n == 0 {
      assert s.procs[p := Installing(staged, s.dbs[..0])] == s.procs && staged[..0] + s.dbs[0..] == s.dbs;
    } else {
      Installs(s, p, n - 1);
      assert Times(Install(p), n)[..n - 1] == Times(Install(p), n - 1);
      InstallNext(Run(s, Times(Install(p), n - 1)), p, staged, s.dbs[..n - 1]);
      InstalledPrefix(staged, s.dbs, n - 1);
    }
  }

  lemma InstallNext(s: State, p: Pid, staged: Keyspaces, olds: Keyspaces)
    requires p in s.procs && s.procs[p] == Installing(staged, olds) && |olds| < |staged| && |olds| < |s.dbs|
    ensures Next(s, Install(p)) ==
      s.(dbs := s.dbs[|olds| := staged[|olds|]], procs := s.procs[p := Installing(staged, olds + [s.dbs[|olds|]])])
  {
  }

  lemma InstalledPrefix(staged: Keyspaces, dbs: Keyspaces, i: nat)
    requires i < |staged| <= |dbs|
    ensures (staged[..i] + dbs[i..])[i := staged[i]] == staged[..i + 1] + dbs[i + 1..]
    ensures dbs[..i] + [(staged[..i] + dbs[i..])[i]] == dbs[..i + 1]
  {
  }

  /** The steps up to the lock, alone. */
  function Prelude(source: Keyspaces, p: Pid, n: nat): seq<Step> {
    [Begin(p, source)] + Times(Stage(p), n) + [Lock(p)]
  }

  lemma SoloPrelude(dbs: Keyspaces, source: Keyspaces, p: Pid)
    ensures var n := Min(|dbs|, |source|);
      Run(Start(dbs), Prelude(source, p, n)) ==
      State(dbs, 0, true, {p}, map[p := Installing(source[..n], [])], [dbs], [], [], 1)
  {
    hide Next, Enabled, Run, Times;
    var n, s0 := Min(|dbs|, |source|), Start(dbs);
    var stages := Times(Stage(p), n);
    var s1 := Next(s0, Begin(p, source));
    SoloBegin(dbs, source, p);
    RunOne(s0, Begin(p, source));
    Stages(s1, p, n);
    var s2 := Run(s1, stages);
    RunConcat(s0, [Begin(p, source)], stages);
    SoloLock(dbs, source, p, n, s2);
    RunOne(s2, Lock(p));
    RunConcat(s0, [Begin(p, source)] + stages, [Lock(p)]);
  }

  lemma SoloBegin(dbs: Keyspaces, source: Keyspaces, p: Pid)
    ensures Next(Start(dbs), Begin(p, source)) == State(dbs, 0, true, {}, map[p := Staging(source, [])], [dbs], [], [], 1)
  {
  }

  lemma SoloLock(dbs: Keyspaces, source: Keyspaces, p: Pid, n: nat, s: State)
    requires n == Min(|dbs|, |source|)
    requires s == State(dbs, 0, true, {}, map[p := Staging(source, [])][p := Staging(source, source[..n])], [dbs], [], [], 1)
    ensures Next(s, Lock(p)) == State(dbs, 0, true, {p}, map[p := Installing(source[..n], [])], [dbs], [], [], 1)
  {
    assert Readers(s) == {};
    assert s.procs[p := Installing(source[..n], [])] == map[p := Installing(source[..n], [])];
  }

  /** The machine is not idle: a replacement running alone gets through all its steps, and leaves what
      the one-threaded operation leaves. */
  lemma SoloReplace(dbs: Keyspaces, source: Keyspaces, p: Pid)
    ensures var n := Min(|dbs|, |source|);
      var s := Run(Start(dbs), Prelude(source, p, n) + Times(Install(p), n) + [Commit(p)] + [Finish(p)]);
      s.dbs == source[..n] + dbs[n..] && s.generation == 1 && !s.loading && s.epochs == [dbs, s.dbs]
  {
    hide Next, Enabled, Prelude, Times, Run;
    var n, s0 := Min(|dbs|, |source|), Start(dbs);
    var prelude, installs := Prelude(source, p, n), Times(Install(p), n);
    SoloPrelude(dbs, source, p);
    var s3 := Run(s0, prelude);
    Installs(s3, p, n);
    RunConcat(s0, prelude, installs);
    assert source[..n][..n] == source[..n];
    SoloEnd(Run(s3, installs), p);
    RunConcat(s0, prelude + installs, [Commit(p)]);
    RunConcat(s0, prelude + installs + [Commit(p)], [Finish(p)]);
  }

  lemma {:induction false} Restores(s: State, p: Pid, n: nat)
    requires p in s.procs && s.procs[p].RollingBack? && n <= |s.procs[p].olds| <= |s.dbs|
    ensures var olds := s.procs[p].olds; var k := |olds| - n;
      Run(s, Times(Restore(p), n)) ==
      s.(dbs := s.dbs[..k] + olds[k..] + s.dbs[|olds|..], procs := s.procs[p := RollingBack(olds[..k])])
  {
    hide Next, Enabled;
    var olds := s.procs[p].olds;
    var k := |olds| - n;
    if n == 0 {
      assert olds[..k] == olds && s.procs[p := RollingBack(olds)] == s.procs;
      assert s.dbs[..k] + olds[k..] + s.dbs[|olds|..] == s.dbs;
    } else {
      Restores(s, p, n - 1);
      assert Times(Restore(p), n)[..n - 1] == Times(Restore(p), n - 1);
      RestoreNext(Run(s, Times(Restore(p), n - 1)), p, olds[..k + 1]);
      RestoredSuffix(olds, s.dbs, k);
    }
  }

  lemma RestoreNext(s: State, p: Pid, olds: Keyspaces)
    requires p in s.procs && s.procs[p] == RollingBack(olds) && 0 < |olds| <= |s.dbs|
    ensures var i := |olds| - 1;
      Next(s, Restore(p)) == s.(dbs := s.dbs[i := olds[i]], procs := s.procs[p := RollingBack(olds[..i])])
  {
  }

  lemma RestoredSuffix(olds: Keyspaces, dbs: Keyspaces, k: nat)
    requires k < |olds| <= |dbs|
    ensures (dbs[..k + 1] + olds[k + 1..] + dbs[|olds|..])[k := olds[k]] == dbs[..k] + olds[k..] + dbs[|olds|..]
    ensures olds[..k + 1][..k] == olds[..k]
  {
  }

  /** Nor does a panic stop it: after any number of installs a replacement running alone can panic, roll
      back step by step and end, with every database as it was. */
  lemma SoloPanic(dbs: Keyspaces, source: Keyspaces, p: Pid, k: nat)
    requires k <= Min(|dbs|, |source|)
    ensures var n := Min(|dbs|, |source|);
      var s := Run(Start(dbs), Prelude(source, p, n) + Times(Install(p), k) + [Panic(p)] + Times(Restore(p), k) + [Unlock(p)] + [Finish(p)]);
      s.dbs == dbs && s.generation == 1 && !s.loading && s.writer == {} && s.epochs == [dbs]
  {
    hide Next, Enabled, Prelude, Times, Run;
    var n, s0 := Min(|dbs|, |source|), Start(dbs);
    var prelude, installs, restores := Prelude(source, p, n), Times(Install(p), k), Times(Restore(p), k);
    SoloPrelude(dbs, source, p);
    var s3 := Run(s0, prelude);
    Installs(s3, p, k);
    RunConcat(s0, prelude, installs);
    var s4 := Run(s3, installs);
    PanicNext(s4, p);
    RunOne(s4, Panic(p));
    RunConcat(s0, prelude + installs, [Panic(p)]);
    var s5 := Next(s4, Panic(p));
    Restores(s5, p, k);
    RunConcat(s0, prelude + installs + [Panic(p)], restores);
    RolledBack(source[..n], dbs, k);
    PanicEnd(Run(s5, restores), p);
    RunConcat(s0, prelude + installs + [Panic(p)] + restores, [Unlock(p)]);
    RunConcat(s0, prelude + installs + [Panic(p)] + restores + [Unlock(p)], [Finish(p)]);
  }

  lemma PanicNext(s: State, p: Pid)
    requires p in s.procs && s.procs[p].Installing?
    ensures Next(s, Panic(p)) == s.(procs := s.procs[p := RollingBack(s.procs[p].olds)])
  {
  }

  lemma RolledBack(staged: Keyspaces, dbs: Keyspaces, k: nat)
    requires k <= |staged| <= |dbs|
    ensures var now := staged[..k] + dbs[k..]; now[..0] + dbs[..k][0..] + now[k..] == dbs && dbs[..k][..0] == []
  {
  }

  lemma PanicEnd(s: State, p: Pid)
    requires p in s.procs && s.procs[p] == RollingBack([])
    ensures var t := Run(Run(s, [Unlock(p)]), [Finish(p)]);
      t.dbs == s.dbs && t.generation == s.generation + 1 && !t.loading && t.writer == {} && t.epochs == s.epochs
  {
    RunOne(s, Unlock(p));
    RunOne(Next(s, Unlock(p)), Finish(p));
  }

  lemma SoloEnd(s: State, p: Pid)
    requires p in s.procs && s.procs[p].Installing? && |s.procs[p].olds| == |s.procs[p].staged|
    ensures var t := Run(Run(s, [Commit(p)]), [Finish(p)]);
      t.dbs == s.dbs && t.generation == s.generation + 1 && !t.loading && t.epochs == s.epochs + [s.dbs]
  {
    RunOne(s, Commit(p));
    RunOne(Next(s, Commit(p)), Finish(p));
  }
}
