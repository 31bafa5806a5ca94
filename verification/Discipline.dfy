/** The order of operations within one invocation: secrets are read only after the check
    of the file, the state file is replaced only by a file that was made owner-only,
    completely written, synced and closed, and no temporary file is forgotten. */
module Discipline {
  import opened Text
  import opened World
  import opened Agent
  import opened Runs
  import StateCodec
  import Endpoints

  /** `x` found a regular file at `path` that is its owner's alone. */
  predicate FoundSecret(x: Action, path: Path) {
    x.op == Lstat(path) && x.answer.Info? && x.answer.info.kind == RegularFile && !Shared(x.answer.info)
  }

  predicate FoundDirectory(x: Action, path: Path) {
    x.op == Lstat(path) && x.answer.Info? && x.answer.info.kind == ADirectory && !Shared(x.answer.info)
  }

  /** The five steps that make a temporary file ready, in order. */
  predicate Readies(o: Options, temp: Path, step: nat, x: Action) {
    match step
    case 0 => x.op == CreateTemp(o.stateDirectory) && x.answer.Temp? && x.answer.path == temp
    case 1 => x == Action(Chmod(temp), Done)
    case 2 => x.op.Encode? && x.op.path == temp && x.answer.Done?
    case 3 => x == Action(Fsync(temp), Done)
    case _ => x == Action(Close(temp), Done)
  }

  /** The last `k` operations were the first `k` of these steps. */
  predicate Readied(o: Options, trace: seq<Action>, temp: Path, k: nat) {
    var start := |trace| - k;
    start >= 0 && forall i :: start <= i < |trace| ==> Readies(o, temp, i - start, trace[i])
  }

  /** Whether `op` may follow `past`. */
  predicate Allowed(o: Options, past: seq<Action>, op: Op) {
    var n := |past|;
    match op
    case ReadFile(path) =>
      path in {o.stateFile, o.tokenFile} ==> n > 0 && FoundSecret(past[n - 1], path)
    case CreateTemp(directory) => n > 0 && FoundDirectory(past[n - 1], directory)
    case Rename(temp, target) => target == o.stateFile && Readied(o, past, temp, 5)
    case _ => true
  }

  predicate Orderly(o: Options, trace: seq<Action>) {
    forall i :: 0 <= i < |trace| ==> Allowed(o, trace[..i], trace[i].op)
  }

  /** Temporary files that were made and neither installed nor attempted to be removed. */
  function Owed(trace: seq<Action>): set<Path> {
    if trace == [] then {}
    else
      var n := |trace| - 1;
      AfterAction(Owed(trace[..n]), trace[n])
  }

  function AfterAction(owed: set<Path>, x: Action): set<Path> {
    match x.op
    case CreateTemp(_) => if x.answer.Temp? then owed + {x.answer.path} else owed
    case Rename(source, _) => if x.answer.Done? then owed - {source} else owed
    case Remove(path) => owed - {path}
    case _ => owed
  }

  lemma OrderlySnoc(o: Options, trace: seq<Action>, x: Action)
    requires Orderly(o, trace) && Allowed(o, trace, x.op)
    ensures Orderly(o, trace + [x])
    ensures Owed(trace + [x]) == AfterAction(Owed(trace), x)
  {
    hide Allowed, AfterAction;
    var more := trace + [x];
    assert more[..|trace|] == trace;
    forall i | 0 <= i < |more| ensures Allowed(o, more[..i], more[i].op) {
      if i < |trace| {
        assert more[..i] == trace[..i];
      }
    }
  }

  lemma ReadiedSnoc(o: Options, trace: seq<Action>, temp: Path, k: nat, x: Action)
    requires Readied(o, trace, temp, k) && Readies(o, temp, k, x)
    ensures Readied(o, trace + [x], temp, k + 1)
  {
    hide Readies;
    var more := trace + [x];
    var start := |trace| - k;
    forall i | start <= i < |more| ensures Readies(o, temp, i - start, more[i]) {
      if i < |trace| {
        assert more[i] == trace[i];
      }
    }
  }

  /** How far the temporary file of an invocation has come. */
  function Stage(pc: Pc): nat {
    match pc
    case ChmodTemp(_, _) => 1
    case EncodeTemp(_, _) => 2
    case SyncTemp(_, _) => 3
    case CloseTemp(_, _) => 4
    case RenameTemp(_, _) => 5
    case _ => 0
  }

  /** What was just done, where it matters. */
  predicate JustDone(o: Options, trace: seq<Action>, pc: Pc) {
    var n := |trace|;
    && (pc.ReadState? ==> n > 0 && FoundSecret(trace[n - 1], o.stateFile))
    && (pc.ReadToken? ==> n > 0 && FoundSecret(trace[n - 1], o.tokenFile))
    && (pc.MakeTemp? ==> n > 0 && FoundDirectory(trace[n - 1], o.stateDirectory))
    && (Stage(pc) > 0 ==> Readied(o, trace, Held(pc).value, Stage(pc)))
  }

  function HeldBy(pc: Pc): set<Path> {
    if Held(pc).Some? then {Held(pc).value} else {}
  }

  predicate Kept(o: Options, p: Proc) {
    Orderly(o, p.trace) && Owed(p.trace) == HeldBy(p.pc) && JustDone(o, p.trace, p.pc)
  }

  /** What an invocation wants is allowed where it stands. */
  lemma WantsAllowed(o: Options, p: Proc, op: Op)
    requires WellConfigured(o) && JustDone(o, p.trace, p.pc) && Wants(o, p) == Some(op)
    ensures Allowed(o, p.trace, op)
  {
    hide Readied, FoundSecret, FoundDirectory, StateCodec.Encode, Endpoints.NodeEndpoint;
  }

  lemma OwedNext(o: Options, w: World, p: Proc, op: Op, a: Answer)
    requires Wants(o, p) == Some(op) && Possible(Reserved(o), w, op, a)
    requires Storing(p.pc) || p.pc.AbandonClose? || p.pc.AbandonRemove?
    ensures AfterAction(HeldBy(p.pc), Action(op, a)) == HeldBy(Next(o, p, a).pc)
  {
    hide NextLoading, NextEnrolling, NextReporting, RegistrationRequest, HeartbeatRequest;
    hide DesiredRequest, DirectoryError, StateCodec.Encode;
  }

  lemma OwedElsewhere(o: Options, p: Proc, op: Op, a: Answer)
    requires Wants(o, p) == Some(op)
    requires !Storing(p.pc) && !p.pc.AbandonClose? && !p.pc.AbandonRemove?
    ensures AfterAction({}, Action(op, a)) == HeldBy(Next(o, p, a).pc) && HeldBy(p.pc) == {}
  {
    hide Next, Endpoints.NodeEndpoint;
    HeldNever(o, p, a);
  }

  predicate Enrolling(pc: Pc) {
    pc.InspectState? || pc.ReadState? || pc.ReadMachineId? || pc.InspectToken? || pc.ReadToken?
  }

  /** The operations whose order matters, by where an invocation stands. */
  predicate Performs(o: Options, pc: Pc, op: Op) {
    match pc
    case InspectState => op == Lstat(o.stateFile)
    case InspectToken(_) => op == Lstat(o.tokenFile)
    case InspectDirectory(_) => op == Lstat(o.stateDirectory)
    case MakeTemp(_) => op == CreateTemp(o.stateDirectory)
    case ChmodTemp(_, temp) => op == Chmod(temp)
    case EncodeTemp(_, temp) => op.Encode? && op.path == temp
    case SyncTemp(_, temp) => op == Fsync(temp)
    case CloseTemp(_, temp) => op == Close(temp)
    case _ => true
  }

  lemma WantsPerforms(o: Options, p: Proc, op: Op)
    requires Wants(o, p) == Some(op)
    ensures Performs(o, p.pc, op)
  {
    hide RegistrationRequest, HeartbeatRequest, DesiredRequest, StateCodec.Encode;
  }

  lemma FoundNext(o: Options, p: Proc, op: Op, a: Answer)
    requires Performs(o, p.pc, op) && Enrolling(p.pc)
    ensures JustDone(o, p.trace + [Action(op, a)], Next(o, p, a).pc)
  {
    hide NextLoading, NextEnrolling, NextStoring, NextReporting, Readied, FoundSecret, FoundDirectory;
    var trace := p.trace + [Action(op, a)];
    assert trace[|trace| - 1] == Action(op, a);
    if InLoading(p.pc) {
      StateFound(o, p, op, a);
    } else {
      TokenFound(o, p, op, a);
    }
  }

  lemma StateFound(o: Options, p: Proc, op: Op, a: Answer)
    requires Performs(o, p.pc, op) && InLoading(p.pc)
    ensures var pc := NextLoading(p, a).pc;
            Plain(pc) || (pc.ReadState? && FoundSecret(Action(op, a), o.stateFile))
  {
    hide ParseState, ErrorText;
  }

  lemma TokenFound(o: Options, p: Proc, op: Op, a: Answer)
    requires Performs(o, p.pc, op) && (p.pc.ReadMachineId? || p.pc.InspectToken? || p.pc.ReadToken?)
    ensures var pc := NextEnrolling(o, p, a).pc;
            Plain(pc) || (pc.ReadToken? && FoundSecret(Action(op, a), o.tokenFile))
  {
    hide ParseToken, ParseGrant, Fingerprint, Sanitize, ErrorText;
  }

  /** Places where nothing just done matters. */
  predicate Plain(pc: Pc) {
    !pc.ReadState? && !pc.ReadToken? && !pc.MakeTemp? && Stage(pc) == 0
  }

  lemma NothingNext(o: Options, p: Proc, a: Answer, trace: seq<Action>)
    requires !Enrolling(p.pc) && !Storing(p.pc)
    ensures JustDone(o, trace, Next(o, p, a).pc)
  {
    hide Next, Readied, FoundSecret, FoundDirectory;
    if p.pc.RemoveToken? || Identified(p.pc) {
      DocumentKept(o, p, a);
    } else {
      PlainNext(o, p, a);
    }
  }

  lemma PlainNext(o: Options, p: Proc, a: Answer)
    requires p.pc.Register? || p.pc.AbandonClose? || p.pc.AbandonRemove? || p.pc.Finished?
    ensures Plain(Next(o, p, a).pc)
  {
    hide ParseState, ParseToken, ParseGrant, Fingerprint, SecretFileError, Sanitize, ErrorText;
  }

  lemma ReadiedNext(o: Options, p: Proc, op: Op, a: Answer)
    requires Performs(o, p.pc, op) && Storing(p.pc) && JustDone(o, p.trace, p.pc)
    ensures JustDone(o, p.trace + [Action(op, a)], Next(o, p, a).pc)
  {
    hide Readied, FoundSecret, FoundDirectory, Performs;
    hide NextLoading, NextEnrolling, NextStoring, NextReporting;
    var trace := p.trace + [Action(op, a)];
    assert trace[|trace| - 1] == Action(op, a);
    var next := NextStoring(p, a).pc;
    if Stage(next) > 0 {
      StageNext(o, p, op, a);
      ReadiedNothing(o, p.trace, Held(next).value);
      ReadiedSnoc(o, p.trace, Held(next).value, Stage(p.pc), Action(op, a));
    } else {
      DirectoryNext(o, p, op, a);
    }
  }

  lemma DirectoryNext(o: Options, p: Proc, op: Op, a: Answer)
    requires Performs(o, p.pc, op) && Storing(p.pc) && Stage(NextStoring(p, a).pc) == 0
    ensures var pc := NextStoring(p, a).pc;
            Plain(pc) || (pc.MakeTemp? && FoundDirectory(Action(op, a), o.stateDirectory))
  {
    hide ErrorText;
  }

  lemma StageNext(o: Options, p: Proc, op: Op, a: Answer)
    requires Performs(o, p.pc, op) && Storing(p.pc) && Stage(NextStoring(p, a).pc) > 0
    ensures var next := NextStoring(p, a).pc;
            && Stage(next) == Stage(p.pc) + 1
            && (Stage(p.pc) > 0 ==> Held(next) == Held(p.pc))
            && Held(next).Some? && Readies(o, Held(next).value, Stage(p.pc), Action(op, a))
  {
    hide DirectoryError, ErrorText;
  }

  lemma ReadiedNothing(o: Options, trace: seq<Action>, temp: Path)
    ensures Readied(o, trace, temp, 0)
  {
  }

  lemma StepKept(o: Options, w: World, p: Proc, op: Op, a: Answer)
    requires WellConfigured(o) && Kept(o, p) && Wants(o, p) == Some(op) && Possible(Reserved(o), w, op, a)
    ensures Kept(o, Advance(o, p, a))
  {
    hide Orderly, Owed, JustDone, HeldBy, AfterAction, Allowed, Wants, Next, Possible;
    var x := Action(op, a);
    WantsAllowed(o, p, op);
    WantsPerforms(o, p, op);
    OrderlySnoc(o, p.trace, x);
    if Storing(p.pc) {
      OwedNext(o, w, p, op, a);
      ReadiedNext(o, p, op, a);
    } else {
      if p.pc.AbandonClose? || p.pc.AbandonRemove? {
        OwedNext(o, w, p, op, a);
      } else {
        OwedElsewhere(o, p, op, a);
      }
      if Enrolling(p.pc) {
        FoundNext(o, p, op, a);
      } else {
        NothingNext(o, p, a, p.trace + [x]);
      }
    }
  }

  ghost predicate AllKept(o: Options, s: Sys) {
    forall pid :: pid in s.procs ==> Kept(o, s.procs[pid])
  }

  lemma EventKept(o: Options, s: Sys, e: Event)
    requires WellConfigured(o) && AllKept(o, s) && Enabled(o, s, e)
    ensures AllKept(o, After(o, s, e))
  {
    hide Kept, Advance, Possible, Apply, Wants;
    match e
    case Spawn(_, input) => StartKept(o, input);
    case Act(pid, a) => StepKept(o, s.world, s.procs[pid], Wants(o, s.procs[pid]).value, a);
    case End(_) =>
  }

  lemma StartKept(o: Options, input: Input)
    ensures Kept(o, Start(input))
  {
  }

  lemma {:induction false} EveryTraceKept(o: Options, s0: Sys, events: seq<Event>)
    requires WellConfigured(o) && s0.procs == map[] && Legal(o, s0, events)
    ensures AllKept(o, Run(o, s0, events))
    decreases |events|
  {
    hide Kept, Enabled, After;
    if events != [] {
      var n := |events| - 1;
      EveryTraceKept(o, s0, events[..n]);
      EventKept(o, Run(o, s0, events[..n]), events[n]);
    }
  }

  /** In any history, every invocation at every moment has kept the order of operations,
      and owes the removal of just the temporary file it is working on: of none, once it
      has finished. */
  lemma OperationsInOrder(o: Options, s0: Sys, events: seq<Event>, pid: nat)
    requires WellConfigured(o) && s0.procs == map[] && Legal(o, s0, events)
    requires pid in Run(o, s0, events).procs
    ensures var p := Run(o, s0, events).procs[pid];
            && Orderly(o, p.trace) && Owed(p.trace) == HeldBy(p.pc)
            && (p.pc.Finished? ==> Owed(p.trace) == {})
  {
    hide Orderly, Owed, JustDone, Legal, Run;
    EveryTraceKept(o, s0, events);
    assert Kept(o, Run(o, s0, events).procs[pid]);
  }
}
