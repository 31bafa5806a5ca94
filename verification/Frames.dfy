/** What invocations leave alone, and what they leave behind, over whole histories. */
module Frames {
  import opened Text
  import opened World
  import opened Agent
  import opened Runs
  import StateCodec

  /** Every path that was there is as it was, but for the token. */
  ghost predicate Untouched(o: Options, w0: World, w: World) {
    forall path :: path in w0.fs && path != o.tokenFile ==> SameAt(w0, w, path)
  }

  predicate Private(n: Node) { !Shared(InfoOf(n)) }

  /** Whatever is new is its owner's alone. */
  ghost predicate NewPrivate(w0: World, w: World) {
    forall path :: path in w.fs && path !in w0.fs ==> Private(w.fs[path])
  }

  ghost predicate HeldNew(w0: World, pc: Pc) {
    Held(pc).Some? ==> Held(pc).value !in w0.fs
  }

  ghost predicate Framed(o: Options, w0: World, s: Sys) {
    && Untouched(o, w0, s.world) && NewPrivate(w0, s.world)
    && forall pid :: pid in s.procs ==> HeldNew(w0, s.procs[pid].pc)
  }

  /** A touched path was not there to begin with, unless it is the token. */
  lemma TouchedIsNew(o: Options, w0: World, w: World, p: Proc, op: Op, a: Answer, path: Path)
    requires Acting(o, w0, w, p, op, a) && path in Touched(op, a)
    requires Untouched(o, w0, w) && HeldNew(w0, p.pc)
    ensures path in w0.fs ==> path == o.tokenFile
  {
    hide Possible, Touched, Wants, TempOk, FilesOk, Identity, Issued, TokenKnown;
    hide MachineKnown, SecretFileError;
    assert path in w0.fs && path != o.tokenFile ==> SameAt(w0, w, path);
    StepTouches(o, w0, w, p, op, a, path);
  }

  /** What an operation leaves at a path it touches is private if what it starts from is. */
  lemma AppliedPrivate(reserved: set<Path>, w: World, op: Op, a: Answer, path: Path)
    requires Possible(reserved, w, op, a) && path in Touched(op, a) && path in Apply(w, op, a).fs
    requires path in w.fs ==> Private(w.fs[path])
    requires op.Rename? && op.source in w.fs ==> Private(w.fs[op.source])
    ensures Private(Apply(w, op, a).fs[path])
  {
  }

  /** Only an invocation's own temporary file is renamed. */
  lemma RenamesHeld(o: Options, p: Proc, op: Op)
    requires Wants(o, p) == Some(op) && op.Rename?
    ensures Held(p.pc) == Some(op.source)
  {
    hide RegistrationRequest, HeartbeatRequest, DesiredRequest, StateCodec.Encode;
  }

  lemma StepPrivate(o: Options, w0: World, w: World, p: Proc, op: Op, a: Answer, path: Path)
    requires Acting(o, w0, w, p, op, a)
    requires Untouched(o, w0, w) && NewPrivate(w0, w) && HeldNew(w0, p.pc)
    requires path in Apply(w, op, a).fs && path !in w0.fs
    ensures Private(Apply(w, op, a).fs[path])
  {
    hide Wants, Possible, Apply, Touched, PcOk, FilesOk, Private;
    ApplyFrame(w, op, a);
    if path in Touched(op, a) {
      if op.Rename? {
        RenamesHeld(o, p, op);
      }
      AppliedPrivate(Reserved(o), w, op, a, path);
    } else {
      assert SameAt(w, Apply(w, op, a), path);
    }
  }

  lemma StepUntouched(o: Options, w0: World, w: World, p: Proc, op: Op, a: Answer)
    requires Acting(o, w0, w, p, op, a) && Untouched(o, w0, w) && HeldNew(w0, p.pc)
    ensures Untouched(o, w0, Apply(w, op, a))
  {
    hide Wants, Possible, Apply, Touched, PcOk, FilesOk;
    var w' := Apply(w, op, a);
    ApplyFrame(w, op, a);
    forall path | path in w0.fs && path != o.tokenFile ensures SameAt(w0, w', path) {
      if path in Touched(op, a) {
        TouchedIsNew(o, w0, w, p, op, a, path);
      }
      assert SameAt(w0, w, path) && SameAt(w, w', path);
    }
  }

  lemma StepHeldNew(o: Options, w0: World, w: World, p: Proc, op: Op, a: Answer)
    requires Acting(o, w0, w, p, op, a) && Untouched(o, w0, w) && HeldNew(w0, p.pc)
    ensures HeldNew(w0, Advance(o, p, a).pc)
  {
    hide Advance, PcOk, FilesOk, Wants;
    HeldNext(o, p, op, a);
    var h := Held(Advance(o, p, a).pc);
    if h.Some? && h != Held(p.pc) {
      MakesTemp(o, p, op);
      assert h.value in w0.fs ==> SameAt(w0, w, h.value);
    }
  }

  lemma MakesTemp(o: Options, p: Proc, op: Op)
    requires Wants(o, p) == Some(op) && p.pc.MakeTemp?
    ensures op.CreateTemp?
  {
    hide RegistrationRequest, HeartbeatRequest, DesiredRequest, StateCodec.Encode;
  }

  lemma EventFramed(o: Options, w0: World, s: Sys, e: Event)
    requires WellConfigured(o) && Inv(o, w0, s) && Framed(o, w0, s) && Enabled(o, s, e)
    ensures Framed(o, w0, After(o, s, e))
  {
    hide Untouched, NewPrivate, PcOk, FilesOk, RequestOk, Wants, Advance, Apply, Possible;
    match e
    case Spawn(_, input) => assert Held(Start(input).pc).None?;
    case Act(pid, a) =>
      var p := s.procs[pid];
      var op := Wants(o, p).value;
      assert Acting(o, w0, s.world, p, op, a);
      StepUntouched(o, w0, s.world, p, op, a);
      StepHeldNew(o, w0, s.world, p, op, a);
      StepNewPrivate(o, w0, s.world, p, op, a);
    case End(_) =>
  }

  lemma StepNewPrivate(o: Options, w0: World, w: World, p: Proc, op: Op, a: Answer)
    requires Acting(o, w0, w, p, op, a)
    requires Untouched(o, w0, w) && NewPrivate(w0, w) && HeldNew(w0, p.pc)
    ensures NewPrivate(w0, Apply(w, op, a))
  {
    hide Acting, Untouched, Apply, Private;
    forall path | path in Apply(w, op, a).fs && path !in w0.fs ensures Private(Apply(w, op, a).fs[path]) {
      StepPrivate(o, w0, w, p, op, a, path);
    }
  }

  lemma {:induction false} EveryHistoryFramed(o: Options, s0: Sys, events: seq<Event>)
    requires WellConfigured(o) && s0.procs == map[] && Legal(o, s0, events)
    ensures Framed(o, s0.world, Run(o, s0, events))
    decreases |events|
  {
    hide Inv, Enabled, After;
    if events != [] {
      var n := |events| - 1;
      EveryHistoryFramed(o, s0, events[..n]);
      Reachable(o, s0, events[..n]);
      EventFramed(o, s0.world, Run(o, s0, events[..n]), events[n]);
    }
  }

  /** No history changes anything that was there but the token, which it can only remove;
      and whatever it leaves that was not there, the files of killed invocations included,
      grants nothing to group or world. */
  lemma HistoryFrame(o: Options, s0: Sys, events: seq<Event>)
    requires WellConfigured(o) && s0.procs == map[] && Legal(o, s0, events)
    ensures var (w0, w) := (s0.world, Run(o, s0, events).world);
            && (forall path :: path in w0.fs && path != o.tokenFile ==> SameAt(w0, w, path))
            && (o.tokenFile in w.fs ==> SameAt(w0, w, o.tokenFile))
            && (forall path :: path in w.fs && path !in w0.fs ==> !Shared(InfoOf(w.fs[path])))
  {
    hide Stored, PcOk, RequestOk, Shared;
    EveryHistoryFramed(o, s0, events);
    Reachable(o, s0, events);
  }
}
