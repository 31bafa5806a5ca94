/** When a stored identity can still change although invocations overlap: not while none of
    them is registering, and always once one of them holds its temporary file. */
module Stability {
  import opened Text
  import opened World
  import opened Agent
  import opened Runs
  import opened Witnesses
  import StateCodec

  /** The identities of live invocations. */
  ghost predicate InUse(s: Sys, doc: StateDocument) {
    exists pid :: pid in s.procs && Identified(s.procs[pid].pc) && s.procs[pid].pc.doc == doc
  }

  /** No live invocation is registering. */
  ghost predicate NoneRegistering(s: Sys) {
    forall pid :: pid in s.procs ==> !Registering(s.procs[pid].pc)
  }

  /** The stored identity, or one that an invocation live at `s1` was using. */
  ghost predicate Known(o: Options, s1: Sys, doc: StateDocument) {
    || (o.stateFile in s1.world.fs && LoadNode(s1.world.fs[o.stateFile]) == Ok(doc))
    || InUse(s1, doc)
  }

  ghost predicate KnownRequest(o: Options, s1: Sys, r: Request) {
    exists doc :: Known(o, s1, doc) && Addressed(r, doc)
  }

  /** What has stayed as it was since `s1`. */
  ghost predicate Settled(o: Options, s1: Sys, s: Sys) {
    && SameAt(s1.world, s.world, o.stateFile) && SameAt(s1.world, s.world, o.tokenFile)
    && s1.world.wire <= s.world.wire
    && (forall pid :: pid in s.procs ==>
          !Registering(s.procs[pid].pc) && (Identified(s.procs[pid].pc) ==> Known(o, s1, s.procs[pid].pc.doc)))
    && (forall x :: x in Since(s1.world, s.world) ==> KnownRequest(o, s1, x.request))
  }

  /** What a running invocation reads from the state file is what the file loads to. */
  lemma ReadStateLoads(o: Options, w0: World, w: World, data: Bytes, doc: StateDocument)
    requires FilesOk(o, w0, w) && PcOk(o, w0, w, ReadState)
    requires o.stateFile in w.fs && Contents(w.fs[o.stateFile]) == Some(data) && ParseState(data) == Ok(doc)
    ensures LoadNode(w.fs[o.stateFile]) == Ok(doc)
  {
    hide ParseState, Issued, Identity, LoadNode, SecretFileError, StateFile, Contents, ValidDocument;
    if o.stateFile in w0.fs {
      SecretLoads(w.fs[o.stateFile], data, doc);
    } else {
      var stored :| Issued(w0, w, stored) && w.fs[o.stateFile] == StateFile(stored);
      IssuedValid(w0, w, stored);
      StoredContents(stored);
      StoredStateParses(stored);
      StoredStateLoads(stored);
    }
  }

  lemma SecretLoads(n: Node, data: Bytes, doc: StateDocument)
    requires SecretFileError(InfoOf(n), "Core state").None?
    requires Contents(n) == Some(data) && ParseState(data) == Ok(doc)
    ensures LoadNode(n) == Ok(doc)
  {
    hide ParseState;
  }

  lemma StoredContents(doc: StateDocument)
    ensures Contents(StateFile(doc)) == Some(StateCodec.Encode(doc))
  {
    hide StateCodec.Encode;
  }

  /** Outside registration nothing is written. */
  lemma Harmless(o: Options, p: Proc, op: Op, a: Answer)
    requires Wants(o, p) == Some(op) && !Registering(p.pc)
    ensures Touched(op, a) == {}
  {
    hide RegistrationRequest, HeartbeatRequest, DesiredRequest, StateCodec.Encode;
  }

  /** Where an invocation goes that finds the state file in its place. */
  lemma SettledNext(o: Options, w0: World, s1: Sys, w: World, p: Proc, op: Op, a: Answer)
    requires Acting(o, w0, w, p, op, a) && !Registering(p.pc)
    requires o.stateFile in s1.world.fs && SameAt(s1.world, w, o.stateFile)
    requires Identified(p.pc) ==> Known(o, s1, p.pc.doc)
    ensures var pc := Next(o, p, a).pc; !Registering(pc) && (Identified(pc) ==> Known(o, s1, pc.doc))
  {
    hide Next, Wants, Possible, FilesOk, PcOk, InUse, LoadNode;
    if Identified(p.pc) {
      DocumentKept(o, p, a);
    } else if p.pc.InspectState? {
      StateThere(o, w, p, op, a);
    } else if p.pc.ReadState? {
      StateRead(o, w0, w, p, op, a);
    } else {
      assert p.pc.Finished?;
      NothingWanted(o, p);
    }
  }

  lemma NothingWanted(o: Options, p: Proc)
    requires p.pc.Finished?
    ensures Wants(o, p) == None
  {
  }

  lemma StateThere(o: Options, w: World, p: Proc, op: Op, a: Answer)
    requires Wants(o, p) == Some(op) && Possible(Reserved(o), w, op, a) && p.pc.InspectState? && o.stateFile in w.fs
    ensures Next(o, p, a).pc.ReadState? || Next(o, p, a).pc.Finished?
  {
    hide NextEnrolling, NextStoring, NextReporting, SecretFileError, ErrorText;
    hide RegistrationRequest, HeartbeatRequest, DesiredRequest, StateCodec.Encode;
  }

  lemma StateRead(o: Options, w0: World, w: World, p: Proc, op: Op, a: Answer)
    requires Acting(o, w0, w, p, op, a) && p.pc.ReadState?
    ensures var pc := Next(o, p, a).pc;
            || pc.Finished?
            || (pc.ReadClock? && o.stateFile in w.fs && LoadNode(w.fs[o.stateFile]) == Ok(pc.doc))
  {
    hide NextEnrolling, NextStoring, NextReporting, FilesOk, PcOk, LoadNode, ParseState, ErrorText;
    hide RegistrationRequest, HeartbeatRequest, DesiredRequest, StateCodec.Encode;
    if a.Data? && ParseState(a.data).Ok? {
      ReadStateLoads(o, w0, w, a.data, ParseState(a.data).value);
    }
  }

  /** The only requests are those of invocations that know a node. */
  lemma SettledCall(o: Options, s1: Sys, p: Proc, op: Op)
    requires Wants(o, p) == Some(op) && op.Call? && !Registering(p.pc)
    requires Identified(p.pc) ==> Known(o, s1, p.pc.doc)
    ensures KnownRequest(o, s1, op.request)
  {
    hide Known, StateCodec.Encode;
    assert Identified(p.pc) && Addressed(op.request, p.pc.doc) by { AddressesItsNode(o, p, op); }
  }

  lemma AddressesItsNode(o: Options, p: Proc, op: Op)
    requires Wants(o, p) == Some(op) && op.Call? && !Registering(p.pc)
    ensures Identified(p.pc) && Addressed(op.request, p.pc.doc)
  {
    hide StateCodec.Encode;
  }

  lemma SettledStep(o: Options, w0: World, s1: Sys, s: Sys, pid: nat, a: Answer)
    requires WellConfigured(o) && Inv(o, w0, s) && Settled(o, s1, s) && o.stateFile in s1.world.fs
    requires Enabled(o, s, Act(pid, a))
    ensures Settled(o, s1, After(o, s, Act(pid, a)))
  {
    hide Wants, Possible, Apply, Advance, Next, FilesOk, PcOk, RequestOk, Known, KnownRequest, Touched, Since;
    hide Registering;
    var w, p := s.world, s.procs[pid];
    var op := Wants(o, p).value;
    var s' := After(o, s, Act(pid, a));
    assert Acting(o, w0, w, p, op, a);
    Harmless(o, p, op, a);
    ApplyFrame(w, op, a);
    SettledNext(o, w0, s1, w, p, op, a);
    AdvanceIsNext(o, p, a);
    forall q | q in s'.procs
      ensures !Registering(s'.procs[q].pc) && (Identified(s'.procs[q].pc) ==> Known(o, s1, s'.procs[q].pc.doc))
    {
      if q != pid {
        assert s'.procs[q] == s.procs[q];
      }
    }
    assert SameAt(w, s'.world, o.stateFile) && SameAt(w, s'.world, o.tokenFile);
    CallWire(w, op, a);
    SinceGrows(s1.world, w, s'.world);
    forall x | x in Since(s1.world, s'.world) ensures KnownRequest(o, s1, x.request) {
      if x !in Since(s1.world, w) {
        SettledCall(o, s1, p, op);
      }
    }
  }

  lemma AdvanceIsNext(o: Options, p: Proc, a: Answer)
    requires Wants(o, p).Some?
    ensures Advance(o, p, a).pc == Next(o, p, a).pc
  {
    hide Next, Wants;
  }

  lemma EventSettled(o: Options, w0: World, s1: Sys, s: Sys, e: Event)
    requires WellConfigured(o) && Inv(o, w0, s) && Settled(o, s1, s) && o.stateFile in s1.world.fs
    requires Enabled(o, s, e)
    ensures Settled(o, s1, After(o, s, e))
  {
    match e
    case Spawn(pid, input) => SpawnSettled(o, s1, s, pid, input);
    case Act(pid, a) => SettledStep(o, w0, s1, s, pid, a);
    case End(pid) => EndSettled(o, s1, s, pid);
  }

  lemma SpawnSettled(o: Options, s1: Sys, s: Sys, pid: nat, input: Input)
    requires Settled(o, s1, s) && Enabled(o, s, Spawn(pid, input))
    ensures Settled(o, s1, After(o, s, Spawn(pid, input)))
  {
    hide Known, KnownRequest, Since, Start, Registering, Identified;
    StartQuiet(input);
  }

  lemma StartQuiet(input: Input)
    ensures !Registering(Start(input).pc) && !Identified(Start(input).pc)
  {
  }

  lemma EndSettled(o: Options, s1: Sys, s: Sys, pid: nat)
    requires Settled(o, s1, s) && Enabled(o, s, End(pid))
    ensures Settled(o, s1, After(o, s, End(pid)))
  {
    hide Known, KnownRequest, Since;
  }

  lemma {:induction false} StaysSettled(o: Options, w0: World, s1: Sys, events: seq<Event>)
    requires WellConfigured(o) && Inv(o, w0, s1) && o.stateFile in s1.world.fs && NoneRegistering(s1)
    requires Legal(o, s1, events)
    ensures Inv(o, w0, Run(o, s1, events)) && Settled(o, s1, Run(o, s1, events))
    decreases |events|
  {
    hide Inv, Settled, Enabled, After;
    if events == [] {
      SettledAtFirst(o, s1);
    } else {
      var n := |events| - 1;
      StaysSettled(o, w0, s1, events[..n]);
      EventSettled(o, w0, s1, Run(o, s1, events[..n]), events[n]);
      EventInv(o, w0, Run(o, s1, events[..n]), events[n]);
    }
  }

  lemma SettledAtFirst(o: Options, s1: Sys)
    requires NoneRegistering(s1)
    ensures Settled(o, s1, s1)
  {
    hide LoadNode;
    forall pid | pid in s1.procs && Identified(s1.procs[pid].pc) ensures Known(o, s1, s1.procs[pid].pc.doc) {
      assert InUse(s1, s1.procs[pid].pc.doc);
    }
  }

  /** A stored identity is stable as soon as nobody registers. In any history, however the
      invocations overlap, from any moment at which the state path exists and no live
      invocation is registering: the file and the token never change, no registration is
      made, and every request goes to the node stored then or to one that an invocation
      live then was already using. */
  lemma StableOnceNoneRegisters(o: Options, s0: Sys, before: seq<Event>, after: seq<Event>)
    requires WellConfigured(o) && s0.procs == map[] && Legal(o, s0, before)
    requires Legal(o, Run(o, s0, before), after)
    requires o.stateFile in Run(o, s0, before).world.fs && NoneRegistering(Run(o, s0, before))
    ensures var s1 := Run(o, s0, before); var s := Run(o, s1, after);
            && SameAt(s1.world, s.world, o.stateFile) && SameAt(s1.world, s.world, o.tokenFile)
            && NoneRegistering(s)
            && forall x :: x in Since(s1.world, s.world) ==>
                 !x.request.body.Registration? && KnownRequest(o, s1, x.request)
  {
    hide Inv, Legal, Run, Known, Registering, Since;
    Reachable(o, s0, before);
    StaysSettled(o, s0.world, Run(o, s0, before), after);
  }

  // ---- and not before ----

  lemma {:induction false} LeadsThrough(o: Options, s0: Sys, before: seq<Event>, after: seq<Event>)
    requires Legal(o, s0, before) && Legal(o, Run(o, s0, before), after)
    ensures Legal(o, s0, before + after) && Run(o, s0, before + after) == Run(o, Run(o, s0, before), after)
    decreases |after|
  {
    hide Enabled, After;
    if after == [] {
      assert before + after == before;
    } else {
      var n := |after| - 1;
      LeadsThrough(o, s0, before, after[..n]);
      var all := before + after;
      assert all[..|all| - 1] == before + after[..n] && all[|all| - 1] == after[n];
    }
  }

  lemma LeadsFurther(o: Options, s0: Sys, s1: Sys, s2: Sys)
    requires Leads(o, s0, s1) && Leads(o, s1, s2)
    ensures Leads(o, s0, s2)
  {
    hide Legal, Run;
    var before :| Legal(o, s0, before) && Run(o, s0, before) == s1;
    var after :| Legal(o, s1, after) && Run(o, s1, after) == s2;
    LeadsThrough(o, s0, before, after);
  }

  /** The temporary file is being made ready, or is. */
  predicate Holding(pc: Pc) {
    pc.ChmodTemp? || pc.EncodeTemp? || pc.SyncTemp? || pc.CloseTemp? || pc.RenameTemp?
  }

  /** Whoever holds its temporary file can always go on to have it ready. */
  lemma ReadiesHeld(o: Options, w0: World, s: Sys, pid: nat) returns (s': Sys)
    requires Inv(o, w0, s) && pid in s.procs && Holding(s.procs[pid].pc)
    ensures var pc := s.procs[pid].pc;
            && Stands(o, s, s', pid, RenameTemp(pc.doc, pc.temp))
            && pc.temp in s'.world.fs && s'.world.fs[pc.temp] == StateFile(pc.doc)
            && (o.stateFile in s'.world.fs <==> o.stateFile in s.world.fs)
            && (o.stateFile in s.world.fs ==> s'.world.fs[o.stateFile] == s.world.fs[o.stateFile])
  {
    hide Leads, FilesOk, RequestOk, Identity, Issued, StateCodec.Encode;
    var pc := s.procs[pid].pc;
    var doc, temp := pc.doc, pc.temp;
    LeadsNowhere(o, s);
    assert PcOk(o, w0, s.world, pc);
    assert temp != o.stateFile;
    s' := s;
    if pc.ChmodTemp? {
      s' := ChmodsTemp(o, s, s', pid, doc, temp);
    }
    if pc.ChmodTemp? || pc.EncodeTemp? {
      s' := EncodesTemp(o, s, s', pid, doc, temp);
    }
    if !pc.CloseTemp? && !pc.RenameTemp? {
      s' := Closes(o, s, s', pid, doc, temp);
    } else if pc.CloseTemp? {
      s' := ClosesTemp(o, s, s', pid, doc, temp);
    }
  }

  lemma ChmodsTemp(o: Options, s0: Sys, s: Sys, pid: nat, doc: StateDocument, temp: Path) returns (s': Sys)
    requires Stands(o, s0, s, pid, ChmodTemp(doc, temp))
    requires temp in s.world.fs && s.world.fs[temp].File? && s.world.fs[temp].data == []
    ensures Stands(o, s0, s', pid, EncodeTemp(doc, temp))
    ensures s'.world.fs == s.world.fs[temp := File(OWNER_ONLY, [])]
  {
    hide Leads, NextLoading, NextEnrolling, NextReporting, ErrorText;
    hide RegistrationRequest, HeartbeatRequest, DesiredRequest, StateCodec.Encode;
    s' := Moves(o, s0, s, pid, ChmodTemp(doc, temp), Chmod(temp), Done);
  }

  lemma EncodesTemp(o: Options, s0: Sys, s: Sys, pid: nat, doc: StateDocument, temp: Path) returns (s': Sys)
    requires Stands(o, s0, s, pid, EncodeTemp(doc, temp))
    requires temp in s.world.fs && s.world.fs[temp] == File(OWNER_ONLY, [])
    ensures Stands(o, s0, s', pid, SyncTemp(doc, temp))
    ensures s'.world.fs == s.world.fs[temp := StateFile(doc)]
  {
    hide Leads, NextLoading, NextEnrolling, NextReporting, ErrorText;
    hide RegistrationRequest, HeartbeatRequest, DesiredRequest, StateCodec.Encode;
    s' := Moves(o, s0, s, pid, EncodeTemp(doc, temp), Encode(temp, StateCodec.Encode(doc)), Done);
    assert [] + StateCodec.Encode(doc) == StateCodec.Encode(doc);
  }

  lemma ClosesTemp(o: Options, s0: Sys, s: Sys, pid: nat, doc: StateDocument, temp: Path) returns (s': Sys)
    requires Stands(o, s0, s, pid, CloseTemp(doc, temp))
    ensures Stands(o, s0, s', pid, RenameTemp(doc, temp))
    ensures s'.world == s.world
  {
    hide Leads, NextLoading, NextEnrolling, NextReporting, ErrorText;
    hide RegistrationRequest, HeartbeatRequest, DesiredRequest, StateCodec.Encode;
    s' := Moves(o, s0, s, pid, CloseTemp(doc, temp), Close(temp), Done);
  }

  /** What an invocation that stores would replace is a file. */
  lemma ReplacesFile(o: Options, w0: World, s: Sys, pid: nat)
    requires Inv(o, w0, s) && pid in s.procs && Holding(s.procs[pid].pc)
    ensures o.stateFile in s.world.fs ==> s.world.fs[o.stateFile].File?
    ensures s.procs[pid].pc.temp !in Reserved(o) && ValidDocument(s.procs[pid].pc.doc)
  {
    hide RequestOk, Issued, Identity, StateCodec.Encode, ValidDocument;
    var pc := s.procs[pid].pc;
    assert PcOk(o, w0, s.world, pc);
    IssuedValid(w0, s.world, pc.doc);
  }

  /** Once an invocation holds its temporary file it can replace whatever the state path
      holds: from every reachable state some continuation stores its own document. So if
      that is another one, what is stored is not stable. */
  lemma HolderCanReplace(o: Options, s0: Sys, events: seq<Event>, pid: nat)
    requires WellConfigured(o) && s0.procs == map[] && Legal(o, s0, events)
    requires pid in Run(o, s0, events).procs && Holding(Run(o, s0, events).procs[pid].pc)
    ensures var s := Run(o, s0, events);
            exists s' ::
              && Leads(o, s, s') && o.stateFile in s'.world.fs
              && LoadNode(s'.world.fs[o.stateFile]) == Ok(s.procs[pid].pc.doc)
  {
    hide Inv, Leads, Legal, Run, StateFile, LoadNode, ValidDocument;
    var s := Run(o, s0, events);
    var pc := s.procs[pid].pc;
    Reachable(o, s0, events);
    ReplacesFile(o, s0.world, s, pid);
    var ready := ReadiesHeld(o, s0.world, s, pid);
    var s' := Installs(o, s, ready, pid, pc.doc, pc.temp);
    StoredStateLoads(pc.doc);
    assert LoadNode(s'.world.fs[o.stateFile]) == Ok(pc.doc);
  }
}
