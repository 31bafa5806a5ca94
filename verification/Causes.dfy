/** Why an invocation gives up: an identity is found exactly if nothing stands in the way of
    finding it, and otherwise the first thing that did is what the warning tells. */
module Causes {
  import opened Text
  import opened Inventory
  import opened World
  import opened Agent
  import opened Runs
  import opened Summary
  import Endpoints
  import Identifiers
  import StateCodec
  import Noninterference

  predicate PrivateFile(info: FileInfo) { info.kind == RegularFile && !Shared(info) }

  predicate PrivateDirectory(info: FileInfo) { info.kind == ADirectory && !Shared(info) }

  /** An answer without which there is no identity: a file that is missing, is not what it
      should be or has the wrong content, a failed operation of storing, a registration
      that was not granted. Everything after that is done without regard to success. */
  predicate Hinders(o: Options, x: Action) {
    match x.op
    case Lstat(path) =>
      if path == o.stateFile then !x.answer.NotExist? && !(x.answer.Info? && PrivateFile(x.answer.info))
      else if path == o.tokenFile then !(x.answer.Info? && PrivateFile(x.answer.info))
      else !(x.answer.Info? && PrivateDirectory(x.answer.info))
    case ReadFile(path) =>
      || !x.answer.Data?
      || (path == o.stateFile && ParseState(x.answer.data).Err?)
      || (path == o.machineIdFile && Fingerprint(o, x.answer.data).Err?)
      || (path == o.tokenFile && ParseToken(x.answer.data).Err?)
    case Call(request) =>
      request.body.Registration? && !(x.answer.Granted? && ParseGrant(x.answer.grant).Ok?)
    case Remove(_) => false
    case _ => x.answer.Failed? || x.answer.PartlyWritten?
  }

  predicate Unhindered(o: Options, trace: seq<Action>) {
    forall x :: x in trace ==> !Hinders(o, x)
  }

  /** What a failed step of storing says. */
  function StoreText(x: Action): string {
    match x.answer
    case Info(info) =>
      if info.kind != ADirectory then "state directory must be a non-symlink directory"
      else "state directory permissions must not grant group or world access"
    case _ => ErrorText(x.answer)
  }

  function SecretText(info: FileInfo, name: string): string {
    if info.kind != RegularFile then name + " must be a regular non-symlink file"
    else name + " permissions must not grant group or world access"
  }

  /** The warning for a hindrance. */
  function Told(o: Options, x: Action): Warning {
    match x.op
    case Lstat(path) =>
      if path == o.stateFile then
        Warning("core.state", Plain(if x.answer.Info? then SecretText(x.answer.info, "Core state")
                                    else "inspect Core state: " + ErrorText(x.answer)))
      else if path == o.tokenFile then
        Warning("core.registration", Plain(if x.answer.Info? then SecretText(x.answer.info, "enrollment token")
                                           else "inspect enrollment token: " + ErrorText(x.answer)))
      else Warning("core.registration", Plain("persist Core state: " + StoreText(x)))
    case ReadFile(path) =>
      if path == o.stateFile then
        Warning("core.state", Plain(if x.answer.Data? && ParseState(x.answer.data).Err?
                                    then ParseState(x.answer.data).error
                                    else "read Core state: " + ErrorText(x.answer)))
      else if path == o.machineIdFile then
        Warning("core.registration", Plain(if x.answer.Data? then "machine ID must contain 32 hexadecimal characters"
                                           else "read machine ID: " + ErrorText(x.answer)))
      else
        Warning("core.registration", Plain(if x.answer.Data? then "enrollment token is invalid"
                                           else "read enrollment token: " + ErrorText(x.answer)))
    case Call(_) =>
      Warning("core.registration",
              match x.answer
              case Granted(grant) => Plain(if ParseGrant(grant).Err? then ParseGrant(grant).error else "")
              case Rejected(Http(status, _), _) => HttpStatus(status)
              case Rejected(Other(text), _) => Plain(text)
              case _ => Plain(""))
    case _ => Warning("core.registration", Plain("persist Core state: " + StoreText(x)))
  }

  /** The first hindrance, if there was one. */
  function First(o: Options, trace: seq<Action>): Option<Action> {
    if trace == [] then None
    else
      var n := |trace| - 1;
      match First(o, trace[..n])
      case Some(x) => Some(x)
      case None => if Hinders(o, trace[n]) then Some(trace[n]) else None
  }

  predicate Reporting(pc: Pc) {
    pc.RemoveToken? || pc.ReadClock? || pc.SendHeartbeat? || pc.CheckContext? || pc.FetchDesired?
  }

  predicate Abandoning(pc: Pc) { pc.AbandonClose? || pc.AbandonRemove? }

  /** Still looking for an identity. */
  predicate Seeking(pc: Pc) { !Reporting(pc) && !Abandoning(pc) && !pc.Finished? }

  predicate TellsOf(o: Options, p: Proc, x: Action) {
    p.warnings == [Told(o, x)]
  }

  /** A step of storing that failed, whose text is to be told in the end. */
  predicate ToBeTold(o: Options, cause: string, x: Action) {
    Told(o, x) == Warning("core.registration", Plain("persist Core state: " + cause))
  }

  /** Whether `p` is where it should be, given the first hindrance it met. */
  predicate Placed(o: Options, p: Proc, first: Option<Action>) {
    && p.core.registered == (Reporting(p.pc) || (p.pc.Finished? && first.None?))
    && (first.Some? ==> Abandoning(p.pc) || p.pc.Finished?)
    && (Abandoning(p.pc) ==> first.Some? && ToBeTold(o, p.pc.cause, first.value))
    && (first.Some? && p.pc.Finished? ==> TellsOf(o, p, first.value))
  }

  predicate CauseOk(o: Options, p: Proc) {
    p.input.enabled ==> Placed(o, p, First(o, p.trace))
  }

  /** Where one operation leads. */
  predicate Leads(o: Options, p: Proc, op: Op, a: Answer) {
    var (next, x) := (Next(o, p, a), Action(op, a));
    if Seeking(p.pc) then
      if Hinders(o, x) then
        && !next.core.registered
        && if Abandoning(next.pc) then ToBeTold(o, next.pc.cause, x) else next.pc.Finished? && TellsOf(o, next, x)
      else next.core.registered == Reporting(next.pc) && !Abandoning(next.pc) && !next.pc.Finished?
    else if Abandoning(p.pc) then
      && !next.core.registered
      && if Abandoning(next.pc) then next.pc.cause == p.pc.cause
         else
           && next.pc.Finished?
           && next.warnings == [Warning("core.registration", Plain("persist Core state: " + p.pc.cause))]
    else !Hinders(o, x) && next.core.registered && (Reporting(next.pc) || next.pc.Finished?)
  }

  lemma LoadingLeads(o: Options, w: World, p: Proc, op: Op, a: Answer)
    requires WellConfigured(o) && Proceeds(o, w, p, op, a) && InLoading(p.pc) && !p.core.registered
    ensures Leads(o, p, op, a)
  {
    hide NextEnrolling, NextStoring, NextReporting, ParseState, ParseToken, ParseGrant, Fingerprint, ErrorText;
    hide StateCodec.Encode, RegistrationRequest, HeartbeatRequest, DesiredRequest;
  }

  lemma MachineLeads(o: Options, w: World, p: Proc, op: Op, a: Answer)
    requires WellConfigured(o) && Proceeds(o, w, p, op, a) && p.pc.ReadMachineId? && !p.core.registered
    ensures Leads(o, p, op, a)
  {
    hide NextLoading, NextStoring, NextReporting, ParseState, ParseToken, ParseGrant, Fingerprint, ErrorText;
    hide StateCodec.Encode, RegistrationRequest, HeartbeatRequest, DesiredRequest, Possible, SecretFileError;
    if a.Data? {
      EnrollingTexts(o, a.data);
    }
  }

  lemma InspectTokenLeads(o: Options, w: World, p: Proc, op: Op, a: Answer)
    requires WellConfigured(o) && Proceeds(o, w, p, op, a) && p.pc.InspectToken? && !p.core.registered
    ensures Leads(o, p, op, a)
  {
    hide NextLoading, NextStoring, NextReporting, ParseState, ParseToken, ParseGrant, Fingerprint, ErrorText;
    hide StateCodec.Encode, RegistrationRequest, HeartbeatRequest, DesiredRequest, Possible;
  }

  lemma ReadTokenLeads(o: Options, w: World, p: Proc, op: Op, a: Answer)
    requires WellConfigured(o) && Proceeds(o, w, p, op, a) && p.pc.ReadToken? && !p.core.registered
    ensures Leads(o, p, op, a)
  {
    hide NextLoading, NextStoring, NextReporting, ParseState, ParseToken, ParseGrant, Fingerprint, ErrorText;
    hide StateCodec.Encode, RegistrationRequest, HeartbeatRequest, DesiredRequest, Possible, SecretFileError;
    if a.Data? {
      EnrollingTexts(o, a.data);
    }
  }

  lemma EnrollingTexts(o: Options, data: Bytes)
    ensures Fingerprint(o, data).Err? ==>
              Fingerprint(o, data).error == "machine ID must contain 32 hexadecimal characters"
    ensures ParseToken(data).Err? ==> ParseToken(data).error == "enrollment token is invalid"
  {
  }

  lemma RegisterLeads(o: Options, w: World, p: Proc, op: Op, a: Answer)
    requires Proceeds(o, w, p, op, a) && p.pc.Register? && !p.core.registered
    ensures Leads(o, p, op, a)
  {
    hide NextLoading, NextStoring, NextReporting, ParseState, ParseToken, ParseGrant, Fingerprint, ErrorText;
    hide StateCodec.Encode, HeartbeatRequest, DesiredRequest;
  }

  lemma PreparingLeads(o: Options, w: World, p: Proc, op: Op, a: Answer)
    requires WellConfigured(o) && Proceeds(o, w, p, op, a) && !p.core.registered
    requires p.pc.MakeDirectory? || p.pc.MakeTemp?
    ensures Leads(o, p, op, a)
  {
    hide NextLoading, NextEnrolling, NextReporting, ParseState, ParseToken, ParseGrant, Fingerprint, ErrorText;
    hide StateCodec.Encode, RegistrationRequest, HeartbeatRequest, DesiredRequest, DirectoryError;
  }

  lemma DirectoryLeads(o: Options, w: World, p: Proc, op: Op, a: Answer)
    requires WellConfigured(o) && Proceeds(o, w, p, op, a) && p.pc.InspectDirectory? && !p.core.registered
    ensures Leads(o, p, op, a)
  {
    hide NextLoading, NextEnrolling, NextReporting, ParseState, ParseToken, ParseGrant, Fingerprint, ErrorText;
    hide StateCodec.Encode, RegistrationRequest, HeartbeatRequest, DesiredRequest, Possible;
  }

  lemma WritingLeads(o: Options, w: World, p: Proc, op: Op, a: Answer)
    requires Proceeds(o, w, p, op, a) && !p.core.registered
    requires p.pc.ChmodTemp? || p.pc.EncodeTemp? || p.pc.SyncTemp? || p.pc.CloseTemp? || p.pc.RenameTemp?
    ensures Leads(o, p, op, a)
  {
    hide NextLoading, NextEnrolling, NextReporting, ParseState, ParseToken, ParseGrant, Fingerprint, ErrorText;
    hide StateCodec.Encode, RegistrationRequest, HeartbeatRequest, DesiredRequest, DirectoryError;
  }

  lemma AbandoningLeads(o: Options, w: World, p: Proc, op: Op, a: Answer)
    requires Proceeds(o, w, p, op, a) && Abandoning(p.pc) && !p.core.registered
    ensures Leads(o, p, op, a)
  {
    hide NextLoading, NextEnrolling, NextReporting, Hinders, Possible, Wants, DirectoryError, ErrorText;
  }

  lemma ReportingLeads(o: Options, w: World, p: Proc, op: Op, a: Answer)
    requires Proceeds(o, w, p, op, a) && Reporting(p.pc) && p.core.registered
    ensures Leads(o, p, op, a)
  {
    hide NextLoading, NextEnrolling, NextStoring, ParseState, ParseToken, ParseGrant, Fingerprint;
    hide StateCodec.Encode, RegistrationRequest, Sanitize, Identifiers.Reported, Endpoints.NodeEndpoint, Told;
  }

  lemma StepLeads(o: Options, w: World, p: Proc, op: Op, a: Answer)
    requires WellConfigured(o) && Proceeds(o, w, p, op, a)
    requires p.core.registered == Reporting(p.pc) && !p.pc.Finished?
    ensures Leads(o, p, op, a)
  {
    hide Leads, Proceeds;
    if InLoading(p.pc) {
      LoadingLeads(o, w, p, op, a);
    } else if p.pc.Register? {
      RegisterLeads(o, w, p, op, a);
    } else if p.pc.ReadMachineId? {
      MachineLeads(o, w, p, op, a);
    } else if p.pc.InspectToken? {
      InspectTokenLeads(o, w, p, op, a);
    } else if p.pc.ReadToken? {
      ReadTokenLeads(o, w, p, op, a);
    } else if Abandoning(p.pc) {
      AbandoningLeads(o, w, p, op, a);
    } else if p.pc.MakeDirectory? || p.pc.MakeTemp? {
      PreparingLeads(o, w, p, op, a);
    } else if p.pc.InspectDirectory? {
      DirectoryLeads(o, w, p, op, a);
    } else if InStoring(p.pc) {
      WritingLeads(o, w, p, op, a);
    } else {
      ReportingLeads(o, w, p, op, a);
    }
  }

  lemma FirstSnoc(o: Options, trace: seq<Action>, x: Action)
    ensures First(o, trace + [x]) ==
            match First(o, trace)
            case Some(y) => Some(y)
            case None => if Hinders(o, x) then Some(x) else None
  {
    hide Hinders;
    assert (trace + [x])[..|trace|] == trace;
  }

  lemma {:induction false} FirstIff(o: Options, trace: seq<Action>)
    ensures First(o, trace).None? <==> Unhindered(o, trace)
    ensures First(o, trace).Some? ==> First(o, trace).value in trace && Hinders(o, First(o, trace).value)
  {
    hide Hinders;
    if trace != [] {
      var n := |trace| - 1;
      FirstIff(o, trace[..n]);
      assert trace == trace[..n] + [trace[n]];
    }
  }

  lemma StepCause(o: Options, w: World, p: Proc, op: Op, a: Answer)
    requires WellConfigured(o) && Proceeds(o, w, p, op, a) && CauseOk(o, p) && !p.pc.Finished?
    ensures CauseOk(o, Advance(o, p, a))
  {
    hide Next, Wants, Possible, Hinders, First, Told;
    Noninterference.AdvanceBlurred(o, p, a);
    FirstSnoc(o, p.trace, Action(op, a));
    if p.input.enabled {
      StepLeads(o, w, p, op, a);
    }
  }

  predicate AllCauses(o: Options, s: Sys) {
    forall pid :: pid in s.procs ==> CauseOk(o, s.procs[pid])
  }

  lemma WantsRunning(o: Options, p: Proc)
    ensures p.pc.Finished? ==> Wants(o, p).None?
  {
  }

  lemma EventCause(o: Options, s: Sys, e: Event)
    requires WellConfigured(o) && AllCauses(o, s) && Enabled(o, s, e)
    ensures AllCauses(o, After(o, s, e))
  {
    hide CauseOk, Advance, Possible, Apply, Wants;
    match e
    case Spawn(_, input) => StartCause(o, input);
    case Act(pid, a) =>
      WantsRunning(o, s.procs[pid]);
      StepCause(o, s.world, s.procs[pid], Wants(o, s.procs[pid]).value, a);
    case End(_) =>
  }

  lemma StartCause(o: Options, input: Input)
    ensures CauseOk(o, Start(input))
  {
    hide Hinders;
  }

  lemma NoCauses(o: Options, s: Sys)
    requires s.procs == map[]
    ensures AllCauses(o, s)
  {
  }

  lemma {:induction false} CausesReachable(o: Options, s0: Sys, events: seq<Event>)
    requires WellConfigured(o) && s0.procs == map[] && Legal(o, s0, events)
    ensures AllCauses(o, Run(o, s0, events))
    decreases |events|
  {
    hide AllCauses, Enabled, After;
    if events == [] {
      NoCauses(o, s0);
    } else {
      var n := |events| - 1;
      CausesReachable(o, s0, events[..n]);
      EventCause(o, Run(o, s0, events[..n]), events[n]);
    }
  }

  /** In any history a finished invocation has an identity exactly if none of the answers it
      got was a hindrance: it neither gives up without cause nor goes on in spite of one.
      And if it has none, its only warning tells of the first hindrance, whatever became of
      the cleaning up. */
  lemma RegisteredUnlessHindered(o: Options, s0: Sys, events: seq<Event>, pid: nat)
    requires WellConfigured(o) && s0.procs == map[] && Legal(o, s0, events)
    requires pid in Run(o, s0, events).procs
    ensures var p := Run(o, s0, events).procs[pid];
            p.pc.Finished? && p.input.enabled ==>
              && (p.core.registered <==> forall x :: x in p.trace ==> !Hinders(o, x))
              && (!p.core.registered ==> First(o, p.trace).Some? && p.warnings == [Told(o, First(o, p.trace).value)])
  {
    hide Hinders, Legal, Run, First, Told;
    CausesReachable(o, s0, events);
    FirstIff(o, Run(o, s0, events).procs[pid].trace);
  }
}
