/** The synchronizer as it runs: methods that act on a machine shared with other
    invocations, proved to perform exactly the steps of `Agent`. */
module Synchronizers {
  import opened Text
  import opened Inventory
  import opened World
  import opened Agent
  import opened Runs
  import opened Summary
  import Endpoints
  import Utf8
  import CoreClient
  import Identifiers
  import StateCodec

  /** The filesystem, the clock, the caller's context and the Core client, as one
      invocation sees them. Between any two of its operations other invocations may act. */
  class Host {
    const options: Options
    const pid: nat
    var sys: Sys
    ghost const before: World
    ghost var events: seq<Event>

    /** All that happened on this machine is a legal history. */
    ghost predicate Valid()
      reads this
    {
      && WellConfigured(options)
      && Legal(options, Sys(before, map[]), events)
      && Run(options, Sys(before, map[]), events) == sys
    }

    predicate Running()
      reads this
    {
      pid in sys.procs
    }

    /** This invocation. */
    function Me(): Proc
      requires Running()
      reads this
    {
      sys.procs[pid]
    }

    constructor (options: Options, pid: nat, world: World)
      requires WellConfigured(options)
      ensures Valid() && !Running()
      ensures this.options == options && this.pid == pid && before == world && sys == Sys(world, map[])
    {
      this.options, this.pid, this.sys := options, pid, Sys(world, map[]);
      this.before, this.events := world, [];
    }

    ghost predicate Later(past: seq<Event>)
      reads this
    {
      Valid() && past <= events
    }

    /** One event. */
    method Happen(e: Event)
      requires Valid() && Enabled(options, sys, e)
      modifies this
      ensures Later(old(events))
      ensures sys == After(options, old(sys), e)
    {
      hide Enabled, After, WellConfigured;
      ghost var n := |events|;
      sys := After(options, sys, e);
      events := events + [e];
      assert events[..n] == old(events) && events[n] == e;
    }

    /** Other invocations start, act and end, any number of times. */
    method Interfere()
      requires Valid()
      modifies this
      ensures Later(old(events))
      ensures Running() == old(Running()) && (Running() ==> Me() == old(Me()))
    {
      var n: int :| n >= 0;
      for i := 0 to n
        invariant Later(old(events))
        invariant Running() == old(Running()) && (Running() ==> Me() == old(Me()))
      {
        var e: Event := *;
        if e.pid != pid && Enabled(options, sys, e) {
          label L:
          Happen(e);
          Elsewhere(options, old@L(sys), e, pid);
        }
      }
    }

    /** The invocation starts. */
    method Begin(input: Input)
      requires Valid() && !Running()
      modifies this
      ensures Later(old(events)) && Running() && Me() == Start(input)
    {
      Interfere();
      Happen(Spawn(pid, input));
    }

    /** The invocation performs the operation it is about to perform, and gets some answer
        that is possible at that moment. */
    method Perform(op: Op) returns (a: Answer)
      requires Valid() && Running() && Wants(options, Me()) == Some(op)
      modifies this
      ensures Later(old(events)) && Running()
      ensures Answers(op, a)
      ensures Me() == Advance(options, old(Me()), a)
    {
      hide Wants, Advance, Possible, Answers, WellConfigured;
      Interfere();
      Answerable(options, before, sys, events, pid);
      a :| Possible(Reserved(options), sys.world, op, a);
      PossibleAnswers(Reserved(options), sys.world, op, a);
      label L:
      Happen(Act(pid, a));
    }

    /** An invocation that has finished reports what it did. */
    lemma FinishedFaithfully()
      requires Valid() && Running() && Me().pc.Finished?
      ensures Faithful(options, Me())
    {
      hide Faithful;
      SummaryFaithful(options, Sys(before, map[]), events, pid);
    }
  }

  /** An event of another invocation leaves this one as it is. */
  lemma Elsewhere(o: Options, s: Sys, e: Event, pid: nat)
    requires Enabled(o, s, e) && e.pid != pid
    ensures pid in After(o, s, e).procs <==> pid in s.procs
    ensures pid in s.procs ==> After(o, s, e).procs[pid] == s.procs[pid]
  {
  }

  /** The answers an operation can get in some state. */
  predicate Answers(op: Op, a: Answer) {
    match op
    case Lstat(_) => a.Failed? || a.NotExist? || a.Info?
    case ReadFile(_) => a.Failed? || a.Data?
    case MkdirAll(_) => a.Failed? || a.Done? || a.Made?
    case CreateTemp(_) => a.Failed? || a.Temp?
    case Encode(_, _) => a.Done? || a.PartlyWritten?
    case Remove(_) => a.Failed? || a.NotExist? || a.Done?
    case Call(request) =>
      (match request.body
       case Registration(_, _, _, _) => a.Granted? || a.Rejected?
       case Heartbeat(_, _, _, _) => a.Accepted? || a.Rejected?
       case NoBody => a.Desired? || a.Rejected?)
    case Now => a.Time?
    case ContextErr => a.Cancelled?
    case _ => a.Failed? || a.Done?
  }

  lemma PossibleAnswers(reserved: set<Path>, w: World, op: Op, a: Answer)
    requires Possible(reserved, w, op, a)
    ensures Answers(op, a)
  {
  }

  /** No operation of a reachable state is stuck. */
  lemma Answerable(o: Options, w0: World, s: Sys, events: seq<Event>, pid: nat)
    requires WellConfigured(o) && Legal(o, Sys(w0, map[]), events) && Run(o, Sys(w0, map[]), events) == s
    requires pid in s.procs && Wants(o, s.procs[pid]).Some?
    ensures exists a :: Possible(Reserved(o), s.world, Wants(o, s.procs[pid]).value, a)
  {
    hide FilesOk, RequestOk;
    Reachable(o, Sys(w0, map[]), events);
    var p := s.procs[pid];
    CanAnswer(o, w0, s.world, p);
  }

  lemma CanAnswer(o: Options, w0: World, w: World, p: Proc)
    requires PcOk(o, w0, w, p.pc) && Wants(o, p).Some?
    ensures exists a :: Possible(Reserved(o), w, Wants(o, p).value, a)
  {
    hide Identity, Issued, TokenKnown, MachineKnown, SecretFileError, Endpoints.NodeEndpoint;
    hide StateCodec.Encode;
    var op := Wants(o, p).value;
    var a := match op
      case Call(_) => Rejected(Other(""), None)
      case Now => Time(0)
      case ContextErr => Cancelled(false)
      case Encode(_, _) => Done
      case _ => Failed("");
    assert Possible(Reserved(o), w, op, a);
  }

  /** The summary a run fills in. */
  class CoreSummary {
    var enabled: bool
    var registered: bool
    var nodeId: Bytes
    var registration: Operation
    var heartbeat: Operation
    var desiredState: Operation

    constructor (enabled: bool, registration: string, rest: string)
      ensures Value() == Core(enabled, false, [], Operation(false, registration),
                              Operation(false, rest), Operation(false, rest))
    {
      this.enabled, registered, nodeId := enabled, false, [];
      this.registration := Operation(false, registration);
      heartbeat, desiredState := Operation(false, rest), Operation(false, rest);
    }

    ghost function Value(): Core
      reads this
    {
      Core(enabled, registered, nodeId, registration, heartbeat, desiredState)
    }
  }

  datatype LoadError = StateNotFound | Unusable(text: string)

  /** Two moments of an invocation that differ only in what it did in between. */
  predicate Alike(p: Proc, q: Proc) {
    p.pc == q.pc && p.input == q.input && p.core == q.core && p.warnings == q.warnings
  }

  lemma LoadingMoves(o: Options, p: Proc)
    requires p.pc.InspectState? || p.pc.ReadState?
    ensures Wants(o, p) == Some(if p.pc.InspectState? then Lstat(o.stateFile) else ReadFile(o.stateFile))
    ensures forall a: Answer ::
              Alike(Advance(o, p, a), if p.pc.InspectState? then AfterInspecting(p, a) else AfterReading(p, a))
  {
    hide NextEnrolling, NextStoring, NextReporting, ParseState, SecretFileError, RegistrationRequest;
    hide HeartbeatRequest, DesiredRequest, StateCodec.Encode, ErrorText;
  }

  function AfterInspecting(p: Proc, a: Answer): Proc {
    if a.NotExist? then BeginRegistration(p)
    else if !a.Info? then FailState(p, "inspect Core state: " + ErrorText(a))
    else if SecretFileError(a.info, "Core state").Some? then FailState(p, SecretFileError(a.info, "Core state").value)
    else p.(pc := ReadState)
  }

  function AfterReading(p: Proc, a: Answer): Proc {
    if !a.Data? then FailState(p, "read Core state: " + ErrorText(a))
    else
      match ParseState(a.data)
      case Ok(doc) => Identify(p, doc, ReadClock(doc))
      case Err(text) => FailState(p, text)
  }

  lemma EnrollingMoves(o: Options, p: Proc)
    requires p.pc.ReadMachineId? || p.pc.InspectToken? || p.pc.ReadToken?
    ensures Wants(o, p) == Some(
              if p.pc.ReadMachineId? then ReadFile(o.machineIdFile)
              else if p.pc.InspectToken? then Lstat(o.tokenFile)
              else ReadFile(o.tokenFile))
    ensures forall a: Answer :: Alike(Advance(o, p, a), AfterEnrolling(o, p, a))
  {
    hide NextLoading, NextStoring, NextReporting, ParseToken, ParseGrant, Fingerprint, SecretFileError;
    hide RegistrationRequest, HeartbeatRequest, DesiredRequest, StateCodec.Encode, ErrorText;
  }

  function AfterEnrolling(o: Options, p: Proc, a: Answer): Proc
    requires p.pc.ReadMachineId? || p.pc.InspectToken? || p.pc.ReadToken?
  {
    match p.pc
    case ReadMachineId =>
      if !a.Data? then FailRegistration(p, Plain("read machine ID: " + ErrorText(a)))
      else (match Fingerprint(o, a.data)
            case Ok(fingerprint) => p.(pc := InspectToken(fingerprint))
            case Err(text) => FailRegistration(p, Plain(text)))
    case InspectToken(fingerprint) =>
      if !a.Info? then FailRegistration(p, Plain("inspect enrollment token: " + ErrorText(a)))
      else (match SecretFileError(a.info, "enrollment token")
            case Some(text) => FailRegistration(p, Plain(text))
            case None => p.(pc := ReadToken(fingerprint)))
    case ReadToken(fingerprint) =>
      if !a.Data? then FailRegistration(p, Plain("read enrollment token: " + ErrorText(a)))
      else (match ParseToken(a.data)
            case Ok(token) => p.(pc := Pc.Register(fingerprint, token))
            case Err(text) => FailRegistration(p, Plain(text)))
  }

  /** Where each operation on the temporary file leads, short of installing it. */
  function AfterStoring(pc: Pc, a: Answer): Pc
    requires pc.ChmodTemp? || pc.EncodeTemp? || pc.SyncTemp? || pc.CloseTemp? || (pc.RenameTemp? && !a.Done?)
  {
    if !a.Done? then AbandonClose(pc.temp, ErrorText(a))
    else
      match pc
      case ChmodTemp(doc, temp) => EncodeTemp(doc, temp)
      case EncodeTemp(doc, temp) => SyncTemp(doc, temp)
      case SyncTemp(doc, temp) => CloseTemp(doc, temp)
      case CloseTemp(doc, temp) => RenameTemp(doc, temp)
  }

  lemma StoringMoves(o: Options, p: Proc)
    requires p.pc.ChmodTemp? || p.pc.EncodeTemp? || p.pc.SyncTemp? || p.pc.CloseTemp?
    ensures Wants(o, p) == Some(
              match p.pc
              case ChmodTemp(_, temp) => Chmod(temp)
              case EncodeTemp(doc, temp) => Encode(temp, StateCodec.Encode(doc))
              case SyncTemp(_, temp) => Fsync(temp)
              case CloseTemp(_, temp) => Close(temp))
    ensures forall a: Answer :: OnlyMoves(p, Advance(o, p, a), AfterStoring(p.pc, a))
  {
    hide NextLoading, NextEnrolling, NextReporting, DirectoryError, ErrorText, RegistrationRequest;
    hide HeartbeatRequest, DesiredRequest, StateCodec.Encode;
  }

  lemma InstallingMoves(o: Options, p: Proc)
    requires p.pc.RenameTemp?
    ensures Wants(o, p) == Some(Rename(p.pc.temp, o.stateFile))
    ensures forall a: Answer ::
              if a.Done? then Alike(Advance(o, p, a), Persisted(p, p.pc.doc))
              else OnlyMoves(p, Advance(o, p, a), AfterStoring(p.pc, a))
  {
    hide NextLoading, NextEnrolling, NextReporting, DirectoryError, ErrorText, RegistrationRequest;
    hide HeartbeatRequest, DesiredRequest, StateCodec.Encode, Persisted;
  }

  /** `q` is `p` at another place. */
  predicate OnlyMoves(p: Proc, q: Proc, pc: Pc) {
    q.pc == pc && q.input == p.input && q.core == p.core && q.warnings == p.warnings
  }

  function AfterPreparing(p: Proc, a: Answer): Proc
    requires p.pc.MakeDirectory? || p.pc.InspectDirectory? || p.pc.MakeTemp?
  {
    match p.pc
    case MakeDirectory(doc) =>
      if a.Done? || a.Made? then p.(pc := InspectDirectory(doc)) else FailPersist(p, ErrorText(a))
    case InspectDirectory(doc) =>
      if !a.Info? then FailPersist(p, ErrorText(a))
      else if DirectoryError(a.info).Some? then FailPersist(p, DirectoryError(a.info).value)
      else p.(pc := MakeTemp(doc))
    case MakeTemp(doc) =>
      if a.Temp? then p.(pc := ChmodTemp(doc, a.path)) else FailPersist(p, ErrorText(a))
  }

  lemma PreparingMoves(o: Options, p: Proc)
    requires p.pc.MakeDirectory? || p.pc.InspectDirectory? || p.pc.MakeTemp?
    ensures Wants(o, p) == Some(
              if p.pc.MakeDirectory? then MkdirAll(o.stateDirectory)
              else if p.pc.InspectDirectory? then Lstat(o.stateDirectory)
              else CreateTemp(o.stateDirectory))
    ensures forall a :: Alike(Advance(o, p, a), AfterPreparing(p, a))
  {
    hide NextLoading, NextEnrolling, NextReporting, DirectoryError, ErrorText, RegistrationRequest;
    hide HeartbeatRequest, DesiredRequest, StateCodec.Encode;
  }

  lemma AbandoningMoves(o: Options, p: Proc)
    requires p.pc.AbandonClose? || p.pc.AbandonRemove?
    ensures Wants(o, p) == Some(if p.pc.AbandonClose? then Close(p.pc.temp) else Remove(p.pc.temp))
    ensures forall a :: Alike(Advance(o, p, a),
                              if p.pc.AbandonClose? then p.(pc := AbandonRemove(p.pc.temp, p.pc.cause))
                              else FailPersist(p, p.pc.cause))
  {
    hide NextLoading, NextEnrolling, NextReporting, DirectoryError, ErrorText, RegistrationRequest;
    hide HeartbeatRequest, DesiredRequest, StateCodec.Encode;
  }

  /** How a registration ends does not depend on how far it came. */
  lemma EndsAlike(p: Proc, q: Proc)
    requires Alike(q, p.(pc := q.pc))
    ensures forall m :: Alike(FailRegistration(q, m), FailRegistration(p, m))
    ensures forall text :: Alike(FailPersist(q, text), FailPersist(p, text))
    ensures forall doc :: Alike(Persisted(q, doc), Persisted(p, doc))
  {
  }

  lemma RegisteringMoves(o: Options, p: Proc)
    requires p.pc.Register?
    ensures Wants(o, p) == Some(Call(RegistrationRequest(p, p.pc.fingerprint, p.pc.token)))
    ensures forall a :: Alike(Advance(o, p, a),
                              match a
                              case Granted(grant) =>
                                (match ParseGrant(grant)
                                 case Ok(doc) => p.(pc := MakeDirectory(doc))
                                 case Err(text) => FailRegistration(p, Plain(text)))
                              case Rejected(e, _) => FailRegistration(p, Sanitize(e))
                              case _ => p)
  {
    hide NextLoading, NextStoring, NextReporting, ParseToken, ParseGrant, Fingerprint, SecretFileError;
    hide Sanitize, ErrorText, RegistrationRequest, HeartbeatRequest, DesiredRequest, StateCodec.Encode;
  }

  lemma ClockMoves(o: Options, p: Proc, doc: StateDocument)
    requires p.pc == ReadClock(doc)
    ensures Wants(o, p) == Some(Now)
    ensures forall at :: Alike(Advance(o, p, Time(at)),
                               p.(pc := Pc.SendHeartbeat(doc, at),
                                  core := p.core.(heartbeat := p.core.heartbeat.(attempted := true))))
  {
    hide NextLoading, NextEnrolling, NextStoring, Sanitize, RegistrationRequest, HeartbeatRequest;
    hide DesiredRequest, StateCodec.Encode, Identifiers.Reported;
  }

  function Warned(warnings: seq<Warning>, source: string, err: Option<ClientError>): seq<Warning> {
    if err.Some? then warnings + [Warning(source, Sanitize(err.value))] else warnings
  }

  lemma HeartbeatMoves(o: Options, p: Proc, doc: StateDocument)
    requires p.pc.SendHeartbeat? && p.pc.doc == doc
    ensures Wants(o, p) == Some(Call(HeartbeatRequest(p, doc, p.pc.sentAt)))
    ensures forall a: Answer ::
              var q := Advance(o, p, a);
              && q.pc == CheckContext(doc) && q.input == p.input
              && q.core == p.core.(heartbeat :=
                   p.core.heartbeat.(status := if a.Rejected? then "failed" else "succeeded"))
              && q.warnings == Warned(p.warnings, "core.heartbeat", if a.Rejected? then Some(a.error) else None)
  {
    hide NextLoading, NextEnrolling, NextStoring, Sanitize, RegistrationRequest, HeartbeatRequest;
    hide DesiredRequest, StateCodec.Encode, Identifiers.Reported;
  }

  lemma TokenMoves(o: Options, p: Proc, doc: StateDocument)
    requires p.pc == RemoveToken(doc)
    ensures Wants(o, p) == Some(Remove(o.tokenFile))
    ensures forall a :: Alike(Advance(o, p, a),
                              p.(pc := ReadClock(doc),
                                 warnings := if a.Failed? then p.warnings + [TokenWarning(a.text)] else p.warnings))
  {
    hide NextLoading, NextEnrolling, NextStoring, Sanitize, RegistrationRequest, HeartbeatRequest;
    hide DesiredRequest, StateCodec.Encode, Identifiers.Reported;
  }

  function TokenWarning(text: string): Warning {
    Warning("core.enrollment", Plain("remove consumed enrollment token: " + text))
  }

  lemma ContextMoves(o: Options, p: Proc, doc: StateDocument)
    requires p.pc == CheckContext(doc)
    ensures Wants(o, p) == Some(ContextErr)
    ensures forall cancelled ::
              Alike(Advance(o, p, Cancelled(cancelled)),
                    if cancelled then p.(pc := Finished(NO_DESIRED_STATE))
                    else p.(pc := FetchDesired(doc),
                            core := p.core.(desiredState := p.core.desiredState.(attempted := true))))
  {
    hide NextLoading, NextEnrolling, NextStoring, Sanitize, RegistrationRequest, HeartbeatRequest;
    hide DesiredRequest, StateCodec.Encode, Identifiers.Reported;
  }

  lemma FetchMoves(o: Options, p: Proc, doc: StateDocument)
    requires p.pc == FetchDesired(doc)
    ensures Wants(o, p) == Some(Call(DesiredRequest(doc)))
    ensures forall a: Answer | a.Desired? || a.Rejected? ::
              var q := Advance(o, p, a);
              && q.pc == Finished(if a.Desired? then Identifiers.Reported(a.document) else NO_DESIRED_STATE)
              && q.input == p.input
              && q.core == p.core.(desiredState :=
                   p.core.desiredState.(status := if a.Rejected? then "failed" else "succeeded"))
              && q.warnings == Warned(p.warnings, "core.desired_state", if a.Rejected? then Some(a.error) else None)
  {
    hide NextLoading, NextEnrolling, NextStoring, Sanitize, RegistrationRequest, HeartbeatRequest;
    hide DesiredRequest, StateCodec.Encode, Identifiers.Reported;
  }

  class Synchronizer {
    const host: Host
    const enabled: bool
    const agentVersion: string

    constructor (host: Host, enabled: bool, agentVersion: string)
      ensures this.host == host && this.enabled == enabled && this.agentVersion == agentVersion
    {
      this.host, this.enabled, this.agentVersion := host, enabled, agentVersion;
    }

    /** The invocation is about to do what `pc` says. */
    ghost predicate At(pc: Pc)
      reads host
    {
      host.Valid() && host.Running() && host.Me().pc == pc
    }

    method LoadState() returns (r: Result<StateDocument, LoadError>)
      requires At(InspectState)
      modifies host
      ensures host.Later(old(host.events)) && host.Running()
      ensures Alike(host.Me(),
                    match r
                    case Ok(doc) => Identify(old(host.Me()), doc, ReadClock(doc))
                    case Err(StateNotFound) => BeginRegistration(old(host.Me()))
                    case Err(Unusable(text)) => FailState(old(host.Me()), text))
    {
      hide host.Valid, Wants, Advance, SecretFileError, StateCodec.Decode, ErrorText;
      hide CoreClient.ValidNodeId, CoreClient.ValidBearer;
      LoadingMoves(host.options, host.Me());
      var info := host.Perform(Lstat(host.options.stateFile));
      if info.NotExist? {
        return Err(StateNotFound);
      }
      if !info.Info? {
        return Err(Unusable("inspect Core state: " + ErrorText(info)));
      }
      var unsafe := SecretFileError(info.info, "Core state");
      if unsafe.Some? {
        return Err(Unusable(unsafe.value));
      }
      LoadingMoves(host.options, host.Me());
      var data := host.Perform(ReadFile(host.options.stateFile));
      if !data.Data? {
        return Err(Unusable("read Core state: " + ErrorText(data)));
      }
      var decoded := StateCodec.Decode(data.data);
      if decoded.None? {
        return Err(Unusable("parse Core state"));
      }
      var state := decoded.value;
      if state.schemaVersion != STATE_SCHEMA_VERSION {
        return Err(Unusable("Core state has unsupported schema_version"));
      }
      if !CoreClient.ValidNodeId(state.nodeId) {
        return Err(Unusable("Core state contains an invalid node_id"));
      }
      if !CoreClient.ValidBearer(state.agentToken) {
        return Err(Unusable("Core state contains an invalid agent_token"));
      }
      return Ok(state);
    }

    method ReadFingerprint() returns (r: Result<Bytes, ClientError>)
      requires At(ReadMachineId)
      modifies host
      ensures host.Later(old(host.events)) && host.Running()
      ensures Alike(host.Me(),
                    match r
                    case Ok(fingerprint) => old(host.Me()).(pc := InspectToken(fingerprint))
                    case Err(e) => FailRegistration(old(host.Me()), Sanitize(e)))
    {
      hide host.Valid, Wants, Advance, Utf8.TrimSpace, ErrorText;
      EnrollingMoves(host.options, host.Me());
      var data := host.Perform(ReadFile(host.options.machineIdFile));
      if !data.Data? {
        return Err(Other("read machine ID: " + ErrorText(data)));
      }
      var machineId := Utf8.TrimSpace(data.data);
      if |machineId| != 32 || !AllHex(machineId) {
        return Err(Other("machine ID must contain 32 hexadecimal characters"));
      }
      return Ok(host.options.sha256Hex(Ascii("lts-agent-registration-v1:") + ToLower(machineId)));
    }

    method ReadSecret(ghost fingerprint: Bytes) returns (r: Result<Bytes, ClientError>)
      requires At(InspectToken(fingerprint))
      modifies host
      ensures host.Later(old(host.events)) && host.Running()
      ensures Alike(host.Me(),
                    match r
                    case Ok(token) => old(host.Me()).(pc := Pc.Register(fingerprint, token))
                    case Err(e) => FailRegistration(old(host.Me()), Sanitize(e)))
    {
      hide host.Valid, Wants, Advance, SecretFileError, Utf8.TrimSpace, CoreClient.ValidBearer;
      hide ErrorText;
      EnrollingMoves(host.options, host.Me());
      var info := host.Perform(Lstat(host.options.tokenFile));
      if !info.Info? {
        return Err(Other("inspect enrollment token: " + ErrorText(info)));
      }
      var unsafe := SecretFileError(info.info, "enrollment token");
      if unsafe.Some? {
        return Err(Other(unsafe.value));
      }
      EnrollingMoves(host.options, host.Me());
      var data := host.Perform(ReadFile(host.options.tokenFile));
      if !data.Data? {
        return Err(Other("read enrollment token: " + ErrorText(data)));
      }
      var token := Utf8.TrimSpace(data.data);
      if !CoreClient.ValidBearer(token) {
        return Err(Other("enrollment token is invalid"));
      }
      return Ok(token);
    }

    /** Makes the temporary file ready; what went wrong, if anything did. */
    method FillTemp(state: StateDocument, temp: Path) returns (err: Option<string>)
      requires At(ChmodTemp(state, temp))
      modifies host
      ensures host.Later(old(host.events)) && host.Running()
      ensures OnlyMoves(old(host.Me()), host.Me(),
                        match err case None => RenameTemp(state, temp) case Some(text) => AbandonClose(temp, text))
    {
      hide host.Valid, Answers, Wants, Advance, ErrorText, StateCodec.Encode;
      StoringMoves(host.options, host.Me());
      var a := host.Perform(Chmod(temp));
      if !a.Done? {
        return Some(ErrorText(a));
      }
      StoringMoves(host.options, host.Me());
      a := host.Perform(Encode(temp, StateCodec.Encode(state)));
      if !a.Done? {
        return Some(ErrorText(a));
      }
      StoringMoves(host.options, host.Me());
      a := host.Perform(Fsync(temp));
      if !a.Done? {
        return Some(ErrorText(a));
      }
      StoringMoves(host.options, host.Me());
      a := host.Perform(Close(temp));
      if !a.Done? {
        return Some(ErrorText(a));
      }
      return None;
    }

    /** Installs it. */
    method InstallTemp(state: StateDocument, temp: Path) returns (err: Option<string>)
      requires At(RenameTemp(state, temp))
      modifies host
      ensures host.Later(old(host.events)) && host.Running()
      ensures match err
              case None => Alike(host.Me(), Persisted(old(host.Me()), state))
              case Some(text) => OnlyMoves(old(host.Me()), host.Me(), AbandonClose(temp, text))
    {
      hide host.Valid, Answers, Wants, Advance, ErrorText, Persisted;
      InstallingMoves(host.options, host.Me());
      var a := host.Perform(Rename(temp, host.options.stateFile));
      if !a.Done? {
        return Some(ErrorText(a));
      }
      return None;
    }

    method StoreTemp(state: StateDocument, temp: Path) returns (err: Option<string>)
      requires At(ChmodTemp(state, temp))
      modifies host
      ensures host.Later(old(host.events)) && host.Running()
      ensures match err
              case None => Alike(host.Me(), Persisted(old(host.Me()), state))
              case Some(text) => OnlyMoves(old(host.Me()), host.Me(), AbandonClose(temp, text))
    {
      hide host.Valid, Persisted;
      err := FillTemp(state, temp);
      if err.None? {
        EndsAlike(old(host.Me()), host.Me());
        err := InstallTemp(state, temp);
      }
    }

    /** Makes the state directory sure and the temporary file in it. */
    method MakeTempFile(state: StateDocument) returns (r: Result<Path, string>)
      requires At(MakeDirectory(state))
      modifies host
      ensures host.Later(old(host.events)) && host.Running()
      ensures match r
              case Ok(temp) => OnlyMoves(old(host.Me()), host.Me(), ChmodTemp(state, temp))
              case Err(text) => Alike(host.Me(), FailPersist(old(host.Me()), text))
    {
      hide host.Valid, Wants, Advance, Persisted, FailPersist, ErrorText, DirectoryError;
      PreparingMoves(host.options, host.Me());
      var made := host.Perform(MkdirAll(host.options.stateDirectory));
      if made.Failed? {
        return Err(ErrorText(made));
      }
      EndsAlike(old(host.Me()), host.Me());
      PreparingMoves(host.options, host.Me());
      var info := host.Perform(Lstat(host.options.stateDirectory));
      if !info.Info? {
        return Err(ErrorText(info));
      }
      var unsafe := DirectoryError(info.info);
      if unsafe.Some? {
        return Err(unsafe.value);
      }
      EndsAlike(old(host.Me()), host.Me());
      PreparingMoves(host.options, host.Me());
      var temp := host.Perform(CreateTemp(host.options.stateDirectory));
      if !temp.Temp? {
        return Err(ErrorText(temp));
      }
      return Ok(temp.path);
    }

    /** The deferred cleanup of a temporary file that was not installed. */
    method DiscardTemp(temp: Path, ghost cause: string)
      requires At(AbandonClose(temp, cause))
      modifies host
      ensures host.Later(old(host.events)) && host.Running()
      ensures Alike(host.Me(), FailPersist(old(host.Me()), cause))
    {
      hide host.Valid, Answers, Wants, Advance, FailPersist, Persisted;
      AbandoningMoves(host.options, host.Me());
      var _ := host.Perform(Close(temp));
      EndsAlike(old(host.Me()), host.Me());
      AbandoningMoves(host.options, host.Me());
      var _ := host.Perform(Remove(temp));
    }

    method WriteState(state: StateDocument) returns (err: Option<string>)
      requires At(MakeDirectory(state))
      modifies host
      ensures host.Later(old(host.events)) && host.Running()
      ensures Alike(host.Me(),
                    match err
                    case None => Persisted(old(host.Me()), state)
                    case Some(text) => FailPersist(old(host.Me()), text))
    {
      hide host.Valid, Wants, Advance, Persisted, FailPersist;
      var temp := MakeTempFile(state);
      if temp.Err? {
        return Some(temp.error);
      }
      EndsAlike(old(host.Me()), host.Me());
      err := StoreTemp(state, temp.value);
      if err.Some? {
        EndsAlike(old(host.Me()), host.Me());
        DiscardTemp(temp.value, err.value);
      }
    }

    /** The checks on a registration response. */
    method CheckResponse(response: Grant) returns (r: Result<StateDocument, string>)
      ensures r == ParseGrant(response)
      ensures r.Ok? ==> ValidDocument(r.value)
    {
      hide CoreClient.ValidNodeId, CoreClient.ValidBearer;
      if response.schemaVersion != WIRE_SCHEMA_VERSION {
        return Err("registration response has unsupported schema_version");
      }
      if !CoreClient.ValidNodeId(response.nodeId) {
        return Err("registration response contains an invalid node_id");
      }
      if !CoreClient.ValidBearer(response.agentToken) {
        return Err("registration response contains an invalid agent_token");
      }
      return Ok(StateCodec.StateDocument(STATE_SCHEMA_VERSION, response.nodeId, response.agentToken));
    }

    /** Asks Core for an identity and checks the answer. */
    method AskCore(report: Report, fingerprint: Bytes, token: Bytes) returns (r: Result<StateDocument, ClientError>)
      requires At(Pc.Register(fingerprint, token))
      requires host.Me().input == Input(enabled, agentVersion, report)
      modifies host
      ensures host.Later(old(host.events)) && host.Running()
      ensures match r
              case Ok(state) => OnlyMoves(old(host.Me()), host.Me(), MakeDirectory(state))
              case Err(e) => Alike(host.Me(), FailRegistration(old(host.Me()), Sanitize(e)))
    {
      hide host.Valid, Wants, Advance, FailRegistration, ParseGrant;
      RegisteringMoves(host.options, host.Me());
      var reply := host.Perform(
        Call(Request(POST, Endpoints.REGISTRATION, token,
                     Registration(WIRE_SCHEMA_VERSION, fingerprint, agentVersion,
                                  report.(core := None, desiredState := None)))));
      if reply.Rejected? {
        return Err(reply.error);
      }
      var state := CheckResponse(reply.grant);
      if state.Err? {
        return Err(Other(state.error));
      }
      return Ok(state.value);
    }

    /** Registers with what the machine ID and the token file hold. */
    method Enroll(report: Report) returns (r: Result<StateDocument, ClientError>)
      requires At(ReadMachineId)
      requires host.Me().input == Input(enabled, agentVersion, report)
      modifies host
      ensures host.Later(old(host.events)) && host.Running()
      ensures match r
              case Ok(state) => OnlyMoves(old(host.Me()), host.Me(), MakeDirectory(state))
              case Err(e) => Alike(host.Me(), FailRegistration(old(host.Me()), Sanitize(e)))
    {
      hide host.Valid, FailRegistration, Persisted, Sanitize;
      var fingerprint := ReadFingerprint();
      if fingerprint.Err? {
        return Err(fingerprint.error);
      }
      EndsAlike(old(host.Me()), host.Me());
      var token := ReadSecret(fingerprint.value);
      if token.Err? {
        return Err(token.error);
      }
      EndsAlike(old(host.Me()), host.Me());
      r := AskCore(report, fingerprint.value, token.value);
    }

    method Register(report: Report, result: CoreSummary) returns (r: Result<StateDocument, ClientError>)
      requires At(ReadMachineId)
      requires host.Me().input == Input(enabled, agentVersion, report)
      modifies host, result
      ensures host.Later(old(host.events)) && host.Running()
      ensures Alike(host.Me(),
                    match r
                    case Ok(doc) => Persisted(old(host.Me()), doc)
                    case Err(e) => FailRegistration(old(host.Me()), Sanitize(e)))
      ensures result.Value() ==
                old(result.Value()).(registration := Operation(true, if r.Ok? then "succeeded" else "failed"))
    {
      hide host.Valid, Persisted, FailRegistration;
      result.registration := Operation(true, "failed");
      var state := Enroll(report);
      if state.Err? {
        return state;
      }
      EndsAlike(old(host.Me()), host.Me());
      var err := WriteState(state.value);
      if err.Some? {
        return Err(Other("persist Core state: " + err.value));
      }
      result.registration := Operation(true, "succeeded");
      return state;
    }

    method SendHeartbeat(report: Report, state: StateDocument) returns (err: Option<ClientError>)
      requires At(ReadClock(state))
      requires host.Me().input == Input(enabled, agentVersion, report)
      modifies host
      ensures host.Later(old(host.events)) && host.Running()
      ensures host.Me().pc == CheckContext(state) && host.Me().input == old(host.Me()).input
      ensures host.Me().core ==
                old(host.Me()).core.(heartbeat := Operation(true, if err.Some? then "failed" else "succeeded"))
      ensures host.Me().warnings == Warned(old(host.Me()).warnings, "core.heartbeat", err)
    {
      hide host.Valid, Wants, Advance, Sanitize, Endpoints.NodeEndpoint;
      ClockMoves(host.options, host.Me(), state);
      var now := host.Perform(Now);
      HeartbeatMoves(host.options, host.Me(), state);
      var reply := host.Perform(
        Call(Request(POST, Endpoints.NodeEndpoint(state.nodeId, Endpoints.HEARTBEAT), state.agentToken,
                     Heartbeat(WIRE_SCHEMA_VERSION, now.at, agentVersion,
                               report.(core := None, desiredState := None)))));
      if reply.Rejected? {
        return Some(reply.error);
      }
      return None;
    }

    method FetchDesiredState(state: StateDocument) returns (r: Result<Identifiers.Document, ClientError>)
      requires At(FetchDesired(state))
      modifies host
      ensures host.Later(old(host.events)) && host.Running()
      ensures host.Me().pc == Finished(if r.Ok? then Identifiers.Reported(r.value) else NO_DESIRED_STATE)
      ensures host.Me().input == old(host.Me()).input
      ensures host.Me().core ==
                old(host.Me()).core.(desiredState :=
                  old(host.Me()).core.desiredState.(status := if r.Err? then "failed" else "succeeded"))
      ensures host.Me().warnings ==
                Warned(old(host.Me()).warnings, "core.desired_state", if r.Err? then Some(r.error) else None)
    {
      hide host.Valid, Wants, Advance, Sanitize, Endpoints.NodeEndpoint, Identifiers.Reported;
      FetchMoves(host.options, host.Me(), state);
      var reply := host.Perform(
        Call(Request(GET, Endpoints.NodeEndpoint(state.nodeId, Endpoints.DESIRED_STATE), state.agentToken, NoBody)));
      if reply.Rejected? {
        return Err(reply.error);
      }
      return Ok(reply.document);
    }

    /** The result so far is what the invocation would report. */
    ghost predicate Reported(result: CoreSummary, warnings: seq<Warning>)
      reads host, result
    {
      host.Running() && host.Me().core == result.Value() && host.Me().warnings == warnings
    }

    /** The identity, from the state file or by registering. */
    method FindIdentity(report: Report, result: CoreSummary)
      returns (state: Option<StateDocument>, warnings: seq<Warning>)
      requires At(InspectState) && Reported(result, [])
      requires host.Me().input == Input(enabled, agentVersion, report)
      requires result.Value() == INITIAL_CORE
      modifies host, result
      ensures host.Later(old(host.events)) && Reported(result, warnings)
      ensures host.Me().pc ==
                if state.None? then Finished(NO_DESIRED_STATE)
                else if result.registration.status == "succeeded" then RemoveToken(state.value)
                else ReadClock(state.value)
      ensures host.Me().input == old(host.Me()).input && (state.Some? ==> warnings == [])
    {
      hide host.Valid, Wants, Advance, Sanitize;
      var doc: StateDocument;
      var loaded := LoadState();
      if loaded == Err(StateNotFound) {
        var registered := Register(report, result);
        if registered.Err? {
          return None, [Warning("core.registration", Sanitize(registered.error))];
        }
        doc := registered.value;
      } else if loaded.Err? {
        result.registration := result.registration.(status := "failed");
        return None, [Warning("core.state", Plain(loaded.error.text))];
      } else {
        doc := loaded.value;
      }
      result.registered := true;
      result.nodeId := doc.nodeId;
      return Some(doc), [];
    }

    /** Only the run that registered removes the token. */
    method ConsumeToken(state: StateDocument, result: CoreSummary) returns (warnings: seq<Warning>)
      requires At(if result.registration.status == "succeeded" then RemoveToken(state) else ReadClock(state))
      requires Reported(result, [])
      modifies host
      ensures host.Later(old(host.events)) && Reported(result, warnings)
      ensures host.Me().pc == ReadClock(state) && host.Me().input == old(host.Me()).input
    {
      hide host.Valid, Wants, Advance, Answers, TokenWarning;
      warnings := [];
      if result.registration.status == "succeeded" {
        TokenMoves(host.options, host.Me(), state);
        var removed := host.Perform(Remove(host.options.tokenFile));
        if removed.Failed? {
          warnings := [TokenWarning(removed.text)];
        }
      }
    }

    /** The heartbeat stage. */
    method Beat(report: Report, state: StateDocument, result: CoreSummary, before: seq<Warning>)
      returns (warnings: seq<Warning>)
      requires At(ReadClock(state)) && Reported(result, before)
      requires host.Me().input == Input(enabled, agentVersion, report)
      modifies host, result
      ensures host.Later(old(host.events)) && Reported(result, warnings)
      ensures host.Me().pc == CheckContext(state) && host.Me().input == old(host.Me()).input
    {
      hide host.Valid, Wants, Advance, Sanitize;
      warnings := before;
      result.heartbeat := result.heartbeat.(attempted := true);
      var err := SendHeartbeat(report, state);
      if err.Some? {
        result.heartbeat := result.heartbeat.(status := "failed");
        warnings := warnings + [Warning("core.heartbeat", Sanitize(err.value))];
      } else {
        result.heartbeat := result.heartbeat.(status := "succeeded");
      }
    }

    /** The desired-state stage, unless the caller has cancelled. */
    method Observe(state: StateDocument, result: CoreSummary, before: seq<Warning>)
      returns (desired: DesiredState, warnings: seq<Warning>)
      requires At(CheckContext(state)) && Reported(result, before)
      modifies host, result
      ensures host.Later(old(host.events)) && Reported(result, warnings)
      ensures host.Me().pc == Finished(desired) && host.Me().input == old(host.Me()).input
    {
      hide host.Valid, Wants, Advance, Sanitize, Identifiers.Reported;
      desired, warnings := NO_DESIRED_STATE, before;
      ContextMoves(host.options, host.Me(), state);
      var context := host.Perform(ContextErr);
      if !context.cancelled {
        result.desiredState := result.desiredState.(attempted := true);
        var document := FetchDesiredState(state);
        if document.Err? {
          result.desiredState := result.desiredState.(status := "failed");
          warnings := warnings + [Warning("core.desired_state", Sanitize(document.error))];
        } else {
          result.desiredState := result.desiredState.(status := "succeeded");
          desired := Identifiers.Reported(document.value);
        }
      }
    }

    /** Everything that follows once the identity is known. */
    method UseIdentity(report: Report, state: StateDocument, result: CoreSummary)
      returns (desired: DesiredState, warnings: seq<Warning>)
      requires At(if result.registration.status == "succeeded" then RemoveToken(state) else ReadClock(state))
      requires Reported(result, [])
      requires host.Me().input == Input(enabled, agentVersion, report)
      modifies host, result
      ensures host.Later(old(host.events)) && Reported(result, warnings)
      ensures host.Me().pc == Finished(desired) && host.Me().input == old(host.Me()).input
    {
      hide host.Valid, Wants, Advance;
      warnings := ConsumeToken(state, result);
      warnings := Beat(report, state, result, warnings);
      desired, warnings := Observe(state, result, warnings);
    }

    /** One cycle. What it does is a run of `Agent`, started on this input and finished with
        the summary, the desired state and the warnings that are returned; it happens within
        the legal history of the machine, and the summary is faithful to it. */
    method Sync(report: Report) returns (result: CoreSummary, desired: DesiredState, warnings: seq<Warning>)
      requires host.Valid() && !host.Running()
      modifies host
      ensures host.Later(old(host.events)) && fresh(result)
      ensures Reported(result, warnings)
      ensures host.Me().input == Input(enabled, agentVersion, report)
      ensures host.Me().pc == Finished(desired)
      ensures Faithful(host.options, host.Me())
    {
      hide host.Valid, Wants, Advance, Faithful;
      host.Begin(Input(enabled, agentVersion, report));
      desired, warnings := NO_DESIRED_STATE, [];
      if !enabled {
        result := new CoreSummary(false, "disabled", "disabled");
      } else {
        result := new CoreSummary(true, "not_needed", "skipped");
        var state: Option<StateDocument>;
        state, warnings := FindIdentity(report, result);
        if state.Some? {
          desired, warnings := UseIdentity(report, state.value, result);
        }
      }
      host.FinishedFaithfully();
    }
  }
}
