/** Any number of invocations over one filesystem and one Core, overlapping in any way:
    every operation may fail, and every invocation may be killed between any two
    operations. A kill in the middle of a write is a write that failed part-way and an
    invocation that ends next. Completed operations persist. */
module Runs {
  import opened Text
  import opened World
  import opened Agent
  import Endpoints
  import StateCodec

  datatype Sys = Sys(world: World, procs: map<nat, Proc>)

  /** An invocation starts, acts, or ends: by finishing or by being killed. */
  datatype Event = Spawn(pid: nat, input: Input) | Act(pid: nat, answer: Answer) | End(pid: nat)

  predicate Enabled(o: Options, s: Sys, e: Event) {
    match e
    case Spawn(pid, _) => pid !in s.procs
    case Act(pid, a) =>
      && pid in s.procs
      && Wants(o, s.procs[pid]).Some?
      && Possible(Reserved(o), s.world, Wants(o, s.procs[pid]).value, a)
    case End(pid) => pid in s.procs
  }

  function After(o: Options, s: Sys, e: Event): Sys
    requires Enabled(o, s, e)
  {
    match e
    case Spawn(pid, input) => s.(procs := s.procs[pid := Start(input)])
    case Act(pid, a) =>
      Sys(Apply(s.world, Wants(o, s.procs[pid]).value, a), s.procs[pid := Advance(o, s.procs[pid], a)])
    case End(pid) => s.(procs := s.procs - {pid})
  }

  /** `events` can happen one after another from `s`. */
  ghost predicate Legal(o: Options, s: Sys, events: seq<Event>)
    decreases |events|, 0
  {
    events == [] ||
    (var n := |events| - 1;
     Legal(o, s, events[..n]) && Enabled(o, Run(o, s, events[..n]), events[n]))
  }

  /** Where they lead. */
  ghost function Run(o: Options, s: Sys, events: seq<Event>): Sys
    requires Legal(o, s, events)
    decreases |events|, 1
  {
    if events == [] then s
    else
      var n := |events| - 1;
      After(o, Run(o, s, events[..n]), events[n])
  }

  // ---- what the starting point determines ----

  /** The bearer that registration would use. */
  function EnrollmentToken(o: Options, w: World): Bytes {
    if o.tokenFile in w.fs && Contents(w.fs[o.tokenFile]).Some?
       && ParseToken(Contents(w.fs[o.tokenFile]).value).Ok?
    then ParseToken(Contents(w.fs[o.tokenFile]).value).value else []
  }

  function MachineFingerprint(o: Options, w: World): Bytes {
    if o.machineIdFile in w.fs && Contents(w.fs[o.machineIdFile]).Some?
       && Fingerprint(o, Contents(w.fs[o.machineIdFile]).value).Ok?
    then Fingerprint(o, Contents(w.fs[o.machineIdFile]).value).value else []
  }

  /** `token` is the one in the token file. */
  predicate TokenKnown(o: Options, w: World, token: Bytes) {
    && o.tokenFile in w.fs && Contents(w.fs[o.tokenFile]).Some?
    && ParseToken(Contents(w.fs[o.tokenFile]).value) == Ok(token)
  }

  /** `fingerprint` is that of the machine ID file. */
  predicate MachineKnown(o: Options, w: World, fingerprint: Bytes) {
    && o.machineIdFile in w.fs && Contents(w.fs[o.machineIdFile]).Some?
    && Fingerprint(o, Contents(w.fs[o.machineIdFile]).value) == Ok(fingerprint)
  }

  lemma KnownIs(o: Options, w: World, token: Bytes, fingerprint: Bytes)
    ensures TokenKnown(o, w, token) ==> token == EnrollmentToken(o, w)
    ensures MachineKnown(o, w, fingerprint) ==> fingerprint == MachineFingerprint(o, w)
  {
    hide ParseToken, Fingerprint;
  }

  /** The exchanges made since `w0`. */
  function Since(w0: World, w: World): seq<Exchange> {
    if |w0.wire| <= |w.wire| then w.wire[|w0.wire|..] else []
  }

  /** Core answered this registration with the identity in `doc`. */
  ghost predicate Grants(x: Exchange, doc: StateDocument) {
    x.request.body.Registration? && x.issued == Some(Grant(WIRE_SCHEMA_VERSION, doc.nodeId, doc.agentToken))
  }

  ghost predicate Issued(w0: World, w: World, doc: StateDocument) {
    ValidDocument(doc) && exists x :: x in Since(w0, w) && Grants(x, doc)
  }

  /** One complete encoding, owner-only, of an identity Core issued since `w0`. */
  ghost predicate Stored(w0: World, w: World, n: Node) {
    exists doc :: Issued(w0, w, doc) && n == StateFile(doc)
  }

  /** The identity a run may use: the one in the state file, or, if there was none to
      begin with, one issued and stored since. */
  ghost predicate Identity(o: Options, w0: World, w: World, doc: StateDocument) {
    if o.stateFile in w0.fs then LoadNode(w0.fs[o.stateFile]) == Ok(doc)
    else o.stateFile in w.fs && Issued(w0, w, doc)
  }

  // ---- the invariant ----

  /** What has become of the three files. */
  ghost predicate FilesOk(o: Options, w0: World, w: World) {
    && w0.wire <= w.wire
    && SameAt(w0, w, o.machineIdFile)
    && (o.tokenFile in w.fs ==> SameAt(w0, w, o.tokenFile))
    && (o.tokenFile in w0.fs && o.tokenFile !in w.fs ==> o.stateFile !in w0.fs && o.stateFile in w.fs)
    && (o.stateFile in w0.fs ==> SameAt(w0, w, o.stateFile))
    && (o.stateFile !in w0.fs && o.stateFile in w.fs ==> Stored(w0, w, w.fs[o.stateFile]))
  }

  /** The temporary file of an invocation that has one. */
  function Held(pc: Pc): Option<Path> {
    match pc
    case ChmodTemp(_, t) => Some(t)
    case EncodeTemp(_, t) => Some(t)
    case SyncTemp(_, t) => Some(t)
    case CloseTemp(_, t) => Some(t)
    case RenameTemp(_, t) => Some(t)
    case AbandonClose(t, _) => Some(t)
    case AbandonRemove(t, _) => Some(t)
    case _ => None
  }

  /** How far the temporary file has come. */
  ghost predicate TempOk(w: World, pc: Pc) {
    match pc
    case ChmodTemp(_, t) => t in w.fs && w.fs[t].File? && w.fs[t].data == []
    case EncodeTemp(_, t) => t in w.fs && w.fs[t] == File(OWNER_ONLY, [])
    case SyncTemp(doc, t) => t in w.fs && w.fs[t] == StateFile(doc)
    case CloseTemp(doc, t) => t in w.fs && w.fs[t] == StateFile(doc)
    case RenameTemp(doc, t) => t in w.fs && w.fs[t] == StateFile(doc)
    case AbandonClose(t, _) => t in w.fs
    case AbandonRemove(t, _) => t in w.fs
    case _ => true
  }

  predicate Storing(pc: Pc) {
    || pc.MakeDirectory? || pc.InspectDirectory? || pc.MakeTemp? || pc.ChmodTemp?
    || pc.EncodeTemp? || pc.SyncTemp? || pc.CloseTemp? || pc.RenameTemp?
  }

  predicate Identified(pc: Pc) {
    pc.ReadClock? || pc.SendHeartbeat? || pc.CheckContext? || pc.FetchDesired?
  }

  predicate Registering(pc: Pc) {
    || pc.ReadMachineId? || pc.InspectToken? || pc.ReadToken? || pc.Register? || Storing(pc)
    || pc.AbandonClose? || pc.AbandonRemove? || pc.RemoveToken?
  }

  /** What an invocation knows where it stands. */
  ghost predicate PcOk(o: Options, w0: World, w: World, pc: Pc) {
    && TempOk(w, pc)
    && (Held(pc).Some? ==> Held(pc).value !in Reserved(o))
    && (Registering(pc) ==> o.stateFile !in w0.fs)
    && (pc.ReadState? ==> o.stateFile in w.fs)
    && (pc.ReadState? && o.stateFile in w0.fs ==> SecretFileError(InfoOf(w0.fs[o.stateFile]), "Core state").None?)
    && (pc.InspectToken? || pc.ReadToken? || pc.Register? ==> MachineKnown(o, w0, pc.fingerprint))
    && (pc.Register? ==> TokenKnown(o, w0, pc.token))
    && (Storing(pc) ==> Issued(w0, w, pc.doc))
    && (pc.RemoveToken? || Identified(pc) ==> Identity(o, w0, w, pc.doc))
  }

  /** The request is one of this node's. */
  predicate Addressed(r: Request, doc: StateDocument) {
    && r.bearer == doc.agentToken
    && match r.body
       case Heartbeat(_, _, _, inventory) =>
         r.verb == POST && r.endpoint == Endpoints.NodeEndpoint(doc.nodeId, Endpoints.HEARTBEAT)
       case NoBody => r.verb == GET && r.endpoint == Endpoints.NodeEndpoint(doc.nodeId, Endpoints.DESIRED_STATE)
       case Registration(_, _, _, _) => false
  }

  ghost predicate RequestOk(o: Options, w0: World, w: World, r: Request) {
    if r.body.Registration? then
      && o.stateFile !in w0.fs
      && r.verb == POST && r.endpoint == Endpoints.REGISTRATION
      && TokenKnown(o, w0, r.bearer)
      && MachineKnown(o, w0, r.body.fingerprint)
    else exists doc :: Identity(o, w0, w, doc) && Addressed(r, doc)
  }

  ghost predicate Inv(o: Options, w0: World, s: Sys) {
    && FilesOk(o, w0, s.world)
    && (forall pid :: pid in s.procs ==> PcOk(o, w0, s.world, s.procs[pid].pc))
    && (forall pid, pid' :: pid in s.procs && pid' in s.procs && pid != pid' && Held(s.procs[pid].pc).Some?
          ==> Held(s.procs[pid].pc) != Held(s.procs[pid'].pc))
    && (forall x :: x in Since(w0, s.world) ==> RequestOk(o, w0, s.world, x.request))
  }

  // ---- nothing known is lost ----

  lemma IssuedGrows(w0: World, w: World, w': World, doc: StateDocument)
    requires Issued(w0, w, doc) && w0.wire <= w.wire <= w'.wire
    ensures Issued(w0, w', doc)
  {
    var x :| x in Since(w0, w) && Grants(x, doc);
    SinceGrows(w0, w, w');
    assert x in Since(w0, w');
  }

  lemma IssuedValid(w0: World, w: World, doc: StateDocument)
    requires Issued(w0, w, doc)
    ensures ValidDocument(doc)
  {
  }

  lemma SinceGrows(w0: World, w: World, w': World)
    requires w0.wire <= w.wire <= w'.wire
    ensures Since(w0, w') == Since(w0, w) + w'.wire[|w.wire|..]
  {
  }

  lemma IdentityGrows(o: Options, w0: World, w: World, w': World, doc: StateDocument)
    requires Identity(o, w0, w, doc) && w0.wire <= w.wire <= w'.wire
    requires o.stateFile in w.fs ==> o.stateFile in w'.fs
    ensures Identity(o, w0, w', doc)
  {
    hide LoadNode, Issued;
    if o.stateFile !in w0.fs {
      IssuedGrows(w0, w, w', doc);
    }
  }

  lemma StoredGrows(w0: World, w: World, w': World, n: Node)
    requires Stored(w0, w, n) && w0.wire <= w.wire <= w'.wire
    ensures Stored(w0, w', n)
  {
    hide Issued, StateFile;
    var doc :| Issued(w0, w, doc) && n == StateFile(doc);
    IssuedGrows(w0, w, w', doc);
  }

  lemma RequestOkGrows(o: Options, w0: World, w: World, w': World, r: Request)
    requires RequestOk(o, w0, w, r) && w0.wire <= w.wire <= w'.wire
    requires o.stateFile in w.fs ==> o.stateFile in w'.fs
    ensures RequestOk(o, w0, w', r)
  {
    hide Identity, Addressed, TokenKnown, MachineKnown;
    if !r.body.Registration? {
      var doc :| Identity(o, w0, w, doc) && Addressed(r, doc);
      IdentityGrows(o, w0, w, w', doc);
    }
  }

  /** What an invocation knows stays true while its temporary file is left alone. */
  lemma PcOkKept(o: Options, w0: World, w: World, w': World, pc: Pc)
    requires PcOk(o, w0, w, pc) && w0.wire <= w.wire <= w'.wire
    requires o.stateFile in w.fs ==> o.stateFile in w'.fs
    requires Held(pc).Some? ==> SameAt(w, w', Held(pc).value)
    ensures PcOk(o, w0, w', pc)
  {
    hide Identity, Issued, TokenKnown, MachineKnown, SecretFileError, StateFile;
    if Storing(pc) {
      IssuedGrows(w0, w, w', pc.doc);
    }
    if pc.RemoveToken? || Identified(pc) {
      IdentityGrows(o, w0, w, w', pc.doc);
    }
  }

  // ---- one operation ----

  /** An invocation about to perform `op`, and an answer it can get. */
  ghost predicate Acting(o: Options, w0: World, w: World, p: Proc, op: Op, a: Answer) {
    && WellConfigured(o)
    && FilesOk(o, w0, w) && PcOk(o, w0, w, p.pc)
    && Wants(o, p) == Some(op) && Possible(Reserved(o), w, op, a)
  }

  lemma LoadingStep(o: Options, w0: World, w: World, p: Proc, op: Op, a: Answer)
    requires Acting(o, w0, w, p, op, a) && (p.pc.InspectState? || p.pc.ReadState?)
    ensures PcOk(o, w0, w, Next(o, p, a).pc)
  {
    hide NextEnrolling, NextStoring, NextReporting, ParseToken, ParseGrant, Fingerprint, ErrorText;
    hide RegistrationRequest, HeartbeatRequest, DesiredRequest, StateCodec.Encode, ParseState;
    hide SecretFileError, StateFile, Issued, MachineKnown, TokenKnown;
    if p.pc.ReadState? && a.Data? && ParseState(a.data).Ok? {
      ReadStateIdentifies(o, w0, w, a.data, ParseState(a.data).value);
    }
  }

  lemma ReadStateIdentifies(o: Options, w0: World, w: World, data: Bytes, doc: StateDocument)
    requires FilesOk(o, w0, w) && PcOk(o, w0, w, ReadState)
    requires o.stateFile in w.fs && Contents(w.fs[o.stateFile]) == Some(data) && ParseState(data) == Ok(doc)
    ensures Identity(o, w0, w, doc)
  {
    hide ParseState, SecretFileError, Issued;
    if o.stateFile !in w0.fs {
      var stored :| Issued(w0, w, stored) && w.fs[o.stateFile] == StateFile(stored);
      IssuedValid(w0, w, stored);
      StoredStateParses(stored);
    }
  }

  lemma EnrollingStep(o: Options, w0: World, w: World, p: Proc, op: Op, a: Answer)
    requires Acting(o, w0, w, p, op, a) && (p.pc.ReadMachineId? || p.pc.InspectToken? || p.pc.ReadToken?)
    ensures PcOk(o, w0, w, Next(o, p, a).pc)
  {
    hide Next, FilesOk, PcOk, Possible, Wants;
    if p.pc.ReadMachineId? {
      MachineIdStep(o, w0, w, p, op, a);
    } else {
      TokenStep(o, w0, w, p, op, a);
    }
  }

  lemma MachineIdStep(o: Options, w0: World, w: World, p: Proc, op: Op, a: Answer)
    requires Acting(o, w0, w, p, op, a) && p.pc.ReadMachineId?
    ensures PcOk(o, w0, w, Next(o, p, a).pc)
  {
    hide NextLoading, NextStoring, NextReporting, Stored, Fingerprint, TokenKnown, Identity, Issued;
    hide ErrorText, RegistrationRequest, HeartbeatRequest, DesiredRequest, StateCodec.Encode;
  }

  lemma TokenStep(o: Options, w0: World, w: World, p: Proc, op: Op, a: Answer)
    requires Acting(o, w0, w, p, op, a) && (p.pc.InspectToken? || p.pc.ReadToken?)
    ensures PcOk(o, w0, w, Next(o, p, a).pc)
  {
    hide NextLoading, NextStoring, NextReporting, Stored, ParseToken, MachineKnown, Identity, Issued;
    hide SecretFileError, ErrorText, RegistrationRequest, HeartbeatRequest, DesiredRequest, StateCodec.Encode;
  }

  lemma RegisterStep(o: Options, w0: World, w: World, p: Proc, op: Op, a: Answer)
    requires Acting(o, w0, w, p, op, a) && p.pc.Register?
    ensures PcOk(o, w0, Apply(w, op, a), Next(o, p, a).pc)
  {
    hide NextLoading, NextStoring, NextReporting, ParseState, ParseToken, Fingerprint, Sanitize;
    hide HeartbeatRequest, DesiredRequest, StateCodec.Encode, LoadNode, Stored, ParseGrant;
    hide ValidDocument, TokenKnown, MachineKnown;
    if a.Granted? && ParseGrant(a.grant).Ok? {
      var doc := ParseGrant(a.grant).value;
      var w' := Apply(w, op, a);
      GrantIsValid(a.grant);
      SinceGrows(w0, w, w');
      var x := w'.wire[|w.wire|];
      assert x in Since(w0, w');
      GrantGrants(a.grant, doc, x);
    }
  }

  lemma GrantGrants(g: Grant, doc: StateDocument, x: Exchange)
    requires ParseGrant(g) == Ok(doc) && x.request.body.Registration? && x.issued == Some(g)
    ensures Grants(x, doc) && ValidDocument(doc)
  {
  }

  lemma PrepareStep(o: Options, w0: World, w: World, p: Proc, op: Op, a: Answer)
    requires Acting(o, w0, w, p, op, a) && (p.pc.MakeDirectory? || p.pc.InspectDirectory? || p.pc.MakeTemp?)
    ensures PcOk(o, w0, Apply(w, op, a), Next(o, p, a).pc)
  {
    hide NextLoading, NextEnrolling, NextReporting, ParseState, ParseToken, ParseGrant, Fingerprint;
    hide RegistrationRequest, HeartbeatRequest, DesiredRequest, StateCodec.Encode, Stored, Issued;
    hide LoadNode, TokenKnown, MachineKnown, StateFile, FilesOk, DirectoryError;
    IssuedStays(w0, w, op, a, p.pc.doc);
  }

  lemma IssuedStays(w0: World, w: World, op: Op, a: Answer, doc: StateDocument)
    requires Issued(w0, w, doc)
    ensures Issued(w0, Apply(w, op, a), doc)
  {
    ApplyFrame(w, op, a);
    var x :| x in Since(w0, w) && Grants(x, doc);
    assert Apply(w, op, a).wire == w.wire + Apply(w, op, a).wire[|w.wire|..];
    assert x in Since(w0, Apply(w, op, a));
  }

  lemma WriteStep(o: Options, w0: World, w: World, p: Proc, op: Op, a: Answer)
    requires Acting(o, w0, w, p, op, a)
    requires p.pc.ChmodTemp? || p.pc.EncodeTemp? || p.pc.SyncTemp? || p.pc.CloseTemp?
    ensures PcOk(o, w0, Apply(w, op, a), Next(o, p, a).pc)
  {
    hide NextLoading, NextEnrolling, NextReporting, ParseState, ParseToken, Fingerprint;
    hide RegistrationRequest, HeartbeatRequest, DesiredRequest, Stored, Issued, LoadNode;
    hide TokenKnown, MachineKnown, FilesOk, StateCodec.Encode;
    IssuedStays(w0, w, op, a, p.pc.doc);
    if p.pc.EncodeTemp? {
      assert [] + StateCodec.Encode(p.pc.doc) == StateCodec.Encode(p.pc.doc);
    }
  }

  lemma RenameStep(o: Options, w0: World, w: World, p: Proc, op: Op, a: Answer)
    requires Acting(o, w0, w, p, op, a) && p.pc.RenameTemp?
    ensures PcOk(o, w0, Apply(w, op, a), Next(o, p, a).pc)
    ensures a.Done? ==> o.stateFile in Apply(w, op, a).fs && Apply(w, op, a).fs[o.stateFile] == StateFile(p.pc.doc)
  {
    hide NextLoading, NextEnrolling, NextReporting, Stored, Issued, LoadNode, TokenKnown;
    hide MachineKnown, FilesOk, StateFile;
    IssuedStays(w0, w, op, a, p.pc.doc);
  }

  lemma AbandonStep(o: Options, w0: World, w: World, p: Proc, op: Op, a: Answer)
    requires Acting(o, w0, w, p, op, a) && (p.pc.AbandonClose? || p.pc.AbandonRemove?)
    ensures PcOk(o, w0, Apply(w, op, a), Next(o, p, a).pc)
  {
    hide NextLoading, NextEnrolling, NextReporting, Stored, Issued, Identity, TokenKnown;
    hide MachineKnown;
  }

  /** Once the identity is known it stays the same. */
  lemma DocumentKept(o: Options, p: Proc, a: Answer)
    requires p.pc.RemoveToken? || Identified(p.pc)
    ensures var pc := Next(o, p, a).pc; pc == p.pc || pc.Finished? || (Identified(pc) && pc.doc == p.pc.doc)
  {
    hide NextLoading, NextEnrolling, NextStoring, Sanitize;
  }

  lemma IdentifiedStep(o: Options, w0: World, w: World, p: Proc, op: Op, a: Answer)
    requires Acting(o, w0, w, p, op, a) && (p.pc.RemoveToken? || Identified(p.pc))
    ensures PcOk(o, w0, Apply(w, op, a), Next(o, p, a).pc)
  {
    hide Stored, Issued, Identity, TokenKnown, MachineKnown, Next;
    var w' := Apply(w, op, a);
    DocumentKept(o, p, a);
    IdentifiedTouches(o, p, op, a);
    ApplyFrame(w, op, a);
    IdentityGrows(o, w0, w, w', p.pc.doc);
  }

  lemma IdentifiedTouches(o: Options, p: Proc, op: Op, a: Answer)
    requires WellConfigured(o) && Wants(o, p) == Some(op) && (p.pc.RemoveToken? || Identified(p.pc))
    ensures o.stateFile !in Touched(op, a)
  {
  }

  /** Whatever the answer, the invocation knows what it needs to go on. */
  lemma PcStep(o: Options, w0: World, w: World, p: Proc, op: Op, a: Answer)
    requires Acting(o, w0, w, p, op, a)
    ensures PcOk(o, w0, Apply(w, op, a), Advance(o, p, a).pc)
  {
    hide PcOk, FilesOk, Possible, Next, RegistrationRequest, HeartbeatRequest, DesiredRequest;
    var pc := p.pc;
    if pc.InspectState? || pc.ReadState? {
      LoadingStep(o, w0, w, p, op, a);
    } else if pc.ReadMachineId? || pc.InspectToken? || pc.ReadToken? {
      EnrollingStep(o, w0, w, p, op, a);
    } else if pc.Register? {
      RegisterStep(o, w0, w, p, op, a);
    } else if pc.MakeDirectory? || pc.InspectDirectory? || pc.MakeTemp? {
      PrepareStep(o, w0, w, p, op, a);
    } else if pc.RenameTemp? {
      RenameStep(o, w0, w, p, op, a);
    } else if Storing(pc) {
      WriteStep(o, w0, w, p, op, a);
    } else if pc.AbandonClose? || pc.AbandonRemove? {
      AbandonStep(o, w0, w, p, op, a);
    } else {
      IdentifiedStep(o, w0, w, p, op, a);
    }
  }

  /** An operation touches nothing but the invocation's own temporary file, a fresh one,
      the state directory if it is missing, the state file when renaming and the token
      when removing it. */
  lemma StepTouches(o: Options, w0: World, w: World, p: Proc, op: Op, a: Answer, path: Path)
    requires Acting(o, w0, w, p, op, a) && path in Touched(op, a)
    ensures || Held(p.pc) == Some(path)
            || (p.pc.MakeTemp? && path !in w.fs && path !in Reserved(o))
            || (p.pc.MakeDirectory? && path !in w.fs && path == o.stateDirectory)
            || (p.pc.RenameTemp? && path == o.stateFile)
            || (p.pc.RemoveToken? && path == o.tokenFile)
  {
    hide PcOk, FilesOk;
  }

  /** Only renaming writes the state file, only token removal removes the token, and
      nothing changes the machine ID. */
  lemma ReservedStep(o: Options, w0: World, w: World, p: Proc, op: Op, a: Answer)
    requires Acting(o, w0, w, p, op, a)
    ensures var w' := Apply(w, op, a);
            && SameAt(w, w', o.machineIdFile)
            && (SameAt(w, w', o.tokenFile) || (p.pc.RemoveToken? && o.tokenFile !in w'.fs))
            && (SameAt(w, w', o.stateFile) || (p.pc.RenameTemp? && a.Done?))
            && (SameAt(w, w', o.stateFile) || SameAt(w, w', o.tokenFile))
  {
    hide PcOk, FilesOk;
    ApplyFrame(w, op, a);
    forall path | path in Reserved(o) && path in Touched(op, a)
      ensures (p.pc.MakeDirectory? && path == o.stateDirectory)
              || (p.pc.RenameTemp? && path == o.stateFile)
              || (p.pc.RemoveToken? && path == o.tokenFile)
    {
      StepTouches(o, w0, w, p, op, a, path);
      HeldNotReserved(o, w0, w, p, path);
    }
  }

  lemma HeldNotReserved(o: Options, w0: World, w: World, p: Proc, path: Path)
    requires PcOk(o, w0, w, p.pc) && path in Reserved(o)
    ensures Held(p.pc) != Some(path)
  {
  }

  lemma FilesStep(o: Options, w0: World, w: World, p: Proc, op: Op, a: Answer)
    requires Acting(o, w0, w, p, op, a)
    ensures FilesOk(o, w0, Apply(w, op, a))
    ensures o.stateFile in w.fs ==> o.stateFile in Apply(w, op, a).fs
  {
    hide Stored, Issued, TokenKnown, MachineKnown, SecretFileError, StateFile, LoadNode;
    var w' := Apply(w, op, a);
    ApplyFrame(w, op, a);
    ReservedStep(o, w0, w, p, op, a);
    if p.pc.RenameTemp? && a.Done? {
      RenameStep(o, w0, w, p, op, a);
      IssuedStays(w0, w, op, a, p.pc.doc);
      StoredAs(w0, w', w'.fs[o.stateFile], p.pc.doc);
    } else if o.stateFile !in w0.fs && o.stateFile in w.fs {
      StoredGrows(w0, w, w', w.fs[o.stateFile]);
    }
  }

  lemma StoredAs(w0: World, w: World, n: Node, doc: StateDocument)
    requires Issued(w0, w, doc) && n == StateFile(doc)
    ensures Stored(w0, w, n)
  {
  }

  lemma FilesWire(o: Options, w0: World, w: World)
    requires FilesOk(o, w0, w)
    ensures w0.wire <= w.wire
  {
  }

  lemma WireStep(o: Options, w0: World, w: World, p: Proc, op: Op, a: Answer, x: Exchange)
    requires Acting(o, w0, w, p, op, a)
    requires forall y :: y in Since(w0, w) ==> RequestOk(o, w0, w, y.request)
    requires x in Since(w0, Apply(w, op, a))
    ensures RequestOk(o, w0, Apply(w, op, a), x.request)
  {
    hide PcOk, FilesOk, RequestOk, Possible, Wants, Apply, Since, Touched;
    var w' := Apply(w, op, a);
    FilesWire(o, w0, w);
    CallWire(w, op, a);
    FilesStep(o, w0, w, p, op, a);
    if x in Since(w0, w) {
      RequestOkGrows(o, w0, w, w', x.request);
    } else {
      SinceGrows(w0, w, w');
      CallStep(o, w0, w, p, op, a);
    }
  }

  /** What an operation adds to the requests. */
  lemma CallWire(w: World, op: Op, a: Answer)
    ensures var w' := Apply(w, op, a);
            && w.wire <= w'.wire
            && forall x :: x in w'.wire[|w.wire|..] ==> op.Call? && x.request == op.request
  {
  }

  /** A request is made by an invocation that knows what to send. */
  lemma CallStep(o: Options, w0: World, w: World, p: Proc, op: Op, a: Answer)
    requires Acting(o, w0, w, p, op, a)
    ensures op.Call? ==> RequestOk(o, w0, Apply(w, op, a), op.request)
  {
    hide TokenKnown, MachineKnown, Stored, Issued, LoadNode, Endpoints.NodeEndpoint;
    if op.Call? && !p.pc.Register? {
      IdentityGrows(o, w0, w, Apply(w, op, a), p.pc.doc);
      assert Addressed(op.request, p.pc.doc);
    }
  }

  // ---- every reachable state ----

  /** Nobody else's temporary file is touched. */
  lemma OthersUntouched(o: Options, w0: World, w: World, p: Proc, op: Op, a: Answer, other: Pc)
    requires Acting(o, w0, w, p, op, a) && PcOk(o, w0, w, other)
    requires Held(p.pc).Some? ==> Held(p.pc) != Held(other)
    requires Held(other).Some?
    ensures SameAt(w, Apply(w, op, a), Held(other).value)
    ensures Held(other) != Held(Advance(o, p, a).pc)
  {
    hide FilesOk, Identity, Issued, TokenKnown, MachineKnown, SecretFileError, StateFile;
    var t := Held(other).value;
    ApplyFrame(w, op, a);
    assert t in w.fs && t !in Reserved(o);
    if t in Touched(op, a) {
      StepTouches(o, w0, w, p, op, a, t);
    }
    HeldNext(o, p, op, a);
  }

  /** A temporary file is the one held before, or was just created. */
  lemma HeldNext(o: Options, p: Proc, op: Op, a: Answer)
    requires Wants(o, p) == Some(op)
    ensures var h := Held(Advance(o, p, a).pc);
            h.None? || h == Held(p.pc) || (p.pc.MakeTemp? && a.Temp? && h == Some(a.path))
  {
    hide Next, Wants, Held;
    assert Advance(o, p, a).pc == Next(o, p, a).pc;
    if Held(p.pc).Some? || p.pc.MakeTemp? {
      HeldKept(o, p, a);
    } else {
      HeldNever(o, p, a);
    }
  }

  lemma HeldKept(o: Options, p: Proc, a: Answer)
    requires Held(p.pc).Some? || p.pc.MakeTemp?
    ensures var h := Held(Next(o, p, a).pc);
            h.None? || h == Held(p.pc) || (p.pc.MakeTemp? && a.Temp? && h == Some(a.path))
  {
    hide NextLoading, NextEnrolling, NextReporting, ParseState, ParseToken, ParseGrant, Fingerprint;
    hide SecretFileError, DirectoryError, Sanitize, ErrorText;
  }

  lemma HeldNever(o: Options, p: Proc, a: Answer)
    requires Held(p.pc).None? && !p.pc.MakeTemp?
    ensures Held(Next(o, p, a).pc).None?
  {
    hide NextLoading, NextEnrolling, NextStoring, NextReporting;
    if InLoading(p.pc) {
      HeldLoading(p, a);
    } else if InEnrolling(p.pc) {
      HeldEnrolling(o, p, a);
    } else if InStoring(p.pc) {
      HeldPreparing(p, a);
    } else {
      HeldReporting(p, a);
    }
  }

  lemma HeldLoading(p: Proc, a: Answer)
    requires InLoading(p.pc)
    ensures Held(NextLoading(p, a).pc).None?
  {
    hide ParseState, SecretFileError, ErrorText;
  }

  lemma HeldEnrolling(o: Options, p: Proc, a: Answer)
    requires InEnrolling(p.pc)
    ensures Held(NextEnrolling(o, p, a).pc).None?
  {
    hide ParseToken, ParseGrant, Fingerprint, SecretFileError, Sanitize, ErrorText;
  }

  lemma HeldPreparing(p: Proc, a: Answer)
    requires p.pc.MakeDirectory? || p.pc.InspectDirectory?
    ensures Held(NextStoring(p, a).pc).None?
  {
    hide DirectoryError, ErrorText;
  }

  lemma HeldReporting(p: Proc, a: Answer)
    requires !InLoading(p.pc) && !InEnrolling(p.pc) && !InStoring(p.pc)
    ensures Held(NextReporting(p, a).pc).None?
  {
    hide Sanitize;
  }

  lemma ActInv(o: Options, w0: World, s: Sys, pid: nat, a: Answer)
    requires WellConfigured(o) && Inv(o, w0, s) && Enabled(o, s, Act(pid, a))
    ensures Inv(o, w0, After(o, s, Act(pid, a)))
  {
    hide PcOk, FilesOk, RequestOk, Possible, Advance, Wants, Apply;
    var w, p := s.world, s.procs[pid];
    var op := Wants(o, p).value;
    var s' := After(o, s, Act(pid, a));
    assert Acting(o, w0, w, p, op, a);
    FilesStep(o, w0, w, p, op, a);
    PcStep(o, w0, w, p, op, a);
    ApplyFrame(w, op, a);
    FilesWire(o, w0, w);
    forall q | q in s'.procs ensures PcOk(o, w0, s'.world, s'.procs[q].pc) {
      if q != pid {
        if Held(s.procs[q].pc).Some? {
          OthersUntouched(o, w0, w, p, op, a, s.procs[q].pc);
        }
        PcOkKept(o, w0, w, s'.world, s.procs[q].pc);
      }
    }
    forall q | q in s.procs && q != pid && Held(s.procs[q].pc).Some?
      ensures Held(s'.procs[q].pc) != Held(s'.procs[pid].pc)
    {
      OthersUntouched(o, w0, w, p, op, a, s.procs[q].pc);
    }
    forall x | x in Since(w0, s'.world) ensures RequestOk(o, w0, s'.world, x.request) {
      WireStep(o, w0, w, p, op, a, x);
    }
  }

  lemma EventInv(o: Options, w0: World, s: Sys, e: Event)
    requires WellConfigured(o) && Inv(o, w0, s) && Enabled(o, s, e)
    ensures Inv(o, w0, After(o, s, e))
  {
    hide FilesOk, RequestOk, Possible, Advance, Wants, Apply, Identity, Issued;
    match e
    case Spawn(pid, input) =>
      assert PcOk(o, w0, s.world, Start(input).pc);
    case Act(pid, a) => ActInv(o, w0, s, pid, a);
    case End(pid) =>
  }

  lemma {:induction false} Reachable(o: Options, s0: Sys, events: seq<Event>)
    requires WellConfigured(o) && s0.procs == map[] && Legal(o, s0, events)
    ensures Inv(o, s0.world, Run(o, s0, events))
    decreases |events|
  {
    hide TokenKnown, MachineKnown;
    if events != [] {
      var n := |events| - 1;
      Reachable(o, s0, events[..n]);
      EventInv(o, s0.world, Run(o, s0, events[..n]), events[n]);
    }
  }

  // ---- main results ----

  /** The state file is atomic. Over any overlapping, failing and crashing invocations the
      state path holds its original contents; or, if there were none, nothing or one
      complete mode-0600 encoding of a valid identity that Core issued to some run, which
      `loadState` accepts. */
  lemma StateFileAtomic(o: Options, s0: Sys, events: seq<Event>)
    requires WellConfigured(o) && s0.procs == map[] && Legal(o, s0, events)
    ensures var (w0, w) := (s0.world, Run(o, s0, events).world);
            if o.stateFile in w0.fs then o.stateFile in w.fs && w.fs[o.stateFile] == w0.fs[o.stateFile]
            else o.stateFile in w.fs ==>
              exists doc :: Issued(w0, w, doc) && w.fs[o.stateFile] == StateFile(doc)
                            && LoadNode(w.fs[o.stateFile]) == Ok(doc)
  {
    hide Issued, LoadNode, StateFile, PcOk, RequestOk;
    Reachable(o, s0, events);
    var w0, w := s0.world, Run(o, s0, events).world;
    if o.stateFile !in w0.fs && o.stateFile in w.fs {
      var doc :| Issued(w0, w, doc) && w.fs[o.stateFile] == StateFile(doc);
      IssuedValid(w0, w, doc);
      StoredStateLoads(doc);
    }
  }

  /** The token goes last. If the agent has removed the enrollment token, the state path
      already holds a document that `loadState` accepts and that Core issued in answer to
      a registration carrying that very token. */
  lemma TokenRemovedLast(o: Options, s0: Sys, events: seq<Event>)
    requires WellConfigured(o) && s0.procs == map[] && Legal(o, s0, events)
    requires o.tokenFile in s0.world.fs && o.tokenFile !in Run(o, s0, events).world.fs
    ensures var (w0, w) := (s0.world, Run(o, s0, events).world);
            && o.stateFile !in w0.fs && o.stateFile in w.fs
            && LoadNode(w.fs[o.stateFile]).Ok?
            && exists x :: x in Since(w0, w) && Grants(x, LoadNode(w.fs[o.stateFile]).value)
                           && TokenKnown(o, w0, x.request.bearer) && x.request.bearer == EnrollmentToken(o, w0)
  {
    hide LoadNode, StateFile, PcOk, EnrollmentToken, MachineFingerprint, TokenKnown, MachineKnown;
    hide FilesOk, Addressed, Identity;
    Reachable(o, s0, events);
    StateFileAtomic(o, s0, events);
    var w0, w := s0.world, Run(o, s0, events).world;
    TokenGone(o, w0, w);
    var doc :| Issued(w0, w, doc) && w.fs[o.stateFile] == StateFile(doc) && LoadNode(w.fs[o.stateFile]) == Ok(doc);
    var x :| x in Since(w0, w) && Grants(x, doc);
    assert RequestOk(o, w0, w, x.request);
    KnownIs(o, w0, x.request.bearer, x.request.body.fingerprint);
  }

  lemma TokenGone(o: Options, w0: World, w: World)
    requires FilesOk(o, w0, w) && o.tokenFile in w0.fs && o.tokenFile !in w.fs
    ensures o.stateFile !in w0.fs && o.stateFile in w.fs
  {
  }

  /** Identity is stable. From any moment at which no invocation is running and the state
      path exists, valid or not, nothing ever changes it or the token; no registration is
      made; every request goes to the node in the state file with its bearer; and if the
      file is invalid no request is made at all. */
  lemma IdentityStable(o: Options, s0: Sys, events: seq<Event>)
    requires WellConfigured(o) && s0.procs == map[] && Legal(o, s0, events)
    requires o.stateFile in s0.world.fs
    ensures var (w0, w) := (s0.world, Run(o, s0, events).world);
            && SameAt(w0, w, o.stateFile) && SameAt(w0, w, o.tokenFile)
            && (forall x :: x in Since(w0, w) ==>
                  LoadNode(w0.fs[o.stateFile]).Ok? && Addressed(x.request, LoadNode(w0.fs[o.stateFile]).value))
            && (LoadNode(w0.fs[o.stateFile]).Err? ==> w.wire == w0.wire)
  {
    hide LoadNode, Issued, PcOk, Addressed, TokenKnown, MachineKnown;
    Reachable(o, s0, events);
    var w0, w := s0.world, Run(o, s0, events).world;
    forall x | x in Since(w0, w)
      ensures LoadNode(w0.fs[o.stateFile]).Ok? && Addressed(x.request, LoadNode(w0.fs[o.stateFile]).value)
    {
      var doc :| Identity(o, w0, w, doc) && Addressed(x.request, doc);
    }
    if LoadNode(w0.fs[o.stateFile]).Err? {
      assert Since(w0, w) == [] by {
        if Since(w0, w) != [] { FirstIn(Since(w0, w)); }
      }
      assert w.wire == w0.wire + Since(w0, w);
    }
  }

  lemma FirstIn(s: seq<Exchange>)
    requires s != []
    ensures s[0] in s
  {
  }

  /** Retrying is stable. Until some run stores an identity the token file is untouched;
      and over all runs every registration carries the same bearer and fingerprint, those
      of the files as they were to begin with. */
  lemma RegistrationsRepeat(o: Options, s0: Sys, events: seq<Event>)
    requires WellConfigured(o) && s0.procs == map[] && Legal(o, s0, events)
    ensures var (w0, w) := (s0.world, Run(o, s0, events).world);
            && (o.stateFile !in w.fs ==> SameAt(w0, w, o.tokenFile))
            && SameAt(w0, w, o.machineIdFile)
            && (forall x :: x in Since(w0, w) && x.request.body.Registration? ==>
                  && TokenKnown(o, w0, x.request.bearer) && x.request.bearer == EnrollmentToken(o, w0)
                  && MachineKnown(o, w0, x.request.body.fingerprint)
                  && x.request.body.fingerprint == MachineFingerprint(o, w0))
            && (o.stateFile !in w.fs ==>
                  && EnrollmentToken(o, w) == EnrollmentToken(o, w0)
                  && MachineFingerprint(o, w) == MachineFingerprint(o, w0))
  {
    hide Issued, PcOk, Stored, Identity, Addressed, ParseToken, Fingerprint, TokenKnown, MachineKnown;
    hide EnrollmentToken, MachineFingerprint;
    Reachable(o, s0, events);
    var w0, w := s0.world, Run(o, s0, events).world;
    forall x | x in Since(w0, w) && x.request.body.Registration?
      ensures TokenKnown(o, w0, x.request.bearer) && x.request.bearer == EnrollmentToken(o, w0)
      ensures MachineKnown(o, w0, x.request.body.fingerprint)
      ensures x.request.body.fingerprint == MachineFingerprint(o, w0)
    {
      assert RequestOk(o, w0, w, x.request);
      KnownIs(o, w0, x.request.bearer, x.request.body.fingerprint);
    }
    SameFilesSame(o, w0, w);
  }

  lemma SameFilesSame(o: Options, w: World, w': World)
    ensures SameAt(w, w', o.tokenFile) ==> EnrollmentToken(o, w') == EnrollmentToken(o, w)
    ensures SameAt(w, w', o.machineIdFile) ==> MachineFingerprint(o, w') == MachineFingerprint(o, w)
  {
    hide ParseToken, Fingerprint;
  }

  /** Core answers one fingerprint with one node ID. */
  ghost predicate IdempotentCore(exchanges: seq<Exchange>) {
    forall x, y :: x in exchanges && y in exchanges
      && x.request.body.Registration? && y.request.body.Registration?
      && x.request.body.fingerprint == y.request.body.fingerprint
      && x.issued.Some? && y.issued.Some?
      ==> x.issued.value.nodeId == y.issued.value.nodeId
  }

  /** Every identity in use anywhere is that of node `id`. */
  ghost predicate OneNode(o: Options, w0: World, w: World, id: Bytes) {
    && (forall doc :: Identity(o, w0, w, doc) ==> doc.nodeId == id)
    && (forall x :: x in Since(w0, w) && !x.request.body.Registration? ==>
          x.request.endpoint in {Endpoints.NodeEndpoint(id, Endpoints.HEARTBEAT),
                                 Endpoints.NodeEndpoint(id, Endpoints.DESIRED_STATE)})
    && (o.stateFile in w.fs && LoadNode(w.fs[o.stateFile]).Ok? ==> LoadNode(w.fs[o.stateFile]).value.nodeId == id)
  }

  /** If Core is idempotent by fingerprint, one machine is one node: over all runs, however
      they overlap, fail and crash, there is one node ID that is stored and addressed. */
  lemma OneMachineOneNode(o: Options, s0: Sys, events: seq<Event>)
    requires WellConfigured(o) && s0.procs == map[] && Legal(o, s0, events)
    requires IdempotentCore(Since(s0.world, Run(o, s0, events).world))
    ensures exists id :: OneNode(o, s0.world, Run(o, s0, events).world, id)
  {
    hide LoadNode, StateFile, PcOk, TokenKnown, MachineKnown, ValidDocument;
    var w0, w := s0.world, Run(o, s0, events).world;
    Reachable(o, s0, events);
    if doc0 :| Identity(o, w0, w, doc0) {
      forall doc | Identity(o, w0, w, doc) ensures doc.nodeId == doc0.nodeId {
        SameNode(o, w0, w, doc0, doc);
      }
      IdentityNamesStored(o, s0, events);
      assert OneNode(o, w0, w, doc0.nodeId);
    } else {
      IdentityNamesStored(o, s0, events);
      assert OneNode(o, w0, w, []);
    }
  }

  lemma SameNode(o: Options, w0: World, w: World, a: StateDocument, b: StateDocument)
    requires Identity(o, w0, w, a) && Identity(o, w0, w, b)
    requires IdempotentCore(Since(w0, w))
    requires forall x :: x in Since(w0, w) ==> RequestOk(o, w0, w, x.request)
    ensures a.nodeId == b.nodeId
  {
    hide LoadNode, ValidDocument, Addressed, ParseToken, Fingerprint;
    if o.stateFile !in w0.fs {
      var x :| x in Since(w0, w) && Grants(x, a);
      var y :| y in Since(w0, w) && Grants(y, b);
      assert RequestOk(o, w0, w, x.request) && RequestOk(o, w0, w, y.request);
    }
  }

  /** Whatever the state path holds, if it loads, is an identity in use. */
  lemma IdentityNamesStored(o: Options, s0: Sys, events: seq<Event>)
    requires WellConfigured(o) && s0.procs == map[] && Legal(o, s0, events)
    ensures var (w0, w) := (s0.world, Run(o, s0, events).world);
            o.stateFile in w.fs && LoadNode(w.fs[o.stateFile]).Ok? ==>
              Identity(o, w0, w, LoadNode(w.fs[o.stateFile]).value)
  {
    hide LoadNode, StateFile, Issued;
    StateFileAtomic(o, s0, events);
  }

  // ---- invocations that do not overlap ----

  lemma {:induction false} SplitRun(o: Options, s0: Sys, events: seq<Event>, i: nat)
    requires Legal(o, s0, events) && i <= |events|
    ensures Legal(o, s0, events[..i]) && Legal(o, Run(o, s0, events[..i]), events[i..])
    ensures Run(o, Run(o, s0, events[..i]), events[i..]) == Run(o, s0, events)
    decreases |events|
  {
    hide After, Enabled;
    var n := |events| - 1;
    if i == |events| {
      assert events[..i] == events;
    } else {
      SplitRun(o, s0, events[..n], i);
      assert events[..n][..i] == events[..i];
      assert events[..n][i..] == events[i..][..n - i];
    }
  }

  /** Every invocation starts after the one before it has ended, as systemd arranges. */
  ghost predicate OneAtATime(o: Options, s0: Sys, events: seq<Event>)
    requires Legal(o, s0, events)
  {
    forall i :: 0 <= i < |events| && events[i].Spawn? ==>
      Legal(o, s0, events[..i]) && Run(o, s0, events[..i]).procs == map[]
  }

  /** A registered node never registers again. When invocations do not overlap, from the
      start of any one that finds the state path in existence, all later requests of all
      later invocations go to the node stored there, and the file stays as it is. */
  lemma RegisteredForGood(o: Options, s0: Sys, events: seq<Event>, i: nat)
    requires WellConfigured(o) && Legal(o, s0, events) && OneAtATime(o, s0, events)
    requires i < |events| && events[i].Spawn?
    requires o.stateFile in Run(o, s0, events[..i]).world.fs
    ensures var (w1, w) := (Run(o, s0, events[..i]).world, Run(o, s0, events).world);
            && SameAt(w1, w, o.stateFile) && w1.wire <= w.wire
            && forall x :: x in Since(w1, w) ==>
                 && !x.request.body.Registration?
                 && LoadNode(w1.fs[o.stateFile]).Ok? && Addressed(x.request, LoadNode(w1.fs[o.stateFile]).value)
  {
    hide LoadNode, Enabled, After;
    SplitRun(o, s0, events, i);
    var s1 := Run(o, s0, events[..i]);
    IdentityStable(o, s1, events[i..]);
    Reachable(o, s1, events[i..]);
  }
}
