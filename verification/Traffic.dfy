/** What is sent, over whole histories: every request carries an acceptable bearer and goes
    to an endpoint that the client accepts and resolves below its base. */
module Traffic {
  import opened Text
  import opened World
  import opened Agent
  import opened Runs
  import opened Summary
  import CoreClient
  import Endpoints
  import StateCodec
  import Noninterference

  /** The path a request is to be sent to, below the folder of the base. */
  predicate LeadsTo(base: CoreClient.Base, r: Request, tail: Bytes) {
    CoreClient.Resolve(base, r.endpoint) ==
      Ok(CoreClient.Resolved(CoreClient.HTTPS, base.host,
                             Endpoints.Folder(CoreClient.EscapedPath(base.form)) + tail, []))
  }

  function NodePath(id: Bytes, suffix: string): Bytes {
    Ascii("v1/nodes/") + id + Ascii(suffix)
  }

  /** A registration goes to v1/nodes/register, any other request to the heartbeat or the
      desired state of a node, v1/nodes/ID/...; whatever the base. */
  ghost predicate WellSent(base: CoreClient.Base, r: Request) {
    && CoreClient.ValidBearer(r.bearer)
    && match r.body
       case Registration(_, _, _, _) => r.verb == POST && LeadsTo(base, r, Ascii("v1/nodes/register"))
       case Heartbeat(_, _, _, _) =>
         r.verb == POST
         && exists id :: CoreClient.ValidNodeId(id) && LeadsTo(base, r, NodePath(id, "/heartbeat"))
       case NoBody =>
         r.verb == GET
         && exists id :: CoreClient.ValidNodeId(id) && LeadsTo(base, r, NodePath(id, "/desired-state"))
  }

  lemma TokenIsBearer(o: Options, w: World, token: Bytes)
    requires TokenKnown(o, w, token)
    ensures CoreClient.ValidBearer(token)
  {
    hide CoreClient.ValidBearer;
  }

  /** Only a valid document identifies a node. */
  lemma IdentityIsValid(o: Options, w0: World, w: World, doc: StateDocument)
    requires Identity(o, w0, w, doc)
    ensures ValidDocument(doc)
  {
    hide LoadNode, ValidDocument;
    if o.stateFile in w0.fs {
      LoadedIsValid(w0.fs[o.stateFile]);
    }
  }

  lemma AddressedWellSent(base: CoreClient.Base, r: Request, doc: StateDocument)
    requires Addressed(r, doc) && ValidDocument(doc)
    ensures WellSent(base, r)
  {
    hide Endpoints.NodeEndpoint, CoreClient.Resolve, Endpoints.Folder, CoreClient.ValidNodeId, CoreClient.ValidBearer;
    var suffix := if r.body.Heartbeat? then Endpoints.HEARTBEAT else Endpoints.DESIRED_STATE;
    Endpoints.NodeEndpointResolves(base, doc.nodeId, suffix);
    Endpoints.EndpointTexts(doc.nodeId);
    assert LeadsTo(base, r, NodePath(doc.nodeId, if r.body.Heartbeat? then "/heartbeat" else "/desired-state"));
  }

  lemma RegistrationWellSent(base: CoreClient.Base, r: Request)
    requires r.body.Registration? && r.verb == POST && r.endpoint == Endpoints.REGISTRATION
    requires CoreClient.ValidBearer(r.bearer)
    ensures WellSent(base, r)
  {
    hide CoreClient.Resolve, Endpoints.Folder, CoreClient.ValidBearer;
    Endpoints.RegistrationResolves(base);
    Endpoints.EndpointTexts([]);
  }

  /** In any history, whatever the base, every request has a bearer that the client accepts
      and an endpoint that it accepts and resolves to the folder of the base followed by
      v1/nodes/register, or by v1/nodes, a valid node ID and the suffix of its kind. */
  lemma EveryRequestWellSent(o: Options, s0: Sys, events: seq<Event>, base: CoreClient.Base)
    requires WellConfigured(o) && s0.procs == map[] && Legal(o, s0, events)
    ensures var (w0, w) := (s0.world, Run(o, s0, events).world);
            forall x :: x in Since(w0, w) ==> WellSent(base, x.request)
  {
    hide Legal, Run, Identity, WellSent, FilesOk, PcOk, Addressed, CoreClient.ValidBearer, Since, ValidDocument;
    hide TokenKnown, MachineKnown;
    Reachable(o, s0, events);
    var w0, w := s0.world, Run(o, s0, events).world;
    forall x | x in Since(w0, w) ensures WellSent(base, x.request) {
      assert RequestOk(o, w0, w, x.request);
      if x.request.body.Registration? {
        TokenIsBearer(o, w0, x.request.bearer);
        RegistrationWellSent(base, x.request);
      } else {
        var doc :| Identity(o, w0, w, doc) && Addressed(x.request, doc);
        IdentityIsValid(o, w0, w, doc);
        AddressedWellSent(base, x.request, doc);
      }
    }
  }

  // ---- what the bodies tell ----

  /** The body was made by one of the invocations, of the report and version it was given
      and, in a heartbeat, of the time it was told. */
  predicate ToldBy(events: seq<Event>, pid: nat, input: Input, body: Body) {
    && Spawn(pid, input) in events && input.enabled
    && TellsLocal(input, body)
    && (body.Heartbeat? ==> Act(pid, Time(body.sentAt)) in events)
  }

  ghost predicate Told(events: seq<Event>, body: Body) {
    body.NoBody? || exists pid, input :: ToldBy(events, pid, input, body)
  }

  /** An invocation has the input it was started with and the time it was told. */
  predicate KnowsEvents(events: seq<Event>, pid: nat, p: Proc) {
    && Spawn(pid, p.input) in events
    && (!p.pc.Finished? ==> p.input.enabled)
    && (p.pc.SendHeartbeat? ==> Act(pid, Time(p.pc.sentAt)) in events)
  }

  ghost predicate BodiesOk(w0: World, events: seq<Event>, s: Sys) {
    && w0.wire <= s.world.wire
    && (forall pid :: pid in s.procs ==> KnowsEvents(events, pid, s.procs[pid]))
    && (forall x :: x in Since(w0, s.world) ==> Told(events, x.request.body))
  }

  lemma ToldStays(events: seq<Event>, e: Event, body: Body)
    requires Told(events, body)
    ensures Told(events + [e], body)
  {
    hide TellsLocal;
    if !body.NoBody? {
      var pid, input :| ToldBy(events, pid, input, body);
      assert ToldBy(events + [e], pid, input, body);
    }
  }

  /** What an answer leads to is at most what the invocation knew and that answer. */
  lemma AdvanceKnows(o: Options, events: seq<Event>, pid: nat, p: Proc, a: Answer)
    requires KnowsEvents(events, pid, p) && Wants(o, p).Some?
    ensures KnowsEvents(events + [Act(pid, a)], pid, Advance(o, p, a))
  {
    hide Wants, Next;
    Noninterference.AdvanceBlurred(o, p, a);
    RunningEnabled(o, p);
    TimeTold(o, p, a);
  }

  lemma RunningEnabled(o: Options, p: Proc)
    ensures Wants(o, p).Some? <==> !p.pc.Finished?
  {
    hide StateCodec.Encode, RegistrationRequest, HeartbeatRequest, DesiredRequest;
  }

  lemma TimeTold(o: Options, p: Proc, a: Answer)
    ensures var next := Next(o, p, a);
            next.pc.SendHeartbeat? ==> next.pc == p.pc || a == Time(next.pc.sentAt)
  {
    hide ParseState, ParseToken, ParseGrant, Fingerprint, ErrorText, SecretFileError, DirectoryError, Sanitize;
    hide NextLoading, NextEnrolling, NextStoring;
    if InLoading(p.pc) {
      Noninterference.LoadingBlurred(p, a);
      LoadingSilent(p, a);
    } else if InEnrolling(p.pc) {
      EnrollingSilent(o, p, a);
    } else if InStoring(p.pc) {
      StoringSilent(p, a);
    }
  }

  lemma LoadingSilent(p: Proc, a: Answer)
    requires InLoading(p.pc)
    ensures !NextLoading(p, a).pc.SendHeartbeat?
  {
    hide ParseState, SecretFileError, ErrorText;
  }

  lemma EnrollingSilent(o: Options, p: Proc, a: Answer)
    requires InEnrolling(p.pc)
    ensures !NextEnrolling(o, p, a).pc.SendHeartbeat?
  {
    hide ParseToken, ParseGrant, Fingerprint, SecretFileError, Sanitize, ErrorText;
  }

  lemma StoringSilent(p: Proc, a: Answer)
    requires InStoring(p.pc)
    ensures !NextStoring(p, a).pc.SendHeartbeat?
  {
    hide DirectoryError, ErrorText;
  }

  /** The body of a request tells what the invocation knows. */
  lemma WantsTold(o: Options, events: seq<Event>, pid: nat, p: Proc)
    requires KnowsEvents(events, pid, p) && Wants(o, p).Some? && Wants(o, p).value.Call?
    ensures Told(events, Wants(o, p).value.request.body)
  {
    hide StateCodec.Encode, Endpoints.NodeEndpoint;
    var body := Wants(o, p).value.request.body;
    assert body.NoBody? || ToldBy(events, pid, p.input, body);
  }

  lemma EventTold(o: Options, w0: World, events: seq<Event>, s: Sys, e: Event)
    requires BodiesOk(w0, events, s) && Enabled(o, s, e)
    ensures BodiesOk(w0, events + [e], After(o, s, e))
  {
    hide Wants, Advance, Apply, Possible, Told, Since;
    var s' := After(o, s, e);
    if e.Act? {
      var (p, op) := (s.procs[e.pid], Wants(o, s.procs[e.pid]).value);
      CallWire(s.world, op, e.answer);
      AdvanceKnows(o, events, e.pid, p, e.answer);
      if op.Call? {
        WantsTold(o, events, e.pid, p);
        ToldStays(events, e, op.request.body);
      }
    } else if e.Spawn? {
      StartKnows(events, e.pid, e.input);
    }
    SinceGrows(w0, s.world, s'.world);
    forall x | x in Since(w0, s'.world) ensures Told(events + [e], x.request.body) {
      if x in Since(w0, s.world) {
        ToldStays(events, e, x.request.body);
      }
    }
  }

  lemma StartKnows(events: seq<Event>, pid: nat, input: Input)
    ensures KnowsEvents(events + [Spawn(pid, input)], pid, Start(input))
  {
  }

  lemma NothingTold(s: Sys)
    requires s.procs == map[]
    ensures BodiesOk(s.world, [], s)
  {
  }

  lemma {:induction false} BodiesReachable(o: Options, s0: Sys, events: seq<Event>)
    requires s0.procs == map[] && Legal(o, s0, events)
    ensures BodiesOk(s0.world, events, Run(o, s0, events))
    decreases |events|
  {
    hide BodiesOk, Enabled, After;
    if events == [] {
      NothingTold(s0);
    } else {
      var n := |events| - 1;
      BodiesReachable(o, s0, events[..n]);
      EventTold(o, s0.world, events[..n], Run(o, s0, events[..n]), events[n]);
      assert events[..n] + [events[n]] == events;
    }
  }

  /** In any history every registration and every heartbeat was made by an enabled
      invocation and tells schema 1, the version and the local sections of the very report
      that this invocation was given, and neither a Core summary nor a desired state; a
      heartbeat was sent at a time that its clock answered. */
  lemma EveryBodyTold(o: Options, s0: Sys, events: seq<Event>)
    requires s0.procs == map[] && Legal(o, s0, events)
    ensures var (w0, w) := (s0.world, Run(o, s0, events).world);
            forall x :: x in Since(w0, w) && !x.request.body.NoBody? ==>
              exists pid, input :: ToldBy(events, pid, input, x.request.body)
  {
    hide Legal, Run, KnowsEvents, Since, ToldBy;
    BodiesReachable(o, s0, events);
    var w0, w := s0.world, Run(o, s0, events).world;
    forall x | x in Since(w0, w) && !x.request.body.NoBody?
      ensures exists pid, input :: ToldBy(events, pid, input, x.request.body)
    {
      assert Told(events, x.request.body);
    }
  }
}
