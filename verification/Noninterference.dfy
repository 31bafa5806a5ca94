/** What has no influence: the results of synchronization in a caller's report never reach
    Core, the filesystem or the outcome, and neither do the bodies of HTTP errors. The
    caller's report stays as it is. */
module Noninterference {
  import opened World
  import opened Agent
  import opened Runs
  import Endpoints
  import Identifiers
  import StateCodec

  function Blur(input: Input): Input {
    input.(report := Snapshot(input.report))
  }

  function BlurProc(p: Proc): Proc {
    p.(input := Blur(p.input))
  }

  function BlurSys(s: Sys): Sys {
    s.(procs := map pid | pid in s.procs :: BlurProc(s.procs[pid]))
  }

  function BlurEvent(e: Event): Event {
    match e
    case Spawn(pid, input) => Spawn(pid, Blur(input))
    case Act(_, _) => e
    case End(_) => e
  }

  function BlurEvents(events: seq<Event>): (r: seq<Event>)
    ensures |r| == |events|
  {
    seq(|events|, i requires 0 <= i < |events| => BlurEvent(events[i]))
  }

  lemma WantsBlurred(o: Options, p: Proc)
    ensures Wants(o, BlurProc(p)) == Wants(o, p)
  {
  }

  lemma LoadingBlurred(p: Proc, a: Answer)
    requires InLoading(p.pc)
    ensures NextLoading(BlurProc(p), a) == BlurProc(NextLoading(p, a))
    ensures NextLoading(p, a).input == p.input
  {
    hide ParseState, SecretFileError, ErrorText, Snapshot;
  }

  lemma EnrollingBlurred(o: Options, p: Proc, a: Answer)
    requires InEnrolling(p.pc)
    ensures NextEnrolling(o, BlurProc(p), a) == BlurProc(NextEnrolling(o, p, a))
    ensures NextEnrolling(o, p, a).input == p.input
  {
    hide ParseToken, ParseGrant, Fingerprint, SecretFileError, Sanitize, ErrorText, Snapshot;
  }

  lemma StoringBlurred(p: Proc, a: Answer)
    requires InStoring(p.pc)
    ensures NextStoring(BlurProc(p), a) == BlurProc(NextStoring(p, a))
    ensures NextStoring(p, a).input == p.input
  {
    hide DirectoryError, ErrorText, Snapshot;
  }

  lemma ReportingBlurred(p: Proc, a: Answer)
    requires !InLoading(p.pc) && !InEnrolling(p.pc) && !InStoring(p.pc)
    ensures NextReporting(BlurProc(p), a) == BlurProc(NextReporting(p, a))
    ensures NextReporting(p, a).input == p.input
  {
    hide Sanitize, Snapshot, Identifiers.Reported;
  }

  lemma NextBlurred(o: Options, p: Proc, a: Answer)
    ensures Next(o, BlurProc(p), a) == BlurProc(Next(o, p, a))
    ensures Next(o, p, a).input == p.input
  {
    hide NextLoading, NextEnrolling, NextStoring, NextReporting;
    assert BlurProc(p).pc == p.pc;
    if InLoading(p.pc) {
      LoadingBlurred(p, a);
    } else if InEnrolling(p.pc) {
      EnrollingBlurred(o, p, a);
    } else if InStoring(p.pc) {
      StoringBlurred(p, a);
    } else {
      ReportingBlurred(p, a);
    }
  }

  lemma AdvanceBlurred(o: Options, p: Proc, a: Answer)
    ensures Advance(o, BlurProc(p), a) == BlurProc(Advance(o, p, a))
    ensures Advance(o, p, a).input == p.input
  {
    hide Next, Wants, BlurProc;
    WantsBlurred(o, p);
    NextBlurred(o, p, a);
    TraceBlurred(Next(o, p, a), p);
  }

  lemma TraceBlurred(next: Proc, p: Proc)
    ensures BlurProc(p).trace == p.trace
    ensures forall t: seq<Action> :: BlurProc(next.(trace := t)) == BlurProc(next).(trace := t)
    ensures forall t: seq<Action> :: next.(trace := t).input == next.input
  {
  }

  lemma EventBlurred(o: Options, s: Sys, e: Event)
    ensures Enabled(o, BlurSys(s), BlurEvent(e)) <==> Enabled(o, s, e)
    ensures Enabled(o, s, e) ==> After(o, BlurSys(s), BlurEvent(e)) == BlurSys(After(o, s, e))
  {
    hide Wants, Advance, Apply, Possible, BlurProc;
    match e
    case Spawn(pid, input) =>
      assert BlurProc(Start(input)) == Start(Blur(input)) by { StartBlurred(input); }
    case Act(pid, a) =>
      if pid in s.procs {
        WantsBlurred(o, s.procs[pid]);
        AdvanceBlurred(o, s.procs[pid], a);
      }
    case End(pid) =>
  }

  lemma StartBlurred(input: Input)
    ensures BlurProc(Start(input)) == Start(Blur(input))
  {
  }

  lemma {:induction false} RunBlurred(o: Options, s: Sys, events: seq<Event>)
    ensures Legal(o, BlurSys(s), BlurEvents(events)) <==> Legal(o, s, events)
    ensures Legal(o, s, events) ==> Run(o, BlurSys(s), BlurEvents(events)) == BlurSys(Run(o, s, events))
    decreases |events|
  {
    hide After, Enabled, BlurSys, BlurEvent;
    if events != [] {
      var n := |events| - 1;
      RunBlurred(o, s, events[..n]);
      assert BlurEvents(events)[..n] == BlurEvents(events[..n]);
      if Legal(o, s, events[..n]) {
        EventBlurred(o, Run(o, s, events[..n]), events[n]);
      }
    }
  }

  /** Two starts alike in all but the `Core` and `DesiredState` of the callers' reports. */
  predicate StartsAlike(e: Event, f: Event) {
    && e.Spawn? && f.Spawn? && e.pid == f.pid
    && e.input.enabled == f.input.enabled
    && e.input.agentVersion == f.input.agentVersion
    && e.input.report.local == f.input.report.local
  }

  /** Two histories alike but for these. */
  predicate AlikeButResults(events: seq<Event>, events': seq<Event>) {
    && |events| == |events'|
    && forall i :: 0 <= i < |events| ==> events[i] == events'[i] || StartsAlike(events[i], events'[i])
  }

  lemma AlikeBlurred(events: seq<Event>, events': seq<Event>)
    requires AlikeButResults(events, events')
    ensures BlurEvents(events) == BlurEvents(events')
  {
  }

  /** Nothing but the callers' own reports tells such histories apart: with the same
      answers of clock, filesystem and Core, both can happen or neither can; filesystems
      and requests are the same; and every invocation does, reports and returns the same. */
  lemma ResultsDoNotInterfere(o: Options, s0: Sys, events: seq<Event>, events': seq<Event>)
    requires AlikeButResults(events, events')
    ensures Legal(o, s0, events) <==> Legal(o, s0, events')
    ensures Legal(o, s0, events) ==>
              var (s, s') := (Run(o, s0, events), Run(o, s0, events'));
              && s.world == s'.world
              && s.procs.Keys == s'.procs.Keys
              && forall pid :: pid in s.procs ==>
                   s.procs[pid] == s'.procs[pid].(input := s.procs[pid].input)
  {
    hide After, Enabled, Legal, Run;
    AlikeBlurred(events, events');
    RunBlurred(o, s0, events);
    RunBlurred(o, s0, events');
    if Legal(o, s0, events) {
      SameBlur(Run(o, s0, events), Run(o, s0, events'));
    }
  }

  lemma SameBlur(s: Sys, s': Sys)
    requires BlurSys(s) == BlurSys(s')
    ensures s.world == s'.world && s.procs.Keys == s'.procs.Keys
    ensures forall pid :: pid in s.procs ==> s.procs[pid] == s'.procs[pid].(input := s.procs[pid].input)
  {
    var b, b' := BlurSys(s).procs, BlurSys(s').procs;
    assert s.procs.Keys == b.Keys && s'.procs.Keys == b'.Keys;
    forall pid | pid in s.procs ensures s.procs[pid] == s'.procs[pid].(input := s.procs[pid].input) {
      assert b[pid] == BlurProc(s.procs[pid]) && b'[pid] == BlurProc(s'.procs[pid]);
    }
  }

  /** No event changes the report an invocation was given. */
  lemma ReportUntouched(o: Options, s: Sys, e: Event, pid: nat)
    requires Enabled(o, s, e) && pid in s.procs && pid in After(o, s, e).procs
    ensures After(o, s, e).procs[pid].input == s.procs[pid].input
  {
    hide Wants, Advance, Apply, Possible;
    if e.Act? && e.pid == pid {
      AdvanceBlurred(o, s.procs[pid], e.answer);
    }
  }

  /** The caller's report is what it was for as long as the invocation lives, whatever it
      and the others do. */
  lemma {:induction false} ReportKept(o: Options, s: Sys, events: seq<Event>, pid: nat)
    requires Legal(o, s, events) && pid in s.procs
    requires End(pid) !in events
    ensures pid in Run(o, s, events).procs && Run(o, s, events).procs[pid].input == s.procs[pid].input
    decreases |events|
  {
    hide After, Enabled;
    if events != [] {
      var n := |events| - 1;
      EndsNever(events, pid);
      ReportKept(o, s, events[..n], pid);
      StaysAlive(o, Run(o, s, events[..n]), events[n], pid);
      ReportUntouched(o, Run(o, s, events[..n]), events[n], pid);
    }
  }

  lemma EndsNever(events: seq<Event>, pid: nat)
    requires events != [] && End(pid) !in events
    ensures events[|events| - 1] != End(pid) && End(pid) !in events[..|events| - 1]
  {
  }

  lemma StaysAlive(o: Options, s: Sys, e: Event, pid: nat)
    requires Enabled(o, s, e) && pid in s.procs && e != End(pid)
    ensures pid in After(o, s, e).procs
  {
    hide Wants, Advance, Apply, Possible;
  }

  // ---- the bodies of HTTP errors ----

  /** The same answer but for the body that came with an HTTP error. */
  predicate SameButBody(a: Answer, b: Answer) {
    || a == b
    || (&& a.Rejected? && b.Rejected? && a.lost == b.lost
        && a.error.Http? && b.error.Http? && a.error.status == b.error.status)
  }

  predicate EventsButBody(e: Event, f: Event) {
    e == f || (e.Act? && f.Act? && e.pid == f.pid && SameButBody(e.answer, f.answer))
  }

  /** Two histories alike but for the bodies of HTTP errors. */
  predicate AlikeButBodies(events: seq<Event>, events': seq<Event>) {
    |events| == |events'| && forall i :: 0 <= i < |events| ==> EventsButBody(events[i], events'[i])
  }

  /** The same invocation but for what its trace recorded. */
  predicate SameButTrace(p: Proc, q: Proc) {
    p.pc == q.pc && p.input == q.input && p.core == q.core && p.warnings == q.warnings
  }

  predicate SystemsAlike(s: Sys, t: Sys) {
    && s.world == t.world && s.procs.Keys == t.procs.Keys
    && forall pid :: pid in s.procs ==> SameButTrace(s.procs[pid], t.procs[pid])
  }

  lemma WantsUntraced(o: Options, p: Proc, q: Proc)
    requires SameButTrace(p, q)
    ensures Wants(o, p) == Wants(o, q)
  {
    hide StateCodec.Encode, Endpoints.NodeEndpoint;
  }

  lemma PossibleUnread(reserved: set<Path>, w: World, op: Op, a: Answer, b: Answer)
    requires SameButBody(a, b)
    ensures Possible(reserved, w, op, a) <==> Possible(reserved, w, op, b)
    ensures Apply(w, op, a) == Apply(w, op, b)
  {
  }

  lemma LoadingUntraced(p: Proc, trace: seq<Action>, a: Answer)
    requires InLoading(p.pc)
    ensures NextLoading(p.(trace := trace), a) == NextLoading(p, a).(trace := trace)
  {
    hide ParseState, SecretFileError, ErrorText;
  }

  lemma EnrollingUntraced(o: Options, p: Proc, trace: seq<Action>, a: Answer)
    requires InEnrolling(p.pc)
    ensures NextEnrolling(o, p.(trace := trace), a) == NextEnrolling(o, p, a).(trace := trace)
  {
    hide ParseToken, ParseGrant, Fingerprint, SecretFileError, Sanitize, ErrorText;
  }

  lemma StoringUntraced(p: Proc, trace: seq<Action>, a: Answer)
    requires InStoring(p.pc)
    ensures NextStoring(p.(trace := trace), a) == NextStoring(p, a).(trace := trace)
  {
    hide DirectoryError, ErrorText;
  }

  lemma ReportingUntraced(p: Proc, trace: seq<Action>, a: Answer)
    requires !InLoading(p.pc) && !InEnrolling(p.pc) && !InStoring(p.pc)
    ensures NextReporting(p.(trace := trace), a) == NextReporting(p, a).(trace := trace)
  {
    hide Identifiers.Reported, Sanitize;
  }

  lemma NextUntraced(o: Options, p: Proc, q: Proc, a: Answer)
    requires SameButTrace(p, q)
    ensures SameButTrace(Next(o, p, a), Next(o, q, a))
  {
    hide NextLoading, NextEnrolling, NextStoring, NextReporting;
    var trace := q.trace;
    assert q == p.(trace := trace);
    if InLoading(p.pc) {
      LoadingUntraced(p, trace, a);
    } else if InEnrolling(p.pc) {
      EnrollingUntraced(o, p, trace, a);
    } else if InStoring(p.pc) {
      StoringUntraced(p, trace, a);
    } else {
      ReportingUntraced(p, trace, a);
    }
  }

  /** Of an HTTP error nothing but the status is looked at. */
  lemma NextUnread(o: Options, p: Proc, a: Answer, b: Answer)
    requires a.Rejected? && b.Rejected? && a.error.Http? && b.error.Http? && a.error.status == b.error.status
    ensures Next(o, p, a) == Next(o, p, b)
  {
    hide NextLoading, NextEnrolling, NextStoring, NextReporting;
    if InLoading(p.pc) {
      LoadingUnread(p, a, b);
    } else if InEnrolling(p.pc) {
      EnrollingUnread(o, p, a, b);
    } else if InStoring(p.pc) {
      StoringUnread(p, a, b);
    } else {
      ReportingUnread(p, a, b);
    }
  }

  lemma LoadingUnread(p: Proc, a: Answer, b: Answer)
    requires InLoading(p.pc) && a.Rejected? && b.Rejected?
    ensures NextLoading(p, a) == NextLoading(p, b)
  {
    hide ParseState, SecretFileError;
  }

  lemma EnrollingUnread(o: Options, p: Proc, a: Answer, b: Answer)
    requires InEnrolling(p.pc) && a.Rejected? && b.Rejected? && Sanitize(a.error) == Sanitize(b.error)
    ensures NextEnrolling(o, p, a) == NextEnrolling(o, p, b)
  {
    hide ParseToken, ParseGrant, Fingerprint, SecretFileError, Sanitize;
  }

  lemma StoringUnread(p: Proc, a: Answer, b: Answer)
    requires InStoring(p.pc) && a.Rejected? && b.Rejected?
    ensures NextStoring(p, a) == NextStoring(p, b)
  {
    hide DirectoryError;
  }

  lemma ReportingUnread(p: Proc, a: Answer, b: Answer)
    requires !InLoading(p.pc) && !InEnrolling(p.pc) && !InStoring(p.pc)
    requires a.Rejected? && b.Rejected? && Sanitize(a.error) == Sanitize(b.error)
    ensures NextReporting(p, a) == NextReporting(p, b)
  {
    hide Sanitize;
  }

  lemma AdvanceUnread(o: Options, p: Proc, q: Proc, a: Answer, b: Answer)
    requires SameButTrace(p, q) && SameButBody(a, b)
    ensures SameButTrace(Advance(o, p, a), Advance(o, q, b))
  {
    hide Wants, Next;
    WantsUntraced(o, p, q);
    NextUntraced(o, p, q, a);
    if a != b {
      NextUnread(o, q, a, b);
    }
  }

  lemma EventUnread(o: Options, s: Sys, t: Sys, e: Event, f: Event)
    requires SystemsAlike(s, t) && EventsButBody(e, f)
    ensures Enabled(o, s, e) <==> Enabled(o, t, f)
    ensures Enabled(o, s, e) ==> SystemsAlike(After(o, s, e), After(o, t, f))
  {
    hide Wants, Advance, Apply, Possible, SameButBody, SameButTrace;
    SameAnswer();
    match e
    case Spawn(pid, input) => SameProc(Start(input));
    case Act(pid, a) =>
      if pid in s.procs {
        WantsUntraced(o, s.procs[pid], t.procs[pid]);
        AdvanceUnread(o, s.procs[pid], t.procs[pid], a, f.answer);
        if Wants(o, s.procs[pid]).Some? {
          PossibleUnread(Reserved(o), s.world, Wants(o, s.procs[pid]).value, a, f.answer);
        }
      }
    case End(_) =>
  }

  lemma SameAnswer()
    ensures forall a :: SameButBody(a, a)
  {
  }

  lemma SameProc(p: Proc)
    ensures SameButTrace(p, p)
  {
  }

  lemma {:induction false} RunUnread(o: Options, s: Sys, events: seq<Event>, events': seq<Event>)
    requires AlikeButBodies(events, events')
    ensures Legal(o, s, events) <==> Legal(o, s, events')
    ensures Legal(o, s, events) ==> SystemsAlike(Run(o, s, events), Run(o, s, events'))
    decreases |events|
  {
    hide After, Enabled, SystemsAlike, EventsButBody;
    if events == [] {
      SystemItself(s);
    } else {
      var n := |events| - 1;
      RunUnread(o, s, events[..n], events'[..n]);
      if Legal(o, s, events[..n]) {
        EventUnread(o, Run(o, s, events[..n]), Run(o, s, events'[..n]), events[n], events'[n]);
      }
    }
  }

  lemma SystemItself(s: Sys)
    ensures SystemsAlike(s, s)
  {
  }

  /** The body of an HTTP error has no influence: histories that differ in nothing else can
      both happen or neither can, and leave the same filesystem, requests, summaries,
      warnings and desired states. */
  lemma ErrorBodiesDoNotInterfere(o: Options, s0: Sys, events: seq<Event>, events': seq<Event>)
    requires AlikeButBodies(events, events')
    ensures Legal(o, s0, events) <==> Legal(o, s0, events')
    ensures Legal(o, s0, events) ==>
              var (s, s') := (Run(o, s0, events), Run(o, s0, events'));
              && s.world == s'.world && s.procs.Keys == s'.procs.Keys
              && forall pid :: pid in s.procs ==>
                   && s.procs[pid].pc == s'.procs[pid].pc
                   && s.procs[pid].core == s'.procs[pid].core
                   && s.procs[pid].warnings == s'.procs[pid].warnings
  {
    hide Legal, Run;
    RunUnread(o, s0, events, events');
  }
}
