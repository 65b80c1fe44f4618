/** The local service: who is answered, and the durable counters that survive its crashes. */
module ServiceAccounting {
  import opened WordArithmetic
  import opened Wrappers

  const PROTOCOL_VERSION: nat := 1

  // ------------------------------------------------------------------ judging a request

  /** A request whose shape has been checked, or the reason it has none. */
  datatype Request =
    | BadFrame
    | BadShape
    | Request(protocol: string, minimum: nat, maximum: nat, credential: string, command: string)

  datatype Verdict = Refused(authenticated: bool, error: string) | Accepted(command: string)

  predicate Supported(command: string) { command == "ping" || command == "status" || command == "shutdown" }

  function Judge(r: Request, credential: string): Verdict {
    match r
    case BadFrame => Refused(false, "invalid_or_oversized_frame")
    case BadShape => Refused(false, "invalid_request_shape")
    case Request(protocol, minimum, maximum, supplied, command) =>
      if minimum >= 0x1_0000_0000 || maximum >= 0x1_0000_0000 then Refused(false, "invalid_request_shape")
      else if protocol != "ubridge.local-ipc" then Refused(false, "protocol_identity_not_supported")
      else if minimum > PROTOCOL_VERSION || maximum < PROTOCOL_VERSION || minimum > maximum then
        Refused(false, "protocol_version_not_supported")
      else if supplied != credential then Refused(false, "authentication_failed")
      else if !Supported(command) then Refused(true, "command_not_supported")
      else Accepted(command)
  }

  // ------------------------------------------------------------------ the state on disk and in memory

  datatype Persistent = Persistent(starts: nat, requests: nat, uncleanRestarts: nat, clean: bool, lastCommand: string)

  const NEVER_STARTED: Persistent := Persistent(0, 0, 0, true, "")

  function Increment(counter: nat): nat { (counter + 1) % WORD }

  datatype Response = Response(
    authenticated: bool, accepted: bool, selectedVersion: nat, requestCount: nat, uncleanRestarts: nat,
    status: string, error: string)

  /** The response to a request, with the counters of the state in memory. */
  function Answer(verdict: Verdict, s: Persistent): Response {
    match verdict
    case Refused(authenticated, error) =>
      Response(authenticated, false, if authenticated then PROTOCOL_VERSION else 0, s.requests, s.uncleanRestarts,
               "rejected", error)
    case Accepted(command) =>
      Response(true, true, PROTOCOL_VERSION, s.requests, s.uncleanRestarts,
               if command == "shutdown" then "stopping" else "ready", "")
  }

  /** What actually happened, counted without bounds: only persisted events count. */
  datatype History = History(starts: nat, cleanStops: nat, uncleanRestarts: nat, accepted: nat)

  /** `unsaved` says that the state in memory has to be saved before the response goes out. */
  datatype Server =
    | Down
    | Serving(state: Persistent, handled: nat)
    | Answering(state: Persistent, handled: nat, response: Response, unsaved: bool)
    | Stopping(state: Persistent)

  /** A response as it was sent: what the state file held then, and how many commands had been persisted. */
  datatype Sent = Sent(response: Response, file: Option<Persistent>, persisted: nat)

  datatype World = World(disk: Option<Persistent>, server: Server, history: History, replies: seq<Sent>)

  const FIRST: World := World(None, Down, History(0, 0, 0, 0), [])

  /** The maximum number of requests is zero for no limit. */
  datatype Setup = Setup(credential: string, maximumRequests: nat)

  /**
   * `saved` tells whether writing the state file succeeded; a failed write leaves the old file in place and ends
   * the server. A response that cannot be delivered is lost, and the server goes on.
   */
  datatype Step =
    | Boot(saved: bool)
    | Receive(request: Request)
    | Persist(saved: bool)
    | Reply(delivered: bool)
    | Finish(saved: bool)
    | Crash

  function Loaded(w: World): Persistent { if w.disk.Some? then w.disk.value else NEVER_STARTED }

  function Booted(s: Persistent): Persistent {
    s.(uncleanRestarts := if s.clean then s.uncleanRestarts else Increment(s.uncleanRestarts),
       starts := Increment(s.starts), clean := false, lastCommand := "startup")
  }

  /** Judging a request, all in memory. */
  function Received(c: Setup, s: Persistent, handled: nat, r: Request): Server {
    match Judge(r, c.credential)
    case Refused(authenticated, error) => Answering(s, handled, Answer(Refused(authenticated, error), s), false)
    case Accepted(command) =>
      var counted := s.(requests := Increment(s.requests), lastCommand := command);
      Answering(counted, handled + 1, Answer(Accepted(command), counted), true)
  }

  /** The loop condition of the server. */
  function Continued(c: Setup, s: Persistent, handled: nat, status: string): Server {
    if status == "stopping" || (c.maximumRequests != 0 && handled >= c.maximumRequests) then Stopping(s)
    else Serving(s, handled)
  }

  function Next(c: Setup, w: World, step: Step): World {
    match step
    case Boot(saved) =>
      if !w.server.Down? || !saved then w
      else
        var s := Booted(Loaded(w));
        World(Some(s), Serving(s, 0),
              w.history.(starts := w.history.starts + 1,
                         uncleanRestarts := w.history.uncleanRestarts + (if Loaded(w).clean then 0 else 1)),
              w.replies)
    case Receive(r) =>
      if !w.server.Serving? then w else w.(server := Received(c, w.server.state, w.server.handled, r))
    case Persist(saved) =>
      if !w.server.Answering? || !w.server.unsaved then w
      else if !saved then w.(server := Down)
      else
        w.(disk := Some(w.server.state), server := w.server.(unsaved := false),
           history := w.history.(accepted := w.history.accepted + 1))
    case Reply(delivered) =>
      if !w.server.Answering? || w.server.unsaved then w
      else
        w.(server := Continued(c, w.server.state, w.server.handled, w.server.response.status),
           replies := if delivered then w.replies + [Sent(w.server.response, w.disk, w.history.accepted)]
                      else w.replies)
    case Finish(saved) =>
      if !w.server.Stopping? then w
      else if !saved then w.(server := Down)
      else
        var s := w.server.state.(clean := true, lastCommand := "shutdown");
        World(Some(s), Down, w.history.(cleanStops := w.history.cleanStops + 1), w.replies)
    case Crash => w.(server := Down)
  }

  function Run(c: Setup, w: World, steps: seq<Step>): World {
    if steps == [] then w else Next(c, Run(c, w, steps[..|steps| - 1]), steps[|steps| - 1])
  }

  lemma {:induction false} RunAppend(c: Setup, w: World, steps: seq<Step>, step: Step)
    ensures Run(c, w, steps + [step]) == Next(c, Run(c, w, steps), step)
  {
    assert (steps + [step])[..|steps|] == steps;
  }

  lemma {:induction false} RunConcat(c: Setup, w: World, a: seq<Step>, b: seq<Step>)
    ensures Run(c, w, a + b) == Run(c, Run(c, w, a), b)
  {
    if b == [] {
      assert a + b == a;
    } else {
      var front, last := b[..|b| - 1], b[|b| - 1];
      RunConcat(c, w, a, front);
      RunAppend(c, w, a + front, last);
      assert a + b == a + front + [last];
    }
  }

  lemma RunOfThree(c: Setup, w: World, first: Step, second: Step, third: Step)
    ensures Run(c, w, [first, second, third]) == Next(c, Next(c, Next(c, w, first), second), third)
  {
    assert Run(c, w, []) == w;
    RunAppend(c, w, [], first);
    RunAppend(c, w, [first], second);
    RunAppend(c, w, [first, second], third);
    assert [] + [first] == [first] && [first] + [second] == [first, second];
    assert [first, second] + [third] == [first, second, third];
  }

  // ------------------------------------------------------------------ accounting over runs with crashes

  /** The file agrees with what happened, and every start is accounted for. */
  ghost predicate Accounted(s: Persistent, h: History) {
    && s.starts == h.starts % WORD
    && s.requests == h.accepted % WORD
    && s.uncleanRestarts == h.uncleanRestarts % WORD
    && h.starts == h.cleanStops + h.uncleanRestarts + (if s.clean then 0 else 1)
  }

  /** A response carries what the file held when it was sent; an accepted one, the number of its own command. */
  ghost predicate Truthful(sent: Sent) {
    && sent.file.Some?
    && sent.response.requestCount == sent.file.value.requests == sent.persisted % WORD
    && sent.response.uncleanRestarts == sent.file.value.uncleanRestarts
    && (sent.response.accepted ==> sent.persisted > 0 && !sent.file.value.clean)
  }

  /** Every response is truthful, and no two accepted ones share a number. */
  ghost predicate RepliesPersisted(w: World) {
    && (forall i :: 0 <= i < |w.replies| ==> Truthful(w.replies[i]) && w.replies[i].persisted <= w.history.accepted)
    && forall i, j :: 0 <= i < j < |w.replies| ==>
         if w.replies[j].response.accepted then w.replies[i].persisted < w.replies[j].persisted
         else w.replies[i].persisted <= w.replies[j].persisted
  }

  /** What is in memory is on disk, but for one accepted command that has not been saved yet. */
  ghost predicate InStep(c: Setup, w: World) {
    match w.server
    case Down => true
    case Serving(s, handled) => w.disk == Some(s) && !s.clean && Continued(c, s, handled, "") == w.server
    case Stopping(s) => w.disk == Some(s) && !s.clean
    case Answering(s, _, response, unsaved) =>
      && w.disk.Some? && !s.clean
      && response.requestCount == s.requests && response.uncleanRestarts == s.uncleanRestarts
      && (unsaved ==> s == w.disk.value.(requests := Increment(w.disk.value.requests), lastCommand := s.lastCommand))
      && (!unsaved ==> w.disk == Some(s))
      && (response.accepted && !unsaved ==> NumberIsNew(w))
      && (unsaved ==> response.accepted)
  }

  /** No response sent so far carries the number of the last command persisted. */
  ghost predicate NumberIsNew(w: World) {
    w.history.accepted > 0 && forall i :: 0 <= i < |w.replies| ==> w.replies[i].persisted < w.history.accepted
  }

  ghost predicate Inv(c: Setup, w: World) {
    Accounted(Loaded(w), w.history) && RepliesPersisted(w) && InStep(c, w)
  }

  lemma IncrementCounts(n: nat)
    ensures Increment(n % WORD) == (n + 1) % WORD
  {
    WrappedSuccessor(WORD, n);
  }

  lemma ReplyKeepsInv(c: Setup, w: World, delivered: bool)
    requires Inv(c, w)
    ensures Inv(c, Next(c, w, Reply(delivered)))
  {
  }

  lemma PersistKeepsInv(c: Setup, w: World, saved: bool)
    requires Inv(c, w)
    ensures Inv(c, Next(c, w, Persist(saved)))
  {
    IncrementCounts(w.history.accepted);
  }

  lemma StepKeepsInv(c: Setup, w: World, step: Step)
    requires Inv(c, w)
    ensures Inv(c, Next(c, w, step))
  {
    match step
    case Boot(_) =>
      IncrementCounts(w.history.starts);
      IncrementCounts(w.history.uncleanRestarts);
    case Persist(saved) => PersistKeepsInv(c, w, saved);
    case Reply(delivered) => ReplyKeepsInv(c, w, delivered);
    case _ =>
  }

  lemma {:induction false} RunKeepsInv(c: Setup, w: World, steps: seq<Step>)
    requires Inv(c, w)
    ensures Inv(c, Run(c, w, steps))
  {
    if steps != [] {
      RunKeepsInv(c, w, steps[..|steps| - 1]);
      StepKeepsInv(c, Run(c, w, steps[..|steps| - 1]), steps[|steps| - 1]);
    }
  }

  /** Accounting holds after every run, crashes and failed writes included. */
  lemma {:induction false} RunKeepsAccounts(c: Setup, steps: seq<Step>)
    ensures Inv(c, Run(c, FIRST, steps))
  {
    RunKeepsInv(c, FIRST, steps);
  }

  // ------------------------------------------------------------------ who is served

  predicate Holds(r: Request, credential: string) { r.Request? && r.credential == credential }

  /** Whatever arrives and however it is answered, nobody has shown the credential. */
  ghost predicate OnlyStrangers(c: Setup, steps: seq<Step>) {
    forall i :: 0 <= i < |steps| ==>
      (steps[i].Receive? && !Holds(steps[i].request, c.credential)) || steps[i].Persist? || steps[i].Reply?
  }

  /** The server is as it was, or about to turn somebody away. */
  predicate Untouched(s: Server, t: Server) {
    s == t || (s.Serving? && t.Answering? && t.state == s.state && t.handled == s.handled && !t.unsaved
               && !t.response.authenticated && !t.response.accepted && t.response.status == "rejected")
  }

  /**
   * Requests without the credential change nothing: over any run of them the file, the history, the state in memory
   * and the number of requests handled stay, and every reply says neither authenticated nor accepted.
   */
  lemma {:induction false} StrangersChangeNothing(c: Setup, w: World, steps: seq<Step>)
    requires Inv(c, w) && w.server.Serving?
    requires OnlyStrangers(c, steps)
    ensures var t := Run(c, w, steps);
            && t.disk == w.disk && t.history == w.history && Untouched(w.server, t.server)
            && w.replies <= t.replies
            && forall i :: |w.replies| <= i < |t.replies| ==>
                 !t.replies[i].response.authenticated && !t.replies[i].response.accepted
  {
    if steps != [] {
      StrangersChangeNothing(c, w, steps[..|steps| - 1]);
    }
  }

  // ------------------------------------------------------------------ how a request is answered

  predicate WellShaped(r: Request) { r.Request? && r.minimum < 4294967296 && r.maximum < 4294967296 }

  /** The client speaks this protocol in its only version. */
  predicate Speaks(r: Request) { WellShaped(r) && r.protocol == "ubridge.local-ipc" && r.minimum <= 1 <= r.maximum }

  /** The request as the protocol asks for it, from somebody who knows the credential. */
  predicate Proper(c: Setup, r: Request) {
    Speaks(r) && Holds(r, c.credential) && (r.command == "ping" || r.command == "status" || r.command == "shutdown")
  }

  /** The error names the first thing that is wrong with the request. */
  predicate NamesFirstFault(c: Setup, r: Request, error: string) {
    && (r.BadFrame? ==> error == "invalid_or_oversized_frame")
    && (!r.BadFrame? && !WellShaped(r) ==> error == "invalid_request_shape")
    && (WellShaped(r) && r.protocol != "ubridge.local-ipc" ==> error == "protocol_identity_not_supported")
    && (WellShaped(r) && r.protocol == "ubridge.local-ipc" && !(r.minimum <= 1 <= r.maximum) ==>
          error == "protocol_version_not_supported")
    && (Speaks(r) && !Holds(r, c.credential) ==> error == "authentication_failed")
    && (Speaks(r) && Holds(r, c.credential) && !Proper(c, r) ==> error == "command_not_supported")
    && (Proper(c, r) ==> error == "")
  }

  /** What the client is told, as far as its own request decides it. */
  predicate ToldExactly(c: Setup, r: Request, response: Response) {
    && (response.accepted <==> Proper(c, r))
    && (response.authenticated <==> Speaks(r) && Holds(r, c.credential))
    && response.selectedVersion == (if response.authenticated then 1 else 0)
    && response.status == (if !Proper(c, r) then "rejected"
                           else if r.command == "shutdown" then "stopping" else "ready")
    && NamesFirstFault(c, r, response.error)
  }

  lemma FaultIsNamed(c: Setup, r: Request)
    ensures var verdict := Judge(r, c.credential);
            && (verdict.Accepted? <==> Proper(c, r))
            && (verdict.Accepted? ==> verdict.command == r.command)
            && NamesFirstFault(c, r, if verdict.Refused? then verdict.error else "")
            && (verdict.Refused? ==> (verdict.authenticated <==> Speaks(r) && Holds(r, c.credential)))
  {
  }

  lemma AnswerTells(c: Setup, r: Request, s: Persistent)
    ensures var response := Answer(Judge(r, c.credential), s);
            && ToldExactly(c, r, response)
            && response.requestCount == s.requests && response.uncleanRestarts == s.uncleanRestarts
  {
    FaultIsNamed(c, r);
  }

  /**
   * The world after a request. A proper one is counted, named in the file, and ends the server if it says so or is
   * the last one allowed; any other changes nothing.
   */
  predicate ServedTo(c: Setup, w: World, r: Request, t: World)
    requires w.server.Serving? && w.disk.Some?
  {
    var s := w.disk.value;
    if Proper(c, r) then
      var counted := Persistent(s.starts, (s.requests + 1) % WORD, s.uncleanRestarts, s.clean, r.command);
      var handled := w.server.handled + 1;
      && t.disk == Some(counted) && t.history == w.history.(accepted := w.history.accepted + 1)
      && t.server == if r.command == "shutdown" || (c.maximumRequests > 0 && handled >= c.maximumRequests)
                     then Stopping(counted) else Serving(counted, handled)
    else t.disk == w.disk && t.history == w.history && t.server == w.server
  }

  /**
   * A request to a serving server, the state file being writable: what happens to the server and its file, and what
   * the client is told if the answer gets through, down to the counters in the file at that time.
   */
  lemma ServedExactly(c: Setup, w: World, r: Request, delivered: bool)
    requires Inv(c, w) && w.server.Serving?
    ensures var t := Run(c, w, [Receive(r), Persist(true), Reply(delivered)]);
            && ServedTo(c, w, r, t)
            && |t.replies| == |w.replies| + (if delivered then 1 else 0) && w.replies <= t.replies
            && (delivered ==>
                  var sent := t.replies[|w.replies|];
                  && ToldExactly(c, r, sent.response) && sent.file == t.disk
                  && sent.response.requestCount == t.disk.value.requests
                  && sent.response.uncleanRestarts == t.disk.value.uncleanRestarts)
  {
    RunOfThree(c, w, Receive(r), Persist(true), Reply(delivered));
    FaultIsNamed(c, r);
    var received := Next(c, w, Receive(r));
    AnswerTells(c, r, received.server.state);
    assert "stopping"[0] != "rejected"[0];
  }

  // ------------------------------------------------------------------ a whole life

  /** Requests served one after the other, the state file being writable. */
  function ServeAll(requests: seq<Request>): seq<Step> {
    if requests == [] then []
    else
      ServeAll(requests[..|requests| - 1]) + [Receive(requests[|requests| - 1]), Persist(true), Reply(true)]
  }

  /** Requests that a server answers and goes on. */
  predicate KeepsServing(c: Setup, requests: seq<Request>) {
    && (c.maximumRequests == 0 || |requests| < c.maximumRequests)
    && forall i :: 0 <= i < |requests| ==> Proper(c, requests[i]) && requests[i].command != "shutdown"
  }

  /** A request that ends a server which has answered so many before. */
  predicate Ends(c: Setup, r: Request, served: nat)
    requires r.Request?
  {
    r.command == "shutdown" || (c.maximumRequests > 0 && served + 1 >= c.maximumRequests)
  }

  /** The file that a life leaves after so many requests. */
  function FileAfter(before: Persistent, served: nat, clean: bool, lastCommand: string): Persistent {
    Persistent((before.starts + 1) % WORD, (before.requests + served) % WORD,
               (before.uncleanRestarts + (if before.clean then 0 else 1)) % WORD, clean, lastCommand)
  }

  /** The server has started and answered so many requests since, the last of them this command. */
  ghost predicate InLife(c: Setup, w: World, served: nat, lastCommand: string, t: World) {
    && Inv(c, t)
    && t.disk == Some(FileAfter(if w.disk.Some? then w.disk.value else Persistent(0, 0, 0, true, ""), served, false,
                                lastCommand))
    && t.server == Serving(t.disk.value, served)
  }

  lemma LifeBegins(c: Setup, w: World)
    requires Inv(c, w) && w.server.Down?
    ensures InLife(c, w, 0, "startup", Next(c, w, Boot(true)))
  {
    StepKeepsInv(c, w, Boot(true));
    SmallMod(Loaded(w).requests, WORD);
    SmallMod(Loaded(w).uncleanRestarts, WORD);
  }

  lemma LifeGoesOn(c: Setup, w: World, served: nat, lastCommand: string, t: World, r: Request)
    requires InLife(c, w, served, lastCommand, t)
    requires Proper(c, r) && r.command != "shutdown"
    requires c.maximumRequests == 0 || served + 1 < c.maximumRequests
    ensures InLife(c, w, served + 1, r.command, Run(c, t, [Receive(r), Persist(true), Reply(true)]))
  {
    ServedExactly(c, t, r, true);
    RunKeepsInv(c, t, [Receive(r), Persist(true), Reply(true)]);
    IncrementCounts(Loaded(w).requests + served);
  }

  lemma {:induction false} LifeSoFar(c: Setup, w: World, requests: seq<Request>)
    requires Inv(c, w) && w.server.Down? && KeepsServing(c, requests)
    ensures InLife(c, w, |requests|, if requests == [] then "startup" else requests[|requests| - 1].command,
                   Run(c, w, [Boot(true)] + ServeAll(requests)))
  {
    if requests == [] {
      assert Run(c, w, []) == w && [] + [Boot(true)] == [Boot(true)] + ServeAll(requests);
      RunAppend(c, w, [], Boot(true));
      LifeBegins(c, w);
    } else {
      var n := |requests| - 1;
      var r, so := requests[n], [Boot(true)] + ServeAll(requests[..n]);
      LifeSoFar(c, w, requests[..n]);
      LifeGoesOn(c, w, n, if n == 0 then "startup" else requests[n - 1].command, Run(c, w, so), r);
      RunConcat(c, w, so, [Receive(r), Persist(true), Reply(true)]);
      assert so + [Receive(r), Persist(true), Reply(true)] == [Boot(true)] + ServeAll(requests);
    }
  }

  lemma LifeEnds(c: Setup, w: World, served: nat, lastCommand: string, t: World, r: Request)
    requires InLife(c, w, served, lastCommand, t)
    requires Proper(c, r) && Ends(c, r, served)
    ensures var u := Next(c, Run(c, t, [Receive(r), Persist(true), Reply(true)]), Finish(true));
            && u.server == Down
            && u.disk == Some(FileAfter(if w.disk.Some? then w.disk.value else Persistent(0, 0, 0, true, ""),
                                        served + 1, true, "shutdown"))
  {
    ServedExactly(c, t, r, true);
    IncrementCounts(Loaded(w).requests + served);
  }

  lemma {:induction false} LastOfLife(c: Setup, w: World, requests: seq<Request>, last: Request)
    ensures Run(c, w, [Boot(true)] + ServeAll(requests + [last]) + [Finish(true)])
         == Next(c, Run(c, Run(c, w, [Boot(true)] + ServeAll(requests)), [Receive(last), Persist(true), Reply(true)]),
                 Finish(true))
  {
    var so, steps := [Boot(true)] + ServeAll(requests), [Receive(last), Persist(true), Reply(true)];
    assert (requests + [last])[..|requests|] == requests;
    assert so + steps == [Boot(true)] + ServeAll(requests + [last]);
    RunAppend(c, w, so + steps, Finish(true));
    RunConcat(c, w, so, steps);
  }

  /**
   * A clean life: the server starts, serves its requests, the last of which ends it, and saves its state. It is then
   * down, and the file has one start more, every request counted, the restart after a crash counted, and a clean end.
   */
  lemma {:induction false} CleanLifeExactly(c: Setup, w: World, requests: seq<Request>, last: Request)
    requires Inv(c, w) && w.server.Down? && KeepsServing(c, requests)
    requires Proper(c, last) && Ends(c, last, |requests|)
    ensures var t := Run(c, w, [Boot(true)] + ServeAll(requests + [last]) + [Finish(true)]);
            && t.server == Down
            && t.disk == Some(FileAfter(if w.disk.Some? then w.disk.value else Persistent(0, 0, 0, true, ""),
                                        |requests| + 1, true, "shutdown"))
  {
    var so := [Boot(true)] + ServeAll(requests);
    LifeSoFar(c, w, requests);
    LifeEnds(c, w, |requests|, if requests == [] then "startup" else requests[|requests| - 1].command,
             Run(c, w, so), last);
    LastOfLife(c, w, requests, last);
  }

  // ------------------------------------------------------------------ the server in place

  /** One connection: the request, whether the state file could be written, whether the reply got out. */
  datatype Incoming = Incoming(request: Request, saved: bool, delivered: bool)

  class LocalService {
    const credential: string
    var disk: Option<Persistent>
    // History, which the program itself does not keep.
    ghost var history: History
    ghost var replies: seq<Sent>

    constructor (credential: string)
      ensures this.credential == credential && With(Down) == FIRST
    {
      this.credential := credential;
      disk := None;
      history := History(0, 0, 0, 0);
      replies := [];
    }

    ghost function With(server: Server): World
      reads this
    {
      World(disk, server, history, replies)
    }

    /** One connection. It fails only if an accepted command could not be saved. */
    method Handle(connection: Incoming, state: Persistent, handled: nat, c: Setup)
      returns (ok: bool, next: Persistent, served: nat, shutdown: bool, ghost steps: seq<Step>)
      requires c.credential == credential
      modifies this`disk, this`history, this`replies
      ensures Run(c, old(With(Serving(state, handled))), steps)
           == With(if ok then Continued(c, next, served, if shutdown then "stopping" else "") else Down)
      ensures history.cleanStops == old(history.cleanStops)
    {
      ghost var w := With(Serving(state, handled));
      next, served, shutdown := state, handled, false;
      var verdict := Judge(connection.request, credential);
      steps := [Receive(connection.request)];
      assert [] + [Receive(connection.request)] == steps && Run(c, w, []) == w;
      RunAppend(c, w, [], Receive(connection.request));
      if verdict.Accepted? {
        next := next.(requests := Increment(next.requests));
        served := served + 1;
        next := next.(lastCommand := verdict.command);
      }
      var response := Answer(verdict, next);
      if verdict.Accepted? {
        RunAppend(c, w, steps, Persist(connection.saved));
        steps := steps + [Persist(connection.saved)];
        if !connection.saved {
          return false, next, served, false, steps;
        }
        disk := Some(next);
        history := history.(accepted := history.accepted + 1);
        shutdown := verdict.command == "shutdown";
      }
      RunAppend(c, w, steps, Reply(connection.delivered));
      steps := steps + [Reply(connection.delivered)];
      if connection.delivered {
        replies := replies + [Sent(response, disk, history.accepted)];
      }
      ok := true;
    }

    /**
     * One life of the server process, from loading the state to the clean stop, an error, or a crash (the
     * connections running out). It is a run of the step machine; 0 is returned exactly after a clean stop.
     */
    method Serve(bootSaved: bool, incoming: seq<Incoming>, limit: nat, stopSaved: bool)
      returns (code: int, ghost steps: seq<Step>)
      modifies this`disk, this`history, this`replies
      ensures With(Down) == Run(Setup(credential, limit), old(With(Down)), steps)
      ensures code == 0 || code == 3
      ensures code == 0 <==> history.cleanStops > old(history.cleanStops)
      ensures code == 0 ==> disk.Some? && disk.value.clean
    {
      var c := Setup(credential, limit);
      ghost var w := With(Down);
      var state := if disk.Some? then disk.value else NEVER_STARTED;
      ghost var uncleanRestart := if state.clean then 0 else 1;
      if !state.clean {
        state := state.(uncleanRestarts := Increment(state.uncleanRestarts));
      }
      state := state.(starts := Increment(state.starts), clean := false, lastCommand := "startup");
      steps := [Boot(bootSaved)];
      assert [] + [Boot(bootSaved)] == steps && Run(c, w, []) == w;
      RunAppend(c, w, [], Boot(bootSaved));
      if !bootSaved {
        return 3, steps;
      }
      disk := Some(state);
      history := history.(starts := history.starts + 1, uncleanRestarts := history.uncleanRestarts + uncleanRestart);
      var handled: nat := 0;
      var shutdown, next := false, 0;
      while !shutdown && (limit == 0 || handled < limit)
        invariant next <= |incoming|
        invariant Run(c, w, steps) == With(Continued(c, state, handled, if shutdown then "stopping" else ""))
        invariant history.cleanStops == old(history.cleanStops)
        decreases |incoming| - next
      {
        if next == |incoming| {
          RunAppend(c, w, steps, Crash);
          return 3, steps + [Crash];
        }
        var connection := incoming[next];
        next := next + 1;
        ghost var more;
        var ok;
        ok, state, handled, shutdown, more := Handle(connection, state, handled, c);
        RunConcat(c, w, steps, more);
        steps := steps + more;
        if !ok {
          return 3, steps;
        }
      }
      RunAppend(c, w, steps, Finish(stopSaved));
      steps := steps + [Finish(stopSaved)];
      if !stopSaved {
        return 3, steps;
      }
      disk := Some(state.(clean := true, lastCommand := "shutdown"));
      history := history.(cleanStops := history.cleanStops + 1);
      code := 0;
    }
  }
}
