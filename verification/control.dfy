/** One control connection: requests sharing it from the client, the daemon answering each
    on its own, and the reader that hands every frame to the request it is for. */
module Control {
  import opened Stack

  datatype Response = Response(ok: bool, body: string)

  /** What a frame carries: a request's one answer (or a stream's acknowledgement), a frame
      a stream emits, or its end. */
  datatype Payload = Answer(response: Response) | Data(body: string) | End(error: string)

  datatype Frame = Frame(id: nat, what: Payload)

  datatype Op = Unary | Subscribe(badInterval: bool, topics: nat) | Logs(follow: bool) | Events

  datatype Request = Request(op: Op, body: string)
  {
    predicate Streamed() {
      op.Events? || (op.Logs? && op.follow) || (op.Subscribe? && !op.badInterval && op.topics > 0)
    }

    predicate Refused() {
      op.Subscribe? && (op.badInterval || op.topics == 0)
    }
  }

  datatype Message = Ask(id: nat, req: Request) | Cancel(id: nat)

  const INBOX := 64
  const ACK := Answer(Response(true, ""))

  // The daemon's side of one request.

  datatype Stage = Begun | Streaming | Ended | Answered

  datatype Job = Job(req: Request, stage: Stage, stopped: bool, said: seq<Payload>)
  {
    function Say(what: Payload, stage: Stage): Job {
      this.(stage := stage, said := said + [what])
    }
  }

  // The client's side of one request.

  datatype Outcome =
    | Responded(response: Response)  // Do returns it, as an error when it is one
    | NoAnswer                       // the first frame is no response
    | Rejected(response: Response)   // a stream the daemon does not start
    | Finished(error: string)        // the daemon ended the stream
    | Stopped                        // the callback failed
    | GaveUp                         // the context ended
    | Closed                         // the connection did
    | NotSent

  datatype Caller = Caller(
    req: Request,
    streams: bool,             // Stream, not Do
    acked: bool,
    given: seq<Payload>,       // the frames the callback was given
    outcome: Option<Outcome>,
    taken: seq<Payload>        // history: everything taken out of the inbox
  )
  {
    /** What Do, or one turn of Stream's loop, makes of a frame. */
    function Take(f: Payload, fails: bool): Caller {
      var c := this.(taken := taken + [f]);
      if !streams then c.(outcome := Some(if f.Answer? then Responded(f.response) else NoAnswer))
      else if !acked then
        if !f.Answer? then c.(outcome := Some(NoAnswer))
        else if !f.response.ok then c.(outcome := Some(Rejected(f.response)))
        else c.(acked := true)
      else if f.End? then c.(outcome := Some(Finished(f.error)))
      else c.(given := given + [f], outcome := if fails then Some(Stopped) else None)
    }
  }

  datatype State = State(
    open: bool,                       // frames and requests still get through
    closed: bool,                     // the reader has seen the connection end
    nextID: nat,
    waiting: map<nat, seq<Payload>>,  // each request still waiting, with its inbox
    held: Option<Frame>,              // the frame the reader is handing over
    requests: seq<Message>,           // on their way to the daemon
    frames: seq<Frame>,               // on their way to the client
    jobs: map<nat, Job>,              // the daemon's requests; finished ones are history
    callers: map<nat, Caller>         // the client's requests; finished ones are history
  )

  const START := State(true, false, 0, map[], None, [], [], map[], map[])

  datatype Action =
    // the client's callers
    | Start(req: Request, streams: bool, sent: bool)
    | Take(id: nat, fails: bool)
    | GiveUp(id: nat)
    | SeeClosed(id: nat)
    | Forget(id: nat)
    // the client's reader
    | Receive
    | Put
    | Skip
    | Close
    // the daemon
    | Accept
    | Reply(id: nat, response: Response)
    | Acknowledge(id: nat)
    | Emit(id: nat, body: string)
    | Finish(id: nat, error: string)
    // the wire
    | Break(kept: nat)

  predicate Pending(s: State, id: nat) {
    id in s.callers && id in s.waiting && s.callers[id].outcome.None?
  }

  predicate Can(s: State, a: Action) {
    match a
    case Start(_, _, sent) => sent ==> s.open
    case Take(id, _) => Pending(s, id) && s.waiting[id] != []
    case GiveUp(id) => Pending(s, id)
    case SeeClosed(id) => Pending(s, id) && s.closed
    case Forget(id) => id in s.callers && id in s.waiting && s.callers[id].outcome.Some?
    case Receive => s.held.None? && s.frames != []
    case Put => s.held.Some? && s.held.value.id in s.waiting && |s.waiting[s.held.value.id]| < INBOX
    case Skip => s.held.Some? && s.held.value.id !in s.waiting
    case Close => !s.open && s.frames == [] && s.held.None?
    case Accept => s.open && s.requests != []
    case Reply(id, response) =>
      s.open && id in s.jobs && s.jobs[id].stage.Begun? && !s.jobs[id].req.Streamed()
      && (s.jobs[id].req.Refused() ==> !response.ok)
    case Acknowledge(id) => s.open && id in s.jobs && s.jobs[id].stage.Begun? && s.jobs[id].req.Streamed()
    // what a stream's handler left running may emit after the end
    case Emit(id, _) => s.open && id in s.jobs && (s.jobs[id].stage.Streaming? || s.jobs[id].stage.Ended?)
    case Finish(id, error) =>
        s.open && id in s.jobs && s.jobs[id].stage.Streaming? && (s.jobs[id].stopped ==> error == "")
    case Break(kept) => s.open && kept <= |s.frames|
  }

  function Do(s: State, a: Action): State
    requires Can(s, a)
  {
    match a
    case Start(req, streams, sent) => Issued(s, req, streams, sent)
    case Take(id, fails) => Taken(s, id, fails)
    case GiveUp(id) => Left(s, id, GaveUp)
    case SeeClosed(id) => Left(s, id, Closed)
    case Forget(id) => s.(waiting := s.waiting - {id})
    case Receive => Received(s)
    case Put => s.(held := None,
        waiting := s.waiting[s.held.value.id := s.waiting[s.held.value.id] + [s.held.value.what]])
    case Skip => s.(held := None)
    case Close => s.(closed := true)
    case Accept => Accepted(s)
    case Reply(id, response) => Said(s, id, Answer(response), Answered)
    case Acknowledge(id) => Said(s, id, ACK, Streaming)
    case Emit(id, body) => Said(s, id, Data(body), s.jobs[id].stage)
    case Finish(id, error) => Said(s, id, End(error), Ended)
    case Break(kept) => s.(open := false, requests := [], frames := s.frames[..kept])
  }

  /** A request waits under a fresh id before it is sent; one that cannot be sent is
      forgotten. */
  function Issued(s: State, req: Request, streams: bool, sent: bool): State {
    var id := s.nextID + 1;
    if sent then
      s.(nextID := id, waiting := s.waiting[id := []], requests := s.requests + [Ask(id, req)],
         callers := s.callers[id := Caller(req, streams, false, [], None, [])])
    else
      s.(nextID := id, callers := s.callers[id := Caller(req, streams, false, [], Some(NotSent), [])])
  }

  function Taken(s: State, id: nat, fails: bool): State
    requires Pending(s, id) && s.waiting[id] != []
  {
    var c := s.callers[id].Take(s.waiting[id][0], fails);
    s.(waiting := s.waiting[id := s.waiting[id][1..]], callers := s.callers[id := c],
       requests := if c.outcome == Some(Stopped) then Told(s, id) else s.requests)
  }

  /** Telling the daemon to stop, when it can still be told. */
  function Told(s: State, id: nat): seq<Message> {
    if s.open then s.requests + [Cancel(id)] else s.requests
  }

  function Left(s: State, id: nat, outcome: Outcome): State
    requires Pending(s, id)
  {
    s.(callers := s.callers[id := s.callers[id].(outcome := Some(outcome))],
       requests := if outcome.GaveUp? && s.callers[id].streams then Told(s, id) else s.requests)
  }

  /** The reader looks the frame's request up, and drops a frame nothing waits for. */
  function Received(s: State): State
    requires s.frames != []
  {
    var f := s.frames[0];
    s.(frames := s.frames[1..], held := if f.id in s.waiting then Some(f) else None)
  }

  function Accepted(s: State): State
    requires s.requests != []
  {
    match s.requests[0]
    case Ask(id, req) => s.(requests := s.requests[1..], jobs := s.jobs[id := Job(req, Begun, false, [])])
    case Cancel(id) =>
      s.(requests := s.requests[1..],
         jobs := if id in s.jobs then s.jobs[id := s.jobs[id].(stopped := true)] else s.jobs)
  }

  function Said(s: State, id: nat, what: Payload, stage: Stage): State
    requires id in s.jobs
  {
    s.(jobs := s.jobs[id := s.jobs[id].Say(what, stage)], frames := s.frames + [Frame(id, what)])
  }
}
