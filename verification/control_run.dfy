/** What every interleaving of one control connection keeps. */
module ControlRun {
  import opened Stack
  import opened Control

  /** The payloads of the frames for one request, in order. */
  function For(frames: seq<Frame>, id: nat): seq<Payload> {
    if frames == [] then []
    else (if frames[0].id == id then [frames[0].what] else []) + For(frames[1..], id)
  }

  lemma {:induction false} ForOneMore(frames: seq<Frame>, f: Frame, id: nat)
    ensures For(frames + [f], id) == For(frames, id) + if f.id == id then [f.what] else []
  {
    if frames == [] {
      assert (frames + [f])[1..] == [];
    } else {
      ForOneMore(frames[1..], f, id);
      assert (frames + [f])[1..] == frames[1..] + [f];
    }
  }

  lemma {:induction false} ForCut(frames: seq<Frame>, kept: nat, id: nat)
    requires kept <= |frames|
    ensures For(frames[..kept], id) <= For(frames, id)
  {
    if kept > 0 {
      ForCut(frames[1..], kept - 1, id);
      assert frames[..kept][1..] == frames[1..][..kept - 1];
    }
  }

  function Holding(s: State, id: nat): seq<Payload> {
    if s.held.Some? && s.held.value.id == id then [s.held.value.what] else []
  }

  /** One request seen alone: its caller, its inbox while it waits, and its frames in the
      reader's hand, on the wire and said by the daemon. */
  datatype Line = Line(caller: Caller, inbox: Option<seq<Payload>>, held: seq<Payload>, wire: seq<Payload>,
      said: seq<Payload>)

  function LineOf(s: State, id: nat): Line
    requires id in s.callers
  {
    Line(s.callers[id], if id in s.waiting then Some(s.waiting[id]) else None,
         Holding(s, id), For(s.frames, id), SaidFor(s, id))
  }

  /** Everything of one request that is past the daemon, in order. */
  function Flow(l: Line): seq<Payload>
    requires l.inbox.Some?
  {
    l.caller.taken + (l.inbox.value + (l.held + l.wire))
  }

  function SaidFor(s: State, id: nat): seq<Payload> {
    if id in s.jobs then s.jobs[id].said else []
  }

  ghost predicate AllData(q: seq<Payload>) {
    forall i | 0 <= i < |q| :: q[i].Data?
  }

  /** What the daemon can have said of a request, stage by stage. */
  ghost predicate Shaped(j: Job) {
    match j.stage
    case Begun => j.said == []
    case Answered => !j.req.Streamed() && |j.said| == 1 && j.said[0].Answer?
    case Streaming => j.req.Streamed() && j.said != [] && j.said[0] == ACK && AllData(j.said[1..])
    case Ended => j.req.Streamed() && exists k :: EndsAt(j.said, k)
  }

  /** An acknowledgement, frames, the end, and perhaps stragglers after it. */
  ghost predicate EndsAt(said: seq<Payload>, k: nat) {
    && 0 < k < |said| && said[0] == ACK && AllData(said[1..k]) && said[k].End? && AllData(said[k + 1..])
  }

  /** A caller has made of the frames it took what it should. */
  ghost predicate Sound(c: Caller) {
    if !c.streams then SoundDo(c) else SoundStream(c)
  }

  ghost predicate SoundDo(c: Caller) {
    && c.given == [] && !c.acked
    && match c.outcome
       case None => c.taken == []
       case Some(Responded(r)) => c.taken == [Answer(r)]
       case Some(NoAnswer) => |c.taken| == 1 && !c.taken[0].Answer?
       case Some(o) => (o.GaveUp? || o.Closed? || o.NotSent?) && c.taken == []
  }

  ghost predicate SoundStream(c: Caller) {
    && (forall i | 0 <= i < |c.given| :: !c.given[i].End?)
    && match c.outcome
       case Some(Rejected(r)) => !c.acked && c.taken == [Answer(r)] && c.given == [] && !r.ok
       case Some(NoAnswer) => !c.acked && |c.taken| == 1 && !c.taken[0].Answer? && c.given == []
       case Some(Finished(error)) => Acked(c) && c.taken == c.taken[..1] + c.given + [End(error)]
       case Some(Responded(_)) => false
       case Some(Stopped) => c.acked && c.given != [] && Acked(c) && c.taken == c.taken[..1] + c.given
       case _ => if c.acked then Acked(c) && c.taken == c.taken[..1] + c.given else c.taken == [] && c.given == []
  }

  ghost predicate Acked(c: Caller) {
    c.taken != [] && c.taken[0].Answer? && c.taken[0].response.ok
  }

  /** Nothing a request waits for is lost or comes out of order. */
  ghost predicate Flows(l: Line, open: bool) {
    && Sound(l.caller)
    && match l.inbox
       case None => l.caller.outcome.Some? && l.caller.taken <= l.said
       case Some(inbox) => |inbox| <= INBOX && if open then Flow(l) == l.said else Flow(l) <= l.said
  }

  /** Ids are never used twice, and frames are for requests that were made. */
  ghost predicate Numbered(s: State) {
    && (forall id :: id in s.callers <==> 1 <= id <= s.nextID)
    && s.waiting.Keys <= s.callers.Keys
    && (forall f | f in s.frames :: f.id in s.callers)
    && (s.held.Some? ==> s.held.value.id in s.callers)
  }

  ghost predicate Worked(s: State) {
    forall id | id in s.jobs :: id in s.callers && s.jobs[id].req == s.callers[id].req && Shaped(s.jobs[id])
  }

  ghost predicate Asked(s: State, m: Message) {
    m.Ask? ==> m.id in s.callers && m.id !in s.jobs && s.callers[m.id].req == m.req
  }

  ghost predicate Queued(s: State) {
    && (forall i | 0 <= i < |s.requests| :: Asked(s, s.requests[i]))
    && forall i, j | 0 <= i < j < |s.requests| && s.requests[i].Ask? && s.requests[j].Ask? ::
        s.requests[i].id != s.requests[j].id
  }

  ghost predicate Flowing(s: State) {
    forall id | id in s.callers :: Flows(LineOf(s, id), s.open)
  }

  ghost predicate Inv(s: State) {
    Numbered(s) && Worked(s) && Queued(s) && Flowing(s)
  }

  // What a step keeps of the requests it does not touch.

  lemma NumberedStep(s: State, a: Action)
    requires Numbered(s) && Worked(s) && Can(s, a)
    ensures Numbered(Do(s, a))
  {
    match a
    case Start(req, streams, sent) => NumberedIssue(s, req, streams, sent);
    case Take(id, fails) => NumberedCaller(s, a, id);
    case GiveUp(id) => NumberedCaller(s, a, id);
    case SeeClosed(id) => NumberedCaller(s, a, id);
    case Reply(id, response) => NumberedSay(s, id, Answer(response), Answered);
    case Acknowledge(id) => NumberedSay(s, id, ACK, Streaming);
    case Emit(id, body) => NumberedSay(s, id, Data(body), s.jobs[id].stage);
    case Finish(id, error) => NumberedSay(s, id, End(error), Ended);
    case _ => NumberedRead(s, a);
  }

  lemma NumberedIssue(s: State, req: Request, streams: bool, sent: bool)
    requires Numbered(s)
    ensures Numbered(Issued(s, req, streams, sent))
  {
  }

  lemma NumberedCaller(s: State, a: Action, id: nat)
    requires Numbered(s) && Can(s, a) && (a == GiveUp(id) || a == SeeClosed(id) || (a.Take? && a.id == id))
    ensures Numbered(Do(s, a))
  {
    var s' := Do(s, a);
    assert s'.callers.Keys == s.callers.Keys && s'.waiting.Keys == s.waiting.Keys;
    assert s'.frames == s.frames && s'.held == s.held && s'.nextID == s.nextID;
  }

  lemma NumberedSay(s: State, id: nat, what: Payload, stage: Stage)
    requires Numbered(s) && Worked(s) && id in s.jobs
    ensures Numbered(Said(s, id, what, stage))
  {
  }

  lemma NumberedRead(s: State, a: Action)
    requires Numbered(s) && Can(s, a)
    requires a.Receive? || a.Put? || a.Skip? || a.Close? || a.Forget? || a.Accept? || a.Break?
    ensures Numbered(Do(s, a))
  {
    var s' := Do(s, a);
    assert s'.callers == s.callers && s'.waiting.Keys <= s.waiting.Keys && s'.nextID == s.nextID;
    assert forall f | f in s'.frames :: f in s.frames;
    assert s'.held.Some? ==> s'.held == s.held || s'.held.value in s.frames;
  }

  lemma WorkedStep(s: State, a: Action)
    requires Numbered(s) && Worked(s) && Queued(s) && Can(s, a)
    ensures Worked(Do(s, a))
  {
    match a
    case Start(req, streams, sent) => WorkedIssue(s, req, streams, sent);
    case Reply(id, response) => WorkedReply(s, id, response);
    case Acknowledge(id) => WorkedAcknowledge(s, id);
    case Emit(id, body) => WorkedEmit(s, id, body);
    case Finish(id, error) => WorkedFinish(s, id, error);
    case Accept => WorkedAccept(s);
    case Take(id, fails) => WorkedTake(s, id, fails);
    case GiveUp(id) => WorkedLeft(s, id, GaveUp);
    case SeeClosed(id) => WorkedLeft(s, id, Closed);
    case _ => WorkedUntold(s, a);
  }

  lemma WorkedTake(s: State, id: nat, fails: bool)
    requires Worked(s) && Can(s, Take(id, fails))
    ensures Worked(Taken(s, id, fails))
  {
    WorkedStays(s, Taken(s, id, fails));
  }

  lemma WorkedLeft(s: State, id: nat, outcome: Outcome)
    requires Worked(s) && Pending(s, id)
    ensures Worked(Left(s, id, outcome))
  {
    WorkedStays(s, Left(s, id, outcome));
  }

  lemma WorkedUntold(s: State, a: Action)
    requires Worked(s) && Can(s, a)
    requires a.Receive? || a.Put? || a.Skip? || a.Close? || a.Forget? || a.Break?
    ensures Worked(Do(s, a))
  {
    var s' := Do(s, a);
    assert s'.jobs == s.jobs && s'.callers == s.callers;
    WorkedStays(s, s');
  }

  lemma WorkedIssue(s: State, req: Request, streams: bool, sent: bool)
    requires Numbered(s) && Worked(s)
    ensures Worked(Issued(s, req, streams, sent))
  {
    assert s.nextID + 1 !in s.callers;
  }

  lemma WorkedStays(s: State, s': State)
    requires Worked(s) && s'.jobs == s.jobs && s'.callers.Keys == s.callers.Keys
    requires forall id | id in s.callers :: s'.callers[id].req == s.callers[id].req
    ensures Worked(s')
  {
  }

  lemma WorkedReply(s: State, id: nat, response: Response)
    requires Worked(s) && Can(s, Reply(id, response))
    ensures Worked(Do(s, Reply(id, response)))
  {
    SayIsShaped(s.jobs[id], Answer(response), Answered);
    WorkedSay(s, id, Answer(response), Answered);
  }

  lemma WorkedAcknowledge(s: State, id: nat)
    requires Worked(s) && Can(s, Acknowledge(id))
    ensures Worked(Do(s, Acknowledge(id)))
  {
    SayIsShaped(s.jobs[id], ACK, Streaming);
    WorkedSay(s, id, ACK, Streaming);
  }

  lemma WorkedEmit(s: State, id: nat, body: string)
    requires Worked(s) && Can(s, Emit(id, body))
    ensures Worked(Do(s, Emit(id, body)))
  {
    SayIsShaped(s.jobs[id], Data(body), s.jobs[id].stage);
    WorkedSay(s, id, Data(body), s.jobs[id].stage);
  }

  lemma WorkedFinish(s: State, id: nat, error: string)
    requires Worked(s) && Can(s, Finish(id, error))
    ensures Worked(Do(s, Finish(id, error)))
  {
    SayIsShaped(s.jobs[id], End(error), Ended);
    WorkedSay(s, id, End(error), Ended);
  }

  lemma WorkedSay(s: State, id: nat, what: Payload, stage: Stage)
    requires Worked(s) && id in s.jobs && Shaped(s.jobs[id].Say(what, stage))
    ensures Worked(Said(s, id, what, stage))
  {
  }

  lemma WorkedAccept(s: State)
    requires Worked(s) && Queued(s) && s.requests != []
    ensures Worked(Accepted(s))
  {
    assert Asked(s, s.requests[0]);
  }

  lemma QueuedStep(s: State, a: Action)
    requires Numbered(s) && Worked(s) && Queued(s) && Can(s, a)
    ensures Queued(Do(s, a))
  {
    match a
    case Start(req, streams, sent) => QueuedAsk(s, req, streams, sent);
    case Accept => QueuedAccept(s);
    case Break(kept) => QueuedBreak(s, kept);
    case Take(id, fails) => QueuedTake(s, id, fails);
    case GiveUp(id) => QueuedLeft(s, id, GaveUp);
    case SeeClosed(id) => QueuedLeft(s, id, Closed);
    case _ => QueuedUntold(s, a);
  }

  lemma QueuedBreak(s: State, kept: nat)
    requires Can(s, Break(kept))
    ensures Queued(Do(s, Break(kept)))
  {
  }

  lemma QueuedTake(s: State, id: nat, fails: bool)
    requires Queued(s) && Can(s, Take(id, fails))
    ensures Queued(Taken(s, id, fails))
  {
    QueuedStays(s, Taken(s, id, fails));
  }

  lemma QueuedLeft(s: State, id: nat, outcome: Outcome)
    requires Queued(s) && Pending(s, id)
    ensures Queued(Left(s, id, outcome))
  {
    QueuedStays(s, Left(s, id, outcome));
  }

  lemma QueuedUntold(s: State, a: Action)
    requires Queued(s) && Can(s, a)
    requires !a.Start? && !a.Accept? && !a.Break? && !a.Take? && !a.GiveUp? && !a.SeeClosed?
    ensures Queued(Do(s, a))
  {
    var s' := Do(s, a);
    assert s'.requests == s.requests && s'.callers == s.callers && s'.jobs.Keys == s.jobs.Keys;
    QueuedStays(s, s');
  }

  lemma QueuedStays(s: State, s': State)
    requires Queued(s) && (s'.requests == s.requests || exists id :: s'.requests == s.requests + [Cancel(id)])
    requires s'.jobs.Keys == s.jobs.Keys && s'.callers.Keys == s.callers.Keys
    requires forall id | id in s.callers :: s'.callers[id].req == s.callers[id].req
    ensures Queued(s')
  {
    forall i | 0 <= i < |s'.requests| ensures Asked(s', s'.requests[i]) {
      if i < |s.requests| { assert Asked(s, s.requests[i]); }
    }
  }

  lemma QueuedAsk(s: State, req: Request, streams: bool, sent: bool)
    requires Numbered(s) && Worked(s) && Queued(s)
    ensures Queued(Issued(s, req, streams, sent))
  {
    var s', id := Issued(s, req, streams, sent), s.nextID + 1;
    assert id !in s.callers && id !in s.jobs;
    forall i | 0 <= i < |s'.requests| ensures Asked(s', s'.requests[i]) {
      if i < |s.requests| { assert Asked(s, s.requests[i]); }
    }
    forall i | 0 <= i < |s.requests| && s.requests[i].Ask? ensures s.requests[i].id != id {
      assert Asked(s, s.requests[i]);
    }
  }

  lemma QueuedAccept(s: State)
    requires Queued(s) && s.requests != []
    ensures Queued(Accepted(s))
  {
    var s' := Accepted(s);
    forall i | 0 <= i < |s'.requests| ensures Asked(s', s'.requests[i]) {
      assert Asked(s, s.requests[i + 1]);
    }
  }

  lemma SayIsShaped(j: Job, what: Payload, stage: Stage)
    requires Shaped(j)
    requires match what
             case Answer(r) =>
               && j.stage.Begun?
               && (if stage.Answered? then !j.req.Streamed() else stage.Streaming? && j.req.Streamed() && what == ACK)
             case Data(_) => stage == j.stage && (stage.Streaming? || stage.Ended?)
             case End(_) => j.stage.Streaming? && stage.Ended?
    ensures Shaped(j.Say(what, stage))
  {
    var said := j.said + [what];
    if what.End? {
      assert EndsAt(said, |j.said|);
    } else if j.stage.Ended? {
      var k: nat :| EndsAt(j.said, k);
      assert said[1..k] == j.said[1..k];
      assert EndsAt(said, k);
    }
  }

  // What a step does to the one request it touches.

  lemma TakeIsSound(c: Caller, f: Payload, fails: bool)
    requires Sound(c) && c.outcome.None?
    ensures Sound(c.Take(f, fails)) && c.Take(f, fails).taken == c.taken + [f]
  {
  }

  lemma TakeFlows(l: Line, open: bool, fails: bool)
    requires Flows(l, open) && l.inbox.Some? && l.inbox.value != [] && l.caller.outcome.None?
    ensures Flows(l.(caller := l.caller.Take(l.inbox.value[0], fails), inbox := Some(l.inbox.value[1..])), open)
  {
    TakeIsSound(l.caller, l.inbox.value[0], fails);
    assert Flow(l.(caller := l.caller.Take(l.inbox.value[0], fails), inbox := Some(l.inbox.value[1..]))) == Flow(l);
  }

  lemma ForgetFlows(l: Line, open: bool)
    requires Flows(l, open) && l.caller.outcome.Some?
    ensures Flows(l.(inbox := None), open)
  {
    if l.inbox.Some? {
      assert l.caller.taken <= Flow(l);
    }
  }

  lemma SayFlows(l: Line, what: Payload)
    requires Flows(l, true)
    ensures Flows(l.(said := l.said + [what], wire := l.wire + [what]), true)
  {
    if l.inbox.Some? {
      assert Flow(l.(said := l.said + [what], wire := l.wire + [what])) == Flow(l) + [what];
    }
  }

  lemma CutFlows(l: Line, open: bool, wire: seq<Payload>)
    requires Flows(l, open) && wire <= l.wire
    ensures Flows(l.(wire := wire), false)
  {
  }

  lemma {:induction false} NoFramesFor(frames: seq<Frame>, id: nat)
    requires forall f | f in frames :: f.id != id
    ensures For(frames, id) == []
  {
    if frames != [] {
      NoFramesFor(frames[1..], id);
    }
  }

  // What a step does to every request.

  lemma IssueFlowing(s: State, req: Request, streams: bool, sent: bool)
    requires Numbered(s) && Worked(s) && Flowing(s) && Can(s, Start(req, streams, sent))
    ensures Flowing(Issued(s, req, streams, sent))
  {
    var s' := Issued(s, req, streams, sent);
    NoFramesFor(s.frames, s.nextID + 1);
    assert s.nextID + 1 !in s.callers && s.nextID + 1 !in s.jobs;
    forall id | id in s'.callers ensures Flows(LineOf(s', id), s'.open) {
      if id in s.callers { IssueMoves(s, req, streams, sent, id); }
    }
  }

  lemma IssueMoves(s: State, req: Request, streams: bool, sent: bool, i: nat)
    requires i in s.callers && i <= s.nextID
    ensures LineOf(Issued(s, req, streams, sent), i) == LineOf(s, i)
  {
  }

  lemma TakeFlowing(s: State, id: nat, fails: bool)
    requires Flowing(s) && Can(s, Take(id, fails))
    ensures Flowing(Taken(s, id, fails))
  {
    var s' := Taken(s, id, fails);
    forall i | i in s'.callers ensures Flows(LineOf(s', i), s'.open) {
      TakeMoves(s, id, fails, i);
      TakeFlows(LineOf(s, id), s.open, fails);
    }
  }

  lemma TakeMoves(s: State, id: nat, fails: bool, i: nat)
    requires Can(s, Take(id, fails)) && i in s.callers
    ensures var l := LineOf(s, i);
            LineOf(Taken(s, id, fails), i) ==
            if i == id then l.(caller := l.caller.Take(s.waiting[id][0], fails), inbox := Some(s.waiting[id][1..]))
            else l
  {
  }

  lemma LeaveFlowing(s: State, id: nat, outcome: Outcome)
    requires Flowing(s) && Pending(s, id) && (outcome.GaveUp? || outcome.Closed?)
    ensures Flowing(Left(s, id, outcome))
  {
    var s' := Left(s, id, outcome);
    forall i | i in s'.callers ensures Flows(LineOf(s', i), s'.open) {
      LeaveMoves(s, id, outcome, i);
      LeaveFlows(LineOf(s, i), s.open, outcome);
    }
  }

  lemma LeaveMoves(s: State, id: nat, outcome: Outcome, i: nat)
    requires Pending(s, id) && i in s.callers
    ensures var l := LineOf(s, i);
            LineOf(Left(s, id, outcome), i) == if i == id then l.(caller := l.caller.(outcome := Some(outcome))) else l
  {
  }

  lemma LeaveFlows(l: Line, open: bool, outcome: Outcome)
    requires Flows(l, open) && (outcome.GaveUp? || outcome.Closed?)
    ensures l.caller.outcome.None? ==> Flows(l.(caller := l.caller.(outcome := Some(outcome))), open)
  {
  }

  lemma ForgetFlowing(s: State, id: nat)
    requires Flowing(s) && Can(s, Forget(id))
    ensures Flowing(Do(s, Forget(id)))
  {
    var s' := Do(s, Forget(id));
    forall i | i in s'.callers ensures Flows(LineOf(s', i), s'.open) {
      ForgetMoves(s, id, i);
      ForgetFlows(LineOf(s, id), s.open);
    }
  }

  lemma ForgetMoves(s: State, id: nat, i: nat)
    requires Can(s, Forget(id)) && i in s.callers
    ensures LineOf(Do(s, Forget(id)), i) == if i == id then LineOf(s, i).(inbox := None) else LineOf(s, i)
  {
  }

  /** The reader moves frames along without changing what flows. */
  lemma ReaderFlowing(s: State, a: Action)
    requires Flowing(s) && Can(s, a) && (a.Receive? || a.Put? || a.Skip?)
    ensures Flowing(Do(s, a))
  {
    var s' := Do(s, a);
    forall i | i in s'.callers ensures Flows(LineOf(s', i), s'.open) {
      ReaderMoves(s, a, i);
    }
  }

  lemma ReaderMoves(s: State, a: Action, i: nat)
    requires Can(s, a) && (a.Receive? || a.Put? || a.Skip?) && i in s.callers && Flows(LineOf(s, i), s.open)
    ensures Flows(LineOf(Do(s, a), i), s.open)
  {
    if i in s.waiting {
      ReaderKeepsFlow(s, a, i);
    }
  }

  lemma ReaderKeepsFlow(s: State, a: Action, i: nat)
    requires Can(s, a) && (a.Receive? || a.Put? || a.Skip?) && i in s.callers && i in s.waiting
    ensures i in Do(s, a).waiting && Flow(LineOf(Do(s, a), i)) == Flow(LineOf(s, i))
  {
    match a
    case Receive => assert Holding(s, i) == [];
    case _ => ReaderHands(s, a, i);
  }

  lemma ReaderHands(s: State, a: Action, i: nat)
    requires Can(s, a) && (a.Put? || a.Skip?) && i in s.callers && i in s.waiting
    ensures i in Do(s, a).waiting && Do(s, a).waiting[i] + Holding(Do(s, a), i) == s.waiting[i] + Holding(s, i)
    ensures Flow(LineOf(Do(s, a), i)) == Flow(LineOf(s, i))
  {
  }

  lemma SaidFlowing(s: State, id: nat, what: Payload, stage: Stage)
    requires Flowing(s) && s.open && id in s.jobs
    ensures Flowing(Said(s, id, what, stage))
  {
    var s' := Said(s, id, what, stage);
    forall i | i in s'.callers ensures Flows(LineOf(s', i), s'.open) {
      SaidMoves(s, id, what, stage, i);
      SayFlows(LineOf(s, i), what);
    }
  }

  lemma SaidMoves(s: State, id: nat, what: Payload, stage: Stage, i: nat)
    requires i in s.callers && id in s.jobs
    ensures var l := LineOf(s, i);
            LineOf(Said(s, id, what, stage), i) ==
            if i == id then l.(said := l.said + [what], wire := l.wire + [what]) else l
  {
    ForOneMore(s.frames, Frame(id, what), i);
  }

  lemma AcceptFlowing(s: State)
    requires Queued(s) && Flowing(s) && Can(s, Accept)
    ensures Flowing(Accepted(s))
  {
    var s' := Accepted(s);
    forall i | i in s'.callers ensures Flows(LineOf(s', i), s'.open) {
      assert Asked(s, s.requests[0]);
      AcceptMoves(s, i);
    }
  }

  lemma AcceptMoves(s: State, i: nat)
    requires s.requests != [] && Asked(s, s.requests[0]) && i in s.callers
    ensures LineOf(Accepted(s), i) == LineOf(s, i)
  {
  }

  lemma BreakFlowing(s: State, kept: nat)
    requires Flowing(s) && Can(s, Break(kept))
    ensures Flowing(Do(s, Break(kept)))
  {
    var s' := Do(s, Break(kept));
    forall i | i in s'.callers ensures Flows(LineOf(s', i), s'.open) {
      BreakMoves(s, kept, i);
      CutFlows(LineOf(s, i), s.open, For(s.frames[..kept], i));
    }
  }

  lemma BreakMoves(s: State, kept: nat, i: nat)
    requires Can(s, Break(kept)) && i in s.callers
    ensures LineOf(Do(s, Break(kept)), i) == LineOf(s, i).(wire := For(s.frames[..kept], i))
    ensures For(s.frames[..kept], i) <= LineOf(s, i).wire
  {
    ForCut(s.frames, kept, i);
  }

  lemma FlowingStep(s: State, a: Action)
    requires Inv(s) && Can(s, a)
    ensures Flowing(Do(s, a))
  {
    match a
    case Start(req, streams, sent) => IssueFlowing(s, req, streams, sent);
    case Take(id, fails) => TakeFlowing(s, id, fails);
    case GiveUp(id) => LeaveFlowing(s, id, GaveUp);
    case SeeClosed(id) => LeaveFlowing(s, id, Closed);
    case Forget(id) => ForgetFlowing(s, id);
    case Close => CloseFlowing(s);
    case Break(kept) => BreakFlowing(s, kept);
    case Receive => ReaderFlowing(s, a);
    case Put => ReaderFlowing(s, a);
    case Skip => ReaderFlowing(s, a);
    case _ => DaemonFlowing(s, a);
  }

  lemma CloseFlowing(s: State)
    requires Flowing(s) && Can(s, Close)
    ensures Flowing(Do(s, Close))
  {
    forall i | i in s.callers ensures LineOf(Do(s, Close), i) == LineOf(s, i) {
    }
  }

  lemma DaemonFlowing(s: State, a: Action)
    requires Queued(s) && Flowing(s) && Can(s, a) && (a.Accept? || a.Reply? || a.Acknowledge? || a.Emit? || a.Finish?)
    ensures Flowing(Do(s, a))
  {
    match a
    case Accept => AcceptFlowing(s);
    case Reply(id, response) => SaidFlowing(s, id, Answer(response), Answered);
    case Acknowledge(id) => SaidFlowing(s, id, ACK, Streaming);
    case Emit(id, body) => SaidFlowing(s, id, Data(body), s.jobs[id].stage);
    case Finish(id, error) => SaidFlowing(s, id, End(error), Ended);
  }

  lemma StepKeepsInv(s: State, a: Action)
    requires Inv(s) && Can(s, a)
    ensures Inv(Do(s, a))
  {
    NumberedStep(s, a);
    WorkedStep(s, a);
    QueuedStep(s, a);
    FlowingStep(s, a);
  }

  /** A run: every action is possible where it happens. */
  ghost predicate Possible(s: State, actions: seq<Action>)
    decreases actions
  {
    actions == [] || (Can(s, actions[0]) && Possible(Do(s, actions[0]), actions[1..]))
  }

  ghost function After(s: State, actions: seq<Action>): State
    requires Possible(s, actions)
    decreases actions
  {
    if actions == [] then s else After(Do(s, actions[0]), actions[1..])
  }

  lemma {:induction false} RunKeepsInv(s: State, actions: seq<Action>)
    requires Inv(s) && Possible(s, actions)
    ensures Inv(After(s, actions))
    decreases actions
  {
    if actions != [] {
      StepKeepsInv(s, actions[0]);
      RunKeepsInv(Do(s, actions[0]), actions[1..]);
    }
  }

  /** Whatever else shares the connection, Do returns the one answer the daemon made for the
      request it was given, and never finds some other kind of frame. */
  lemma DoReturnsItsOwnAnswer(actions: seq<Action>, id: nat)
    requires Possible(START, actions)
    requires var s := After(START, actions); id in s.callers && !s.callers[id].streams
    ensures var s := After(START, actions);
            var c := s.callers[id];
            && c.outcome != Some(NoAnswer)
            && (c.outcome.Some? && c.outcome.value.Responded? ==>
                && id in s.jobs && s.jobs[id].req == c.req
                && s.jobs[id].said != [] && s.jobs[id].said[0] == Answer(c.outcome.value.response)
                && (!c.req.Streamed() ==> s.jobs[id].said == [Answer(c.outcome.value.response)]))
  {
    RunKeepsInv(START, actions);
    var s := After(START, actions);
    TakenIsSaid(LineOf(s, id), s.open);
    if SaidFor(s, id) != [] { FirstIsAnswer(s.jobs[id]); }
  }

  lemma TakenIsSaid(l: Line, open: bool)
    requires Flows(l, open)
    ensures l.caller.taken <= l.said
    ensures l.inbox.Some? ==> l.caller.taken + l.inbox.value <= l.said
  {
    if l.inbox.Some? {
      assert l.caller.taken + l.inbox.value <= Flow(l);
    }
  }

  lemma FirstIsAnswer(j: Job)
    requires Shaped(j) && j.said != []
    ensures j.said[0].Answer?
  {
  }

  /** The frames a stream's handler emitted before its end. */
  function UntilEnd(said: seq<Payload>): seq<Payload> {
    if said == [] || said[0].End? then [] else [said[0]] + UntilEnd(said[1..])
  }

  lemma {:induction false} UntilEndSplits(before: seq<Payload>, after: seq<Payload>)
    requires forall i | 0 <= i < |before| :: !before[i].End?
    ensures UntilEnd(before + after) == before + UntilEnd(after)
  {
    if before == [] {
      assert before + after == after;
    } else {
      var rest := before[1..];
      UntilEndSplits(rest, after);
      assert before + after == [before[0]] + (rest + after) && (before + after)[1..] == rest + after;
      assert before + UntilEnd(after) == [before[0]] + (rest + UntilEnd(after));
    }
  }

  /** Stream hands its callback a prefix of what the daemon emitted for its own request, in
      that order, after the acknowledgement and before the end; when it returns because the
      daemon ended the stream, it has handed over all of it, and returns that end's error. */
  lemma StreamHandsItsOwnFrames(actions: seq<Action>, id: nat)
    requires Possible(START, actions)
    requires var s := After(START, actions); id in s.callers && s.callers[id].streams
    ensures var s := After(START, actions);
            var c, said := s.callers[id], SaidFor(s, id);
            && c.outcome != Some(NoAnswer)
            && (c.given != [] || c.acked ==> id in s.jobs && s.jobs[id].req == c.req && said != [])
            && (said != [] ==> c.given <= UntilEnd(said[1..]))
            && (c.outcome.Some? && c.outcome.value.Finished? ==>
                && id in s.jobs && s.jobs[id].req == c.req && c.req.Streamed() && said != []
                && c.given == UntilEnd(said[1..])
                && |c.given| + 1 < |said| && said[|c.given| + 1] == End(c.outcome.value.error))
            && (c.outcome.Some? && c.outcome.value.Rejected? ==>
                && id in s.jobs && s.jobs[id].req == c.req && !c.req.Streamed()
                && said == [Answer(c.outcome.value.response)])
  {
    RunKeepsInv(START, actions);
    var s := After(START, actions);
    TakenIsSaid(LineOf(s, id), s.open);
    if SaidFor(s, id) != [] { FirstIsAnswer(s.jobs[id]); }
    GivenIsSaid(s.callers[id], SaidFor(s, id));
  }

  lemma GivenIsSaid(c: Caller, said: seq<Payload>)
    requires c.streams && Sound(c) && c.taken <= said
    ensures said != [] ==> c.given <= UntilEnd(said[1..])
    ensures c.outcome.Some? && c.outcome.value.Finished? ==>
              said != [] && c.given == UntilEnd(said[1..])
              && |c.given| + 1 < |said| && said[|c.given| + 1] == End(c.outcome.value.error)
  {
    if c.taken != [] && Acked(c) {
      var rest := said[|c.given| + 1..];
      assert said[1..] == c.given + rest;
      UntilEndSplits(c.given, rest);
    }
  }

  // The reader is never held up by a request nothing waits for.

  /** The reader has a frame to move and cannot. */
  predicate Stuck(s: State) {
    (s.held.Some? || s.frames != []) && !Can(s, Receive) && !Can(s, Put) && !Can(s, Skip)
  }

  /** The reader waits only for the callback of a stream that has a full inbox unread; a
      request with one answer never holds it up. */
  lemma ReaderStuckIff(actions: seq<Action>)
    requires Possible(START, actions)
    ensures var s := After(START, actions);
            && (Stuck(s) <==> s.held.Some? && s.held.value.id in s.waiting && |s.waiting[s.held.value.id]| == INBOX)
            && (Stuck(s) ==> s.held.value.id in s.jobs && s.jobs[s.held.value.id].req.Streamed())
  {
    RunKeepsInv(START, actions);
    var s := After(START, actions);
    if s.held.Some? && s.held.value.id in s.waiting {
      FullInboxIsStreamed(s, s.held.value.id);
    }
    StuckIff(s);
  }

  lemma StuckIff(s: State)
    requires s.held.Some? && s.held.value.id in s.waiting ==> |s.waiting[s.held.value.id]| <= INBOX
    ensures Stuck(s) <==> s.held.Some? && s.held.value.id in s.waiting && |s.waiting[s.held.value.id]| == INBOX
  {
  }

  lemma FullInboxIsStreamed(s: State, id: nat)
    requires Inv(s) && id in s.waiting
    ensures |s.waiting[id]| <= INBOX
    ensures |s.waiting[id]| == INBOX ==> id in s.jobs && s.jobs[id].req.Streamed()
  {
    var l := LineOf(s, id);
    TakenIsSaid(l, s.open);
    if id in s.jobs { AnsweredOnce(s.jobs[id]); }
  }

  lemma AnsweredOnce(j: Job)
    requires Shaped(j)
    ensures !j.req.Streamed() ==> |j.said| <= 1
  {
  }

  /** The reader's own steps past n frames nothing waits for. */
  function Passing(n: nat): seq<Action> {
    if n == 0 then [] else [Receive] + Passing(n - 1)
  }

  lemma {:induction false} ForgottenFramesPass(s: State, n: nat)
    requires n <= |s.frames| && forall k | 0 <= k < n :: s.frames[k].id !in s.waiting
    requires s.held.Some? ==> s.held.value.id !in s.waiting
    ensures var steps := (if s.held.Some? then [Skip] else []) + Passing(n);
            && Possible(s, steps) && After(s, steps) == s.(held := None, frames := s.frames[n..])
    decreases n, if s.held.Some? then 1 else 0
  {
    var steps := (if s.held.Some? then [Skip] else []) + Passing(n);
    if s.held.Some? {
      ForgottenFramesPass(s.(held := None), n);
      assert steps == [Skip] + ([] + Passing(n)) && steps[1..] == [] + Passing(n);
    } else if n > 0 {
      ForgottenFramesPass(Received(s), n - 1);
      assert steps == [Receive] + ([] + Passing(n - 1)) && steps[1..] == [] + Passing(n - 1);
    } else {
      assert s.frames[n..] == s.frames;
    }
  }
}
