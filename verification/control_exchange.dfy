/** What one connection can do for a request, whole exchanges of it, and how a stream its
    caller is done with is stopped. */
module ControlExchange {
  import opened Stack
  import opened Control
  import opened ControlRun

  // Whole exchanges.

  lemma {:induction false} RunsTogether(s: State, first: seq<Action>, more: seq<Action>)
    requires Possible(s, first) && Possible(After(s, first), more)
    ensures Possible(s, first + more) && After(s, first + more) == After(After(s, first), more)
    decreases |first|
  {
    if first == [] {
      assert first + more == more;
    } else {
      RunsTogether(Do(s, first[0]), first[1..], more);
      assert (first + more)[1..] == first[1..] + more;
    }
  }

  lemma OneStep(s: State, a: Action)
    requires Can(s, a)
    ensures Possible(s, [a]) && After(s, [a]) == Do(s, a)
  {
    assert [a][1..] == [];
  }

  lemma TwoSteps(s: State, a: Action, b: Action)
    requires Can(s, a) && Can(Do(s, a), b)
    ensures Possible(s, [a, b]) && After(s, [a, b]) == Do(Do(s, a), b)
  {
    OneStep(s, a);
    OneStep(Do(s, a), b);
    RunsTogether(s, [a], [b]);
    assert [a] + [b] == [a, b];
  }

  /** Nothing is on its way, and frames get through. */
  ghost predicate Idle(s: State) {
    s.open && s.requests == [] && s.frames == [] && s.held.None?
  }

  /** A request is asked and the daemon begins on it. */
  function Asking(id: nat, req: Request, streams: bool): seq<Action> {
    [Start(req, streams, true), Accept]
  }

  /** One frame's way from the wire to the caller. */
  function Handing(id: nat): seq<Action> {
    [Receive, Put, Action.Take(id, false)]
  }

  /** Asked and not yet answered: nothing but this request is in progress. */
  ghost predicate Waits(s: State, id: nat, req: Request, c: Caller, stage: Stage) {
    && Idle(s) && id in s.jobs && s.jobs[id].req == req && s.jobs[id].stage == stage && !s.jobs[id].stopped
    && id in s.callers && s.callers[id] == c && c.req == req && c.outcome.None?
    && id in s.waiting && s.waiting[id] == []
  }

  lemma AskingWaits(s: State, req: Request, streams: bool)
    requires Idle(s)
    ensures Possible(s, Asking(s.nextID + 1, req, streams))
    ensures var id, t := s.nextID + 1, After(s, Asking(s.nextID + 1, req, streams));
            Waits(t, id, req, Caller(req, streams, false, [], None, []), Begun)
  {
    AskedIsBegun(s, req, streams);
    TwoSteps(s, Start(req, streams, true), Accept);
  }

  lemma AskedIsBegun(s: State, req: Request, streams: bool)
    requires Idle(s)
    ensures var id, s1 := s.nextID + 1, Issued(s, req, streams, true);
            && Can(s, Start(req, streams, true)) && Do(s, Start(req, streams, true)) == s1
            && Can(s1, Accept) && Do(s1, Accept) == Accepted(s1)
            && Waits(Accepted(s1), id, req, Caller(req, streams, false, [], None, []), Begun)
  {
    var s1 := Issued(s, req, streams, true);
    assert s1.requests == [Ask(s.nextID + 1, req)];
    assert Accepted(s1).requests == [];
  }

  /** The daemon says one thing and it is handed over. */
  lemma SaidIsHanded(s: State, id: nat, say: Action, what: Payload, req: Request, c: Caller, was: Stage, stage: Stage)
    requires Waits(s, id, req, c, was) && Can(s, say) && Do(s, say) == Said(s, id, what, stage)
    ensures Possible(s, [say] + Handing(id))
    ensures var t := After(s, [say] + Handing(id));
            && t.callers.Keys == s.callers.Keys && t.callers[id] == c.Take(what, false)
            && (c.Take(what, false).outcome.None? ==> Waits(t, id, req, c.Take(what, false), stage))
  {
    var s1 := Do(s, say);
    var s2 := Do(s1, Receive);
    var s3 := Do(s2, Put);
    OneStep(s, say);
    TwoSteps(s1, Receive, Put);
    assert s3.waiting[id] == [what];
    OneStep(s3, Action.Take(id, false));
    RunsTogether(s1, [Receive, Put], [Action.Take(id, false)]);
    assert [Receive, Put] + [Action.Take(id, false)] == Handing(id);
    RunsTogether(s, [say], Handing(id));
  }

  /** On an idle connection, a request with one answer (the lines of a log that is not
      followed among them) can get any answer the daemon gives, and Do returns it. */
  lemma AnyAnswerIsReturned(s: State, req: Request, response: Response)
    requires Idle(s) && (req.op.Unary? || (req.op.Logs? && !req.op.follow))
    ensures var id := s.nextID + 1;
            var exchange := Asking(id, req, false) + ([Reply(id, response)] + Handing(id));
            && Possible(s, exchange) && id in After(s, exchange).callers
            && After(s, exchange).callers[id].outcome == Some(Responded(response))
  {
    var id := s.nextID + 1;
    AskingWaits(s, req, false);
    var t := After(s, Asking(id, req, false));
    SaidIsHanded(t, id, Reply(id, response), Answer(response), req, Caller(req, false, false, [], None, []), Begun,
      Answered);
    RunsTogether(s, Asking(id, req, false), [Reply(id, response)] + Handing(id));
  }

  /** A stream that may be started: the journal's events, a log that is followed, and a
      subscription to some topic at an interval that reads. */
  ghost predicate Streams(op: Op) {
    op.Events? || (op.Logs? && op.follow) || (op.Subscribe? && !op.badInterval && op.topics != 0)
  }

  /** On an idle connection such a stream can be acknowledged, hand its callback any frame,
      and end with any error, which Stream returns. */
  lemma AnyStreamIsHandedOver(s: State, req: Request, body: string, error: string)
    requires Idle(s) && Streams(req.op)
    ensures var id := s.nextID + 1;
            var exchange := Asking(id, req, true) + (([Acknowledge(id)] + Handing(id))
                + (([Emit(id, body)] + Handing(id)) + ([Finish(id, error)] + Handing(id))));
            && Possible(s, exchange) && id in After(s, exchange).callers
            && After(s, exchange).callers[id].given == [Data(body)]
            && After(s, exchange).callers[id].outcome == Some(Finished(error))
  {
    var id := s.nextID + 1;
    var c := Caller(req, true, false, [], None, []);
    AskingWaits(s, req, true);
    var t := After(s, Asking(id, req, true));
    SaidIsHanded(t, id, Acknowledge(id), ACK, req, c, Begun, Streaming);
    StreamGoesOn(After(t, [Acknowledge(id)] + Handing(id)), id, req, c.Take(ACK, false), body, error);
    var rest := ([Emit(id, body)] + Handing(id)) + ([Finish(id, error)] + Handing(id));
    RunsTogether(t, [Acknowledge(id)] + Handing(id), rest);
    RunsTogether(s, Asking(id, req, true), ([Acknowledge(id)] + Handing(id)) + rest);
  }

  lemma StreamGoesOn(s: State, id: nat, req: Request, c: Caller, body: string, error: string)
    requires Waits(s, id, req, c, Streaming) && c.streams && c.acked && c.given == []
    ensures var rest := ([Emit(id, body)] + Handing(id)) + ([Finish(id, error)] + Handing(id));
            && Possible(s, rest) && id in After(s, rest).callers
            && After(s, rest).callers[id].given == [Data(body)]
            && After(s, rest).callers[id].outcome == Some(Finished(error))
  {
    SaidIsHanded(s, id, Emit(id, body), Data(body), req, c, Streaming, Streaming);
    var t := After(s, [Emit(id, body)] + Handing(id));
    SaidIsHanded(t, id, Finish(id, error), End(error), req, c.Take(Data(body), false), Streaming, Ended);
    RunsTogether(s, [Emit(id, body)] + Handing(id), [Finish(id, error)] + Handing(id));
  }

  // How a caller leaves.

  /** A callback that fails ends its stream, and the daemon is told while it can be. */
  lemma FailingCallbackStops(s: State, id: nat)
    requires Pending(s, id) && s.callers[id].streams && s.callers[id].acked
    requires s.waiting[id] != [] && s.waiting[id][0].Data?
    ensures Possible(s, [Action.Take(id, true)])
    ensures var s' := After(s, [Action.Take(id, true)]);
            && id in s'.callers && s'.callers[id].outcome == Some(Stopped)
            && s'.callers[id].given == s.callers[id].given + [s.waiting[id][0]]
            && s'.requests == if s.open then s.requests + [Cancel(id)] else s.requests
  {
    OneStep(s, Action.Take(id, true));
  }

  /** A caller may give up at any time; the daemon is told of a stream, while it can be, and
      goes on with what has one answer. */
  lemma AnyCallerMayGiveUp(s: State, id: nat)
    requires Pending(s, id)
    ensures Possible(s, [GiveUp(id)])
    ensures var s' := After(s, [GiveUp(id)]);
            && id in s'.callers && s'.callers[id].outcome == Some(GaveUp) && s'.jobs == s.jobs
            && s'.requests == if s.open && s.callers[id].streams then s.requests + [Cancel(id)] else s.requests
  {
    OneStep(s, GiveUp(id));
  }

  /** A caller that has left is forgotten, whatever it left unread, and holds nothing up. */
  lemma LeftIsForgotten(s: State, id: nat)
    requires id in s.callers && s.callers[id].outcome.Some?
    ensures id in s.waiting ==> Possible(s, [Forget(id)]) && After(s, [Forget(id)]) == s.(waiting := s.waiting - {id})
    ensures id !in s.waiting && s.held.Some? && s.held.value.id == id ==>
              Possible(s, [Skip]) && After(s, [Skip]) == s.(held := None)
  {
    if id in s.waiting {
      OneStep(s, Forget(id));
    } else if s.held.Some? && s.held.value.id == id {
      OneStep(s, Skip);
    }
  }

  // Subscriptions the daemon refuses.

  /** No topic, or an interval that does not read. */
  ghost predicate Refuses(op: Op) {
    op.Subscribe? && (op.badInterval || op.topics == 0)
  }

  ghost predicate RefusedSaid(s: State) {
    forall id, p | id in s.jobs && Refuses(s.jobs[id].req.op) && p in s.jobs[id].said ::
      p.Answer? && !p.response.ok
  }

  lemma StepKeepsRefused(s: State, a: Action)
    requires Worked(s) && RefusedSaid(s) && Can(s, a)
    ensures RefusedSaid(Do(s, a))
  {
    match a
    case Reply(id, response) => ReplyKeepsRefused(s, id, response);
    case Acknowledge(id) => AcknowledgeKeepsRefused(s, id);
    case Emit(id, body) => StreamedKeepsRefused(s, id, Data(body), s.jobs[id].stage);
    case Finish(id, error) => StreamedKeepsRefused(s, id, End(error), Ended);
    case Accept => AcceptKeepsRefused(s);
    case _ => OtherKeepsRefused(s, a);
  }

  lemma ReplyKeepsRefused(s: State, id: nat, response: Response)
    requires RefusedSaid(s) && Can(s, Reply(id, response))
    ensures RefusedSaid(Said(s, id, Answer(response), Answered))
  {
    SaidKeepsRefused(s, id, Answer(response), Answered);
  }

  lemma AcknowledgeKeepsRefused(s: State, id: nat)
    requires RefusedSaid(s) && Can(s, Acknowledge(id))
    ensures RefusedSaid(Said(s, id, ACK, Streaming))
  {
    SaidKeepsRefused(s, id, ACK, Streaming);
  }

  lemma StreamedKeepsRefused(s: State, id: nat, what: Payload, stage: Stage)
    requires Worked(s) && RefusedSaid(s) && id in s.jobs && (s.jobs[id].stage.Streaming? || s.jobs[id].stage.Ended?)
    ensures RefusedSaid(Said(s, id, what, stage))
  {
    assert !Refuses(s.jobs[id].req.op);
    SaidKeepsRefused(s, id, what, stage);
  }

  lemma SaidKeepsRefused(s: State, id: nat, what: Payload, stage: Stage)
    requires RefusedSaid(s) && id in s.jobs
    requires Refuses(s.jobs[id].req.op) ==> what.Answer? && !what.response.ok
    ensures RefusedSaid(Said(s, id, what, stage))
  {
  }

  lemma AcceptKeepsRefused(s: State)
    requires RefusedSaid(s) && s.requests != []
    ensures RefusedSaid(Accepted(s))
  {
  }

  lemma OtherKeepsRefused(s: State, a: Action)
    requires RefusedSaid(s) && Can(s, a)
    requires !a.Reply? && !a.Acknowledge? && !a.Emit? && !a.Finish? && !a.Accept?
    ensures RefusedSaid(Do(s, a))
  {
    assert Do(s, a).jobs == s.jobs;
  }

  lemma {:induction false} RunKeepsRefused(s: State, actions: seq<Action>)
    requires Inv(s) && RefusedSaid(s) && Possible(s, actions)
    ensures RefusedSaid(After(s, actions))
    decreases |actions|
  {
    if actions != [] {
      StepKeepsInv(s, actions[0]);
      StepKeepsRefused(s, actions[0]);
      RunKeepsRefused(Do(s, actions[0]), actions[1..]);
    }
  }

  /** A subscription with no topic, or an interval that does not read, is never started:
      over any run its callback is given nothing, and the answer it gets is an error. */
  lemma RefusedSubscriptionGetsAnError(actions: seq<Action>, id: nat)
    requires Possible(START, actions)
    requires var s := After(START, actions); id in s.callers && Refuses(s.callers[id].req.op)
    ensures var c := After(START, actions).callers[id];
            && !c.acked && c.given == []
            && (c.outcome.Some? && (c.outcome.value.Responded? || c.outcome.value.Rejected?) ==>
                  !c.outcome.value.response.ok)
  {
    RunKeepsInv(START, actions);
    RunKeepsRefused(START, actions);
    var s := After(START, actions);
    TakenIsSaid(LineOf(s, id), s.open);
    var c := s.callers[id];
    if c.taken != [] {
      assert c.taken[0] == SaidFor(s, id)[0] && SaidFor(s, id)[0] in s.jobs[id].said;
    }
    RefusedIsNotGiven(c);
  }

  lemma RefusedIsNotGiven(c: Caller)
    requires Sound(c) && (c.taken != [] ==> c.taken[0].Answer? && !c.taken[0].response.ok)
    ensures !c.acked && c.given == []
    ensures c.outcome.Some? && (c.outcome.value.Responded? || c.outcome.value.Rejected?) ==>
              !c.outcome.value.response.ok
  {
  }

  // Stopping a stream.

  /** Its caller is done with the stream: the callback failed, or the context ended. */
  ghost predicate Quit(c: Caller) {
    c.streams && (c.outcome == Some(Stopped) || c.outcome == Some(GaveUp))
  }

  ghost predicate Begins(s: State, id: nat, n: nat)
    requires n <= |s.requests|
  {
    id in s.jobs || exists j :: 0 <= j < n && s.requests[j].Ask? && s.requests[j].id == id
  }

  ghost predicate StopComes(s: State, id: nat) {
    (id in s.jobs && s.jobs[id].stopped) || Cancel(id) in s.requests
  }

  /** Every stream quit on an open connection is stopped, or the message is on its way. */
  ghost predicate QuitsAreTold(s: State) {
    s.open ==> forall id | id in s.callers && Quit(s.callers[id]) :: StopComes(s, id)
  }

  /** And no other is; and the message finds the stream begun. */
  ghost predicate OnlyQuitsAreTold(s: State) {
    && (forall id | id in s.jobs && s.jobs[id].stopped :: id in s.callers && Quit(s.callers[id]))
    && (forall i | 0 <= i < |s.requests| && s.requests[i].Cancel? ::
          s.requests[i].id in s.callers && Quit(s.callers[s.requests[i].id]) && Begins(s, s.requests[i].id, i))
  }

  /** What was sent on an open connection is begun or on its way. */
  ghost predicate AsksArrive(s: State) {
    s.open ==> forall id | id in s.callers && s.callers[id].outcome != Some(NotSent) :: Begins(s, id, |s.requests|)
  }

  ghost predicate Stops(s: State) {
    QuitsAreTold(s) && OnlyQuitsAreTold(s) && AsksArrive(s)
  }

  lemma StepKeepsStops(s: State, a: Action)
    requires Numbered(s) && Worked(s) && Queued(s) && Stops(s) && Can(s, a)
    ensures Stops(Do(s, a))
  {
    match a
    case Start(req, streams, sent) => StartKeepsStops(s, req, streams, sent);
    case Take(id, fails) => TakeKeepsStops(s, id, fails);
    case GiveUp(id) => LeaveKeepsStops(s, id, GaveUp);
    case SeeClosed(id) => LeaveKeepsStops(s, id, Closed);
    case Accept => AcceptKeepsStops(s);
    case Break(kept) => BreakKeepsStops(s, kept);
    case _ => WorkKeepsStops(s, a);
  }

  lemma WorkKeepsStops(s: State, a: Action)
    requires Stops(s) && Can(s, a)
    requires !a.Start? && !a.Take? && !a.GiveUp? && !a.SeeClosed? && !a.Accept? && !a.Break?
    ensures Stops(Do(s, a))
  {
    match a
    case Reply(id, response) => SaidKeepsStops(s, id, Answer(response), Answered);
    case Acknowledge(id) => SaidKeepsStops(s, id, ACK, Streaming);
    case Emit(id, body) => SaidKeepsStops(s, id, Data(body), s.jobs[id].stage);
    case Finish(id, error) => SaidKeepsStops(s, id, End(error), Ended);
    case _ => ReaderKeepsStops(s, a);
  }

  lemma ReaderKeepsStops(s: State, a: Action)
    requires Stops(s) && Can(s, a) && (a.Receive? || a.Put? || a.Skip? || a.Close? || a.Forget?)
    ensures Stops(Do(s, a))
  {
    SameStops(s, Do(s, a));
  }

  lemma SameStops(s: State, s': State)
    requires Stops(s) && s'.open == s.open && s'.requests == s.requests
    requires s'.jobs.Keys == s.jobs.Keys && forall id | id in s.jobs :: s'.jobs[id].stopped == s.jobs[id].stopped
    requires s'.callers.Keys == s.callers.Keys
    requires forall id | id in s.callers :: SameQuit(s.callers[id], s'.callers[id])
    ensures Stops(s')
  {
    forall id, n: nat | n <= |s.requests| ensures Begins(s', id, n) == Begins(s, id, n) {
    }
  }

  ghost predicate SameQuit(c: Caller, d: Caller) {
    (Quit(c) <==> Quit(d)) && (c.outcome == Some(NotSent) <==> d.outcome == Some(NotSent))
  }

  lemma SaidKeepsStops(s: State, id: nat, what: Payload, stage: Stage)
    requires Stops(s) && id in s.jobs
    ensures Stops(Said(s, id, what, stage))
  {
    SameStops(s, Said(s, id, what, stage));
  }

  lemma StartKeepsStops(s: State, req: Request, streams: bool, sent: bool)
    requires Numbered(s) && Worked(s) && Stops(s) && (sent ==> s.open)
    ensures Stops(Issued(s, req, streams, sent))
  {
    var s', id := Issued(s, req, streams, sent), s.nextID + 1;
    assert id !in s.callers;
    MoreRequests(s, s');
    if sent { assert s'.requests[|s.requests|] == Ask(id, req); }
  }

  /** Messages added at the end change nothing for those before. */
  lemma MoreRequests(s: State, s': State)
    requires s.requests <= s'.requests && s'.jobs.Keys == s.jobs.Keys
    ensures forall id, n: nat | n <= |s.requests| :: Begins(s', id, n) == Begins(s, id, n)
    ensures forall id, n: nat | n <= |s.requests| && Begins(s, id, n) :: Begins(s', id, |s'.requests|)
    ensures forall m | m in s.requests :: m in s'.requests
  {
  }

  lemma QuitKeepsStops(s: State, s': State, id: nat)
    requires Stops(s) && id in s.callers && s.callers[id].outcome.None?
    requires s'.open == s.open && s'.jobs == s.jobs && s'.callers.Keys == s.callers.Keys && Quit(s'.callers[id])
    requires forall i | i in s.callers && i != id :: s'.callers[i] == s.callers[i]
    requires s'.requests == if s.open then s.requests + [Cancel(id)] else s.requests
    ensures Stops(s')
  {
    MoreRequests(s, s');
    if s.open {
      assert s'.requests[|s.requests|] == Cancel(id);
      assert Begins(s, id, |s.requests|);
    }
  }

  lemma TakeKeepsStops(s: State, id: nat, fails: bool)
    requires Stops(s) && Can(s, Action.Take(id, fails))
    ensures Stops(Taken(s, id, fails))
  {
    var c := s.callers[id].Take(s.waiting[id][0], fails);
    if c.outcome == Some(Stopped) {
      QuitKeepsStops(s, Taken(s, id, fails), id);
    } else {
      SameStops(s, Taken(s, id, fails));
    }
  }

  lemma LeaveKeepsStops(s: State, id: nat, outcome: Outcome)
    requires Stops(s) && Pending(s, id) && (outcome.GaveUp? || outcome.Closed?)
    ensures Stops(Left(s, id, outcome))
  {
    if outcome.GaveUp? && s.callers[id].streams {
      QuitKeepsStops(s, Left(s, id, outcome), id);
    } else {
      SameStops(s, Left(s, id, outcome));
    }
  }

  lemma BreakKeepsStops(s: State, kept: nat)
    requires Stops(s) && Can(s, Break(kept))
    ensures Stops(Do(s, Break(kept)))
  {
  }

  lemma AcceptKeepsStops(s: State)
    requires Queued(s) && Stops(s) && s.requests != []
    ensures Stops(Accepted(s))
  {
    AcceptKeepsQuits(s);
    AcceptKeepsOnly(s);
    AcceptKeepsAsks(s);
  }

  /** What was begun or ahead in the queue is begun or ahead in it after the first message
      is taken off. */
  lemma AcceptBegins(s: State, id: nat, n: nat)
    requires s.requests != [] && 0 < n <= |s.requests| && Begins(s, id, n)
    ensures Begins(Accepted(s), id, n - 1)
  {
    if id !in s.jobs {
      var j :| 0 <= j < n && s.requests[j].Ask? && s.requests[j].id == id;
      if j > 0 { assert Accepted(s).requests[j - 1] == s.requests[j]; }
    }
  }

  lemma AcceptKeepsAsks(s: State)
    requires AsksArrive(s) && s.requests != []
    ensures AsksArrive(Accepted(s))
  {
    forall id | id in s.callers && s.callers[id].outcome != Some(NotSent) && s.open
      ensures Begins(Accepted(s), id, |s.requests| - 1) {
      AcceptBegins(s, id, |s.requests|);
    }
  }

  lemma AcceptKeepsQuits(s: State)
    requires Queued(s) && Stops(s) && s.requests != []
    ensures QuitsAreTold(Accepted(s))
  {
    var s' := Accepted(s);
    forall id | id in s.callers && Quit(s.callers[id]) && s.open ensures StopComes(s', id) {
      assert StopComes(s, id);
      assert Asked(s, s.requests[0]);
      if Cancel(id) in s.requests {
        var i :| 0 <= i < |s.requests| && s.requests[i] == Cancel(id);
        if i == 0 {
          assert Begins(s, id, 0);
        } else {
          assert s'.requests[i - 1] == Cancel(id);
        }
      }
    }
  }

  lemma AcceptKeepsOnly(s: State)
    requires OnlyQuitsAreTold(s) && s.requests != []
    ensures OnlyQuitsAreTold(Accepted(s))
  {
    var s' := Accepted(s);
    forall i | 0 <= i < |s'.requests| && s'.requests[i].Cancel?
      ensures s'.requests[i].id in s.callers && Quit(s.callers[s'.requests[i].id]) && Begins(s', s'.requests[i].id, i) {
      assert s'.requests[i] == s.requests[i + 1];
      AcceptBegins(s, s.requests[i + 1].id, i + 1);
    }
    forall id | id in s'.jobs && s'.jobs[id].stopped ensures id in s.callers && Quit(s.callers[id]) {
      if s.requests[0] == Cancel(id) { assert s.requests[0].Cancel?; }
    }
  }

  lemma {:induction false} RunKeepsStops(s: State, actions: seq<Action>)
    requires Inv(s) && Stops(s) && Possible(s, actions)
    ensures Stops(After(s, actions))
    decreases |actions|
  {
    if actions != [] {
      StepKeepsInv(s, actions[0]);
      StepKeepsStops(s, actions[0]);
      RunKeepsStops(Do(s, actions[0]), actions[1..]);
    }
  }

  /** Over any run the daemon stops no stream but one whose callback failed or whose context
      ended; and while the connection is open every such stream has been stopped, or the
      message that stops it is on its way, behind the request itself. */
  lemma QuitStreamsAreStopped(actions: seq<Action>, id: nat)
    requires Possible(START, actions)
    ensures var s := After(START, actions);
            && (id in s.jobs && s.jobs[id].stopped ==> id in s.callers && Quit(s.callers[id]))
            && (s.open && id in s.callers && Quit(s.callers[id]) ==>
                  (id in s.jobs && s.jobs[id].stopped) || Cancel(id) in s.requests)
            && (s.open && s.requests == [] && id in s.callers && Quit(s.callers[id]) ==>
                  id in s.jobs && s.jobs[id].stopped)
  {
    RunKeepsInv(START, actions);
    RunKeepsStops(START, actions);
  }

  // Requests that get no answer.

  /** A request that was not sent is nowhere, and one told that the connection closed is told
      so after it did. */
  ghost predicate Fated(s: State) {
    && (s.closed ==> !s.open)
    && (forall id | id in s.callers && s.callers[id].outcome == Some(Closed) :: s.closed)
    && (forall id | id in s.callers && s.callers[id].outcome == Some(NotSent) :: Nowhere(s, id))
  }

  ghost predicate Nowhere(s: State, id: nat) {
    id !in s.waiting && id !in s.jobs && forall m | m in s.requests :: m.id != id
  }

  lemma StepKeepsFated(s: State, a: Action)
    requires Numbered(s) && Worked(s) && Queued(s) && OnlyQuitsAreTold(s) && Fated(s) && Can(s, a)
    ensures Fated(Do(s, a))
  {
    match a
    case Start(req, streams, sent) => StartKeepsFated(s, req, streams, sent);
    case Take(id, fails) => TakeKeepsFated(s, id, fails);
    case GiveUp(id) => LeaveKeepsFated(s, id, GaveUp);
    case SeeClosed(id) => LeaveKeepsFated(s, id, Closed);
    case Accept => AcceptKeepsFated(s);
    case _ => OtherKeepsFated(s, a);
  }

  lemma StartKeepsFated(s: State, req: Request, streams: bool, sent: bool)
    requires Numbered(s) && Worked(s) && Queued(s) && OnlyQuitsAreTold(s) && Fated(s)
    ensures Fated(Issued(s, req, streams, sent))
  {
    var id := s.nextID + 1;
    assert id !in s.callers;
    forall i | 0 <= i < |s.requests| ensures s.requests[i].id != id {
      assert Asked(s, s.requests[i]);
    }
  }

  lemma TakeKeepsFated(s: State, id: nat, fails: bool)
    requires Fated(s) && Can(s, Action.Take(id, fails))
    ensures Fated(Taken(s, id, fails))
  {
    var c := s.callers[id].Take(s.waiting[id][0], fails);
    assert c.outcome != Some(NotSent) && c.outcome != Some(Closed);
    NowhereStays(s, Taken(s, id, fails), id);
  }

  lemma LeaveKeepsFated(s: State, id: nat, outcome: Outcome)
    requires Fated(s) && Pending(s, id) && (outcome.GaveUp? || (outcome.Closed? && s.closed))
    ensures Fated(Left(s, id, outcome))
  {
    NowhereStays(s, Left(s, id, outcome), id);
  }

  lemma NowhereStays(s: State, s': State, id: nat)
    requires id in s.waiting && s'.waiting.Keys == s.waiting.Keys && s'.jobs == s.jobs
    requires s'.requests == s.requests || s'.requests == s.requests + [Cancel(id)]
    ensures forall i :: Nowhere(s, i) ==> Nowhere(s', i)
  {
  }

  lemma AcceptKeepsFated(s: State)
    requires Fated(s) && s.requests != []
    ensures Fated(Accepted(s))
  {
    forall id | Nowhere(s, id) ensures Nowhere(Accepted(s), id) {
      assert s.requests[0].id != id;
    }
  }

  lemma OtherKeepsFated(s: State, a: Action)
    requires Fated(s) && Can(s, a)
    requires !a.Start? && !a.Take? && !a.GiveUp? && !a.SeeClosed? && !a.Accept?
    ensures Fated(Do(s, a))
  {
    var s' := Do(s, a);
    assert s'.callers == s.callers && s'.jobs.Keys == s.jobs.Keys;
    assert s'.requests == s.requests || s'.requests == [];
    forall id | Nowhere(s, id) ensures Nowhere(s', id) {
      if a.Put? { assert s.held.value.id != id; }
    }
  }

  lemma {:induction false} RunKeepsFated(s: State, actions: seq<Action>)
    requires Inv(s) && Stops(s) && Fated(s) && Possible(s, actions)
    ensures Fated(After(s, actions))
    decreases |actions|
  {
    if actions != [] {
      StepKeepsInv(s, actions[0]);
      StepKeepsStops(s, actions[0]);
      StepKeepsFated(s, actions[0]);
      RunKeepsFated(Do(s, actions[0]), actions[1..]);
    }
  }

  /** Over any run a request that could not be sent is never begun, and no caller is told
      that the connection closed before it did. */
  lemma UnsentIsNeverBegun(actions: seq<Action>, id: nat)
    requires Possible(START, actions)
    requires id in After(START, actions).callers
    ensures var s := After(START, actions);
            && (s.callers[id].outcome == Some(NotSent) ==>
                  id !in s.jobs && id !in s.waiting && forall m | m in s.requests :: m.id != id)
            && (s.callers[id].outcome == Some(Closed) ==> s.closed && !s.open)
  {
    RunKeepsInv(START, actions);
    RunKeepsFated(START, actions);
  }

  /** A request can fail to be sent at any time, and its caller is told so at once. */
  lemma UnsentIsReported(s: State, req: Request, streams: bool)
    ensures Possible(s, [Start(req, streams, false)])
    ensures var s' := After(s, [Start(req, streams, false)]);
            && s.nextID + 1 in s'.callers && s'.callers[s.nextID + 1].outcome == Some(NotSent)
            && s'.requests == s.requests && s'.waiting == s.waiting
  {
    var a := Start(req, streams, false);
    OneStep(s, a);
    assert Do(s, a) == Issued(s, req, streams, false);
    UnsentIsKept(s, req, streams);
  }

  lemma UnsentIsKept(s: State, req: Request, streams: bool)
    ensures var s', id := Issued(s, req, streams, false), s.nextID + 1;
            && id in s'.callers && s'.callers[id].outcome == Some(NotSent)
            && s'.requests == s.requests && s'.waiting == s.waiting
  {
  }

  /** A connection that breaks, whatever was on its way, frees every caller that waits. */
  lemma BrokenConnectionFreesCallers(s: State, id: nat)
    requires s.open && s.held.None? && Pending(s, id)
    ensures var steps := [Break(0), Close, SeeClosed(id)];
            && Possible(s, steps) && id in After(s, steps).callers
            && After(s, steps).callers[id].outcome == Some(Closed)
  {
    TwoSteps(s, Break(0), Close);
    var t := Do(Do(s, Break(0)), Close);
    OneStep(t, SeeClosed(id));
    RunsTogether(s, [Break(0), Close], [SeeClosed(id)]);
    assert [Break(0), Close] + [SeeClosed(id)] == [Break(0), Close, SeeClosed(id)];
  }

  /** A stream that was stopped ends without an error; any other may end with any. */
  lemma StoppedStreamEndsQuietly(s: State, id: nat, error: string)
    requires s.open && id in s.jobs && s.jobs[id].stage.Streaming?
    ensures Possible(s, [Finish(id, error)]) <==> (s.jobs[id].stopped ==> error == "")
  {
    assert [Finish(id, error)][1..] == [];
  }
}
