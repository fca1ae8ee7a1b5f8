/** One remote call: the client's session and the server's session, connected by two streams of
    messages, and driven by callbacks of the RPC system and of an executor in any order. */
module Sessions {

  datatype ServerState = ServerStandby | Receiving | Processing | Sending | Shutdown

  datatype ClientState = ClientStandby | Running | Done | Error

  datatype PullerState = PullerStandby | PullerStarted | ReadyToUnmarshal | Unmarshalling | PullerDone | PullerFailed

  datatype PusherState = PusherStandby | PusherStarted | SentInitialValue

  /** What the executor has to do for the server's session.  Invalid: unmarshalling failed, which
      has not been reported yet.  Finished: the result is there, but has not been sent yet.  Lost:
      the work is over, but its reference to the session was not dropped. */
  datatype Work = Idle | StartQueued | Evaluating | Invalid | Finished | Lost

  /** How far the end of the call has come: the stream is to be stopped, then `done` is to be run. */
  datatype Ending = Open | Stopping | Finishing | Over

  datatype Life = Alive | DeleteQueued | Deleted

  datatype Status = Pull | Waiting | Ready | Failure

  /** What a stream message contains. */
  datatype Kind = PushMessage | PullMessage

  datatype Sent = Sent(byClient: bool, kind: Kind)

  /** Client and server take turns.  The first `turn` messages move the call's argument: the
      client pushes and the server pulls.  The rest move the result, the other way round. */
  ghost predicate Alternates(log: seq<Sent>, turn: nat) {
    forall i {:trigger InTurn(log, turn, i)} | 0 <= i < |log| :: InTurn(log, turn, i)
  }

  predicate InTurn(log: seq<Sent>, turn: nat, i: nat)
    requires i < |log|
  {
    && log[i].byClient == (i % 2 == 0)
    && log[i].kind == if log[i].byClient == (i < turn) then PushMessage else PullMessage
  }

  /** Something that can happen next.  Where the outcome depends on the values being moved, it is
      part of the event. */
  datatype Event =
    | ServerStart(pulled: Status)
    | ServerStream(pulled: Status, answered: bool)
    | Cancel
    | StopReceiving
    | RunDone
    | StartProcessing(valid: bool)
    | ReportInvalid
    | FinishEvaluation
    | SendResult
    | Delete
    | ClientStream(pulled: Status, answered: bool)
    | ClientDone(valid: bool)
    | ClientUnmarshalled

  function One(b: bool): nat { if b then 1 else 0 }

  /** What a session does about a message. */
  datatype Reaction = Send(kind: Kind) | Keep | Begin | GiveUp

  function OnPush(pulled: Status): Reaction {
    match pulled
    case Pull => Send(PullMessage)
    case Waiting => Keep
    case Ready => Begin
    case Failure => GiveUp
  }

  function OnPull(answered: bool): Reaction { if answered then Send(PushMessage) else GiveUp }

  function ServerReacts(state: ServerState, kind: Kind, pulled: Status, answered: bool): Reaction {
    match state
    case Receiving => if kind.PushMessage? then OnPush(pulled) else GiveUp
    case Processing => GiveUp
    case Sending => if kind.PullMessage? then OnPull(answered) else GiveUp
    case _ => Keep
  }

  /** What the server's session waits for. */
  predicate Expects(state: ServerState, kind: Kind) {
    match state
    case Receiving => kind.PushMessage?
    case Sending => kind.PullMessage?
    case _ => state.Shutdown?
  }

  // ---------------------------------------------------------------------------
  // The parts of the invariant.

  /** The session's references are for the cancellation, the end of the RPC, and the work. */
  predicate References(refcount: int, cancelPending: bool, rpc: bool, ending: Ending, work: Work) {
    refcount == One(cancelPending) + One(rpc || ending.Stopping?) + One(!work.Idle?)
  }

  predicate Deletion(refcount: int, life: Life, state: ServerState, requested: bool) {
    && (life.DeleteQueued? ==> refcount == 0 && state.Shutdown?)
    && (life.Deleted? ==> refcount == 0 && state.ServerStandby? && !requested)
    && (!requested && refcount == 0 ==> !life.Alive?)
  }

  predicate NotStarted(requested: bool, refcount: int, life: Life, work: Work, cancelPending: bool) {
    requested ==> refcount == 0 && life.Alive? && work.Idle? && !cancelPending
  }

  predicate Phases(rpc: bool, state: ServerState, requested: bool, life: Life, pusher: PusherState) {
    && (rpc <==> state.Receiving? || state.Processing? || state.Sending?)
    && (state.ServerStandby? <==> requested || life.Deleted?)
    && pusher == if state.Sending? then SentInitialValue else PusherStandby
  }

  predicate Working(state: ServerState, work: Work) {
    && (state.Receiving? || state.Sending? ==> work.Idle?)
    && (state.Processing? ==> !work.Idle? && !work.Lost?)
  }

  predicate Pulling(state: ServerState, puller: PullerState, work: Work) {
    if state.Receiving? then puller.PullerStarted? || puller.PullerFailed?
    else puller == if work.StartQueued? then ReadyToUnmarshal else if work.Evaluating? then Unmarshalling else PullerStandby
  }

  predicate Ends(ending: Ending, requested: bool, rpc: bool, doneRuns: nat) {
    (ending.Open? <==> requested || rpc) && doneRuns == One(ending.Over?)
  }

  predicate ClientOk(state: ClientState, puller: PullerState, pusher: PusherState, told: bool, unmarshalling: bool,
                     callbacks: nat) {
    && (!told ==>
          && !state.ClientStandby? && !unmarshalling && pusher.SentInitialValue?
          && (state.Running? ==> puller.PullerStarted?)
          && (state.Done? ==> puller.ReadyToUnmarshal?)
          && (state.Error? ==> puller.PullerStarted? || puller.PullerFailed?))
    && (told ==>
          && pusher.PusherStandby?
          && if unmarshalling then state.Done? && puller.Unmarshalling? else state.ClientStandby? && puller.PullerStandby?)
    && callbacks + One(unmarshalling) == One(told)
  }

  /** At most one message is under way, and it is the last one sent.  While the server works on the
      call, no message is under way and it is the server's turn. */
  ghost predicate Streams(log: seq<Sent>, turn: nat, replying: bool, toServer: seq<Kind>, toClient: seq<Kind>,
                          requested: bool, state: ServerState) {
    && log != [] && Alternates(log, turn) && turn <= |log| && (!replying ==> turn == |log|)
    && (replying ==> turn % 2 == 1 && turn < |log|)
    && (toServer != [] ==> toServer == [log[|log| - 1].kind] && |log| % 2 == 1 && toClient == [])
    && (toClient != [] ==> toClient == [log[|log| - 1].kind] && |log| % 2 == 0)
    && (requested ==> |log| == 1 && toServer == [] && toClient == [] && !replying)
    && (state.Receiving? || state.Processing? ==> !replying)
    && (state.Processing? ==> toServer == [] && toClient == [] && |log| % 2 == 1)
    && (state.Sending? ==> replying)
  }

  /** Nothing is under way, and it is the turn of the client, or of the server. */
  predicate Turn(byClient: bool, log: seq<Sent>, toServer: seq<Kind>, toClient: seq<Kind>) {
    toServer == [] && toClient == [] && |log| % 2 == if byClient then 0 else 1
  }

  /** The next message keeps to the protocol if it has the kind that its sender's turn asks for.
      The server's reply begins with the first message after the argument has been moved. */
  lemma MessageSent(log: seq<Sent>, turn: nat, replying: bool, requested: bool, byClient: bool, state: ServerState, begin: bool)
    requires Streams(log, turn, replying, [], [], requested, state) && Turn(byClient, log, [], []) && !requested
    requires if begin then !byClient && !replying else !state.Processing?
    ensures var kind := if byClient != (replying || begin) then PushMessage else PullMessage;
      Streams(log + [Sent(byClient, kind)], if replying || begin then turn else |log| + 1, replying || begin,
              if byClient then [kind] else [], if byClient then [] else [kind], requested, if begin then Sending else state)
  {
    var kind := if byClient != (replying || begin) then PushMessage else PullMessage;
    var after, turn' := log + [Sent(byClient, kind)], if replying || begin then turn else |log| + 1;
    forall i | 0 <= i < |after| ensures InTurn(after, turn', i) {
      if i < |log| { assert InTurn(log, turn, i); }
    }
  }

  /** While the RPC lasts it can be cancelled; the client asks for that exactly when it stops running.
      A client that is running has got an answer to everything that was not its turn to wait for. */
  predicate Flowing(rpc: bool, cancelPending: bool, told: bool, client: ClientState, cancelAsked: bool, server: ServerState,
                    messages: nat) {
    && (rpc ==> cancelPending)
    && (!told ==> (client.Running? <==> !cancelAsked))
    && (!told && messages % 2 == 1 ==> client.Running?)
    && (client.Running? && messages % 2 == 0 ==> rpc && (server.Receiving? || server.Sending?))
  }

  /** What the message under way asks of its receiver. */
  lemma MessageExpected(log: seq<Sent>, turn: nat, replying: bool, toServer: seq<Kind>, toClient: seq<Kind>,
                        requested: bool, state: ServerState)
    requires Streams(log, turn, replying, toServer, toClient, requested, state)
    ensures toServer != [] ==> toServer == [if replying then PullMessage else PushMessage] && Turn(false, log, [], toClient)
    ensures toClient != [] ==> toClient == [if replying then PushMessage else PullMessage] && Turn(true, log, toServer, [])
    ensures toServer != [] || toClient != [] ==> Streams(log, turn, replying, [], [], requested, state) && !requested
  {
    assert InTurn(log, turn, |log| - 1);
  }

  class RemoteCall {
    // The server's session.
    var serverState: ServerState
    var refcount: int
    var rpc: bool                    // the RPC, the response and `done` are at hand
    var serverPuller: PullerState
    var serverPusher: PusherState

    // The client's session.
    var clientState: ClientState
    var clientPuller: PullerState
    var clientPusher: PusherState
    var callbacks: nat               // how often the caller's callback has been scheduled

    // What the RPC system still has to do.
    var requested: bool              // the server has not been told of the call yet
    var toServer: seq<Kind>
    var toClient: seq<Kind>
    var cancelAsked: bool
    var cancelPending: bool          // the session will be told of cancellation, or of completion
    var ending: Ending
    var doneRuns: nat
    var clientTold: bool             // the client has been told that the call is over

    // What the executor still has to do.
    var work: Work
    var life: Life
    var clientUnmarshalling: bool

    ghost var log: seq<Sent>
    ghost var turn: nat
    ghost var replying: bool

    constructor ()
      ensures Inv() && Flow() && !Stuck() && requested && work.Idle?
    {
      serverState, refcount, rpc, serverPuller, serverPusher := ServerStandby, 0, false, PullerStandby, PusherStandby;
      requested, toServer, toClient := true, [], [];
      cancelAsked, cancelPending, ending, doneRuns, clientTold := false, false, Open, 0, false;
      work, life := Idle, Alive;
      // The client starts the call.  Its first push travels with the request.
      clientState, clientPuller, clientPusher := Running, PullerStarted, SentInitialValue;
      callbacks, clientUnmarshalling := 0, false;
      log, turn, replying := [Sent(true, PushMessage)], 1, false;
    }

    ghost predicate Counted()
      reads this`refcount, this`cancelPending, this`rpc, this`ending, this`work, this`life, this`serverState, this`requested
    {
      && References(refcount, cancelPending, rpc, ending, work)
      && Deletion(refcount, life, serverState, requested)
      && NotStarted(requested, refcount, life, work, cancelPending)
    }

    ghost predicate ServerInv()
      reads this`rpc, this`serverState, this`requested, this`life, this`serverPusher, this`work, this`serverPuller, this`ending, this`doneRuns
    {
      && Phases(rpc, serverState, requested, life, serverPusher)
      && Working(serverState, work)
      && Pulling(serverState, serverPuller, work)
      && Ends(ending, requested, rpc, doneRuns)
    }

    ghost predicate ClientInv()
      reads this`clientState, this`clientPuller, this`clientPusher, this`clientTold, this`clientUnmarshalling, this`callbacks
    {
      ClientOk(clientState, clientPuller, clientPusher, clientTold, clientUnmarshalling, callbacks)
    }

    ghost predicate StreamInv()
      reads this`log, this`turn, this`replying, this`toServer, this`toClient, this`requested, this`serverState
    {
      Streams(log, turn, replying, toServer, toClient, requested, serverState)
    }

    ghost predicate Inv()
      reads this
    {
      && Counted() && ServerInv() && ClientInv() && StreamInv()
      && (serverState.Receiving? ==> serverPuller.PullerStarted?) && (clientTold ==> ending.Over?)
    }

    /** A callback into the server's session for the work on the call is outstanding. */
    predicate AtWork()
      reads this`work
    {
      !work.Idle? && !work.Lost?
    }

    /** What the invariant is for. */
    lemma Safety()
      requires Inv()
      ensures exists t :: Alternates(log, t)
      ensures callbacks <= 1 && doneRuns <= 1
      ensures !life.Alive? ==> !cancelPending && !ending.Stopping? && !rpc && !AtWork()
    {
    }

    /** Nothing that could still call into the server's session is outstanding. */
    predicate Quiet()
      reads this
    {
      !requested && !cancelPending && !ending.Stopping? && !rpc && !AtWork()
    }

    ghost predicate Flow()
      reads this
    {
      Flowing(rpc, cancelPending, clientTold, clientState, cancelAsked, serverState, |log|)
    }

    /** Both sessions wait for a message, and none is under way. */
    predicate Stuck()
      reads this
    {
      rpc && (serverState.Receiving? || serverState.Sending?) && clientState.Running? && toServer == [] && toClient == []
    }

    /** The caller has its callback, the RPC is over, and nothing is outstanding. */
    predicate Settled()
      reads this
    {
      callbacks == 1 && doneRuns == 1 && Quiet()
    }

    /** Unless both wait, something can happen next, or all is done. */
    lemma Progress()
      requires Inv() && Flow() && !Stuck()
      ensures Settled() || exists e :: Enabled(e)
    {
      if requested {
        assert Enabled(Event.ServerStart(Ready));
      } else if !rpc {
        Winding();
      } else if serverState.Processing? {
        WorkGoesOn();
      } else if toServer != [] {
        assert Enabled(Event.ServerStream(Ready, true));
      } else if toClient != [] {
        assert Enabled(Event.ClientStream(Ready, true));
      } else {
        assert Enabled(Event.Cancel);
      }
    }

    /** The same for a call that has ended. */
    lemma Winding()
      requires Inv() && !requested && !rpc
      ensures Settled() || exists e :: Enabled(e)
    {
      if ending.Stopping? {
        assert Enabled(Event.StopReceiving);
      } else if ending.Finishing? {
        assert Enabled(Event.RunDone);
      } else if cancelPending {
        assert Enabled(Event.Cancel);
      } else if AtWork() {
        WorkGoesOn();
      } else if !clientTold {
        assert Enabled(Event.ClientDone(true));
      } else if clientUnmarshalling {
        assert Enabled(Event.ClientUnmarshalled);
      }
    }

    lemma WorkGoesOn()
      requires AtWork()
      ensures exists e :: Enabled(e)
    {
      var e :=
        if work.StartQueued? then Event.StartProcessing(true)
        else if work.Evaluating? then Event.FinishEvaluation
        else if work.Invalid? then Event.ReportInvalid
        else Event.SendResult;
      assert Enabled(e);
    }

    /** If both wait, nothing will ever happen. */
    lemma StuckForever(e: Event)
      requires Inv() && Flow() && Stuck()
      ensures !Enabled(e) && !Settled()
    {
    }

    /** Once everything has been delivered, the session goes away, unless its work was lost. */
    lemma DeletedUnlessLost()
      requires Inv() && Quiet()
      ensures !life.Alive? <==> !work.Lost?
    {
    }

    // -------------------------------------------------------------------------
    // The server's session.  What its checks demand is stated as preconditions.

    method Unref()
      requires refcount > 0 && life.Alive?
      modifies this`refcount, this`life
      ensures refcount == old(refcount) - 1 && life == if refcount == 0 then DeleteQueued else Alive
    {
      refcount := refcount - 1;
      if refcount == 0 { life := DeleteQueued; }
    }

    method ServerSend(kind: Kind)
      requires rpc
      modifies this`toClient, this`log, this`turn
      ensures log == old(log) + [Sent(false, kind)] && toClient == old(toClient) + [kind]
      ensures turn == if replying then old(turn) else |log|
    {
      toClient := toClient + [kind];
      log := log + [Sent(false, kind)];
      if !replying { turn := |log|; }
    }

    /** End the call, unless it has ended already. */
    method ReturnError()
      requires ServerInv() && StreamInv() && !serverState.ServerStandby?
      modifies this`rpc, this`serverState, this`serverPuller, this`serverPusher, this`ending
      ensures ServerInv() && StreamInv()
      ensures serverState.Shutdown? && !rpc && ending == if old(rpc) then Stopping else old(ending)
    {
      if !rpc {
        assert serverState.Shutdown?;
        return;
      }
      match serverState {
        case Receiving =>
          assert !serverPuller.PullerStandby? && !serverPuller.Unmarshalling?;
          serverPuller := PullerStandby;
        case Processing =>
        case Sending =>
          assert serverPusher.SentInitialValue?;
          serverPusher := PusherStandby;
        case _ =>
          assert false;
      }
      serverState := Shutdown;
      ending := Stopping;
      rpc := false;
    }

    method ReceivePush(pulled: Status)
      requires Counted() && ServerInv() && StreamInv() && serverState.Receiving? && serverPuller.PullerStarted?
      requires Turn(false, log, toServer, toClient)
      modifies this`serverPuller, this`serverPusher, this`serverState, this`rpc, this`ending, this`refcount,
               this`work, this`toClient, this`log, this`turn
      ensures Counted() && ServerInv() && StreamInv() && (serverState.Receiving? ==> serverPuller.PullerStarted?)
      ensures Reacted(OnPush(pulled))
    {
      assert serverPuller.PullerStarted?;
      match pulled
      case Pull =>
        MessageSent(log, turn, replying, requested, false, serverState, false);
        ServerSend(PullMessage);
      case Waiting =>
      case Ready =>
        serverPuller := ReadyToUnmarshal;
        Process();
      case Failure =>
        serverPuller := PullerFailed;
        ReturnError();
    }

    /** What a reaction of the server's session does: it sends exactly one message or none, starts
        the work and takes a reference for it, ends the call, or does nothing. */
    twostate predicate Reacted(r: Reaction)
      reads this
    {
      && log == old(log) + (if r.Send? then [Sent(false, r.kind)] else [])
      && toClient == (if r.Send? then [r.kind] else old(toClient))
      && serverState == (if r.Begin? then Processing else if r.GiveUp? then Shutdown else old(serverState))
      && work == (if r.Begin? then StartQueued else old(work))
      && refcount == old(refcount) + One(r.Begin?)
      && ending == (if r.GiveUp? then Stopping else old(ending))
    }

    method Process()
      requires serverState.Receiving? && work.Idle?
      modifies this`serverState, this`refcount, this`work
      ensures serverState.Processing? && work.StartQueued? && refcount == old(refcount) + 1
    {
      serverState := Processing;
      refcount := refcount + 1;
      work := StartQueued;
    }

    /** The RPC system hands the request, which contains the first push, to the server. */
    method ServerStart(pulled: Status)
      requires Inv() && requested
      modifies this`serverState, this`rpc, this`requested, this`refcount, this`cancelPending, this`serverPuller,
               this`serverPusher, this`ending, this`work, this`toClient, this`log, this`turn
      ensures Inv() && !requested && cancelPending && toServer == []
      ensures serverState == (match pulled case Ready => Processing case Failure => Shutdown case _ => Receiving)
      ensures work == if pulled.Ready? then StartQueued else Idle
      ensures toClient == if pulled.Pull? then [PullMessage] else []
      ensures log == old(log) + if pulled.Pull? then [Sent(false, PullMessage)] else []
    {
      OpenSession();
      ReceivePush(pulled);
    }

    method OpenSession()
      requires Inv() && requested
      modifies this`serverState, this`rpc, this`requested, this`refcount, this`cancelPending, this`serverPuller
      ensures Inv() && !requested && cancelPending && serverState.Receiving? && Turn(false, log, toServer, toClient)
    {
      serverState, rpc, requested := Receiving, true, false;
      refcount := refcount + 2;   // for the end of the RPC and for the cancellation
      cancelPending := true;
      serverPuller := PullerStarted;
    }

    /** A message from the client arrives.  It is always one that the session expects. */
    method ServerStream(pulled: Status, answered: bool)
      requires Inv() && toServer != [] && (rpc || ending.Stopping?)
      modifies this`toServer, this`serverPuller, this`serverPusher, this`serverState, this`rpc, this`ending, this`refcount,
               this`work, this`toClient, this`log, this`turn
      ensures Expects(old(serverState), old(toServer[0]))
      ensures Inv() && toServer == [] && Reacted(ServerReacts(old(serverState), old(toServer[0]), pulled, answered))
    {
      MessageExpected(log, turn, replying, toServer, toClient, requested, serverState);
      var kind := toServer[0];
      toServer := toServer[1..];
      ServerReceive(kind, pulled, answered);
    }

    method ServerReceive(kind: Kind, pulled: Status, answered: bool)
      requires Counted() && ServerInv() && StreamInv() && (rpc || ending.Stopping?)
      requires Turn(false, log, toServer, toClient)
      requires serverState.Receiving? ==> serverPuller.PullerStarted?
      modifies this`serverPuller, this`serverPusher, this`serverState, this`rpc, this`ending, this`refcount,
               this`work, this`toClient, this`log, this`turn
      ensures Counted() && ServerInv() && StreamInv() && (serverState.Receiving? ==> serverPuller.PullerStarted?)
      ensures Reacted(ServerReacts(old(serverState), kind, pulled, answered))
    {
      match serverState
      case ServerStandby =>
        assert false;
      case Receiving =>
        if kind.PushMessage? { ReceivePush(pulled); } else { ReturnError(); }
      case Processing => ReturnError();
      case Sending =>
        if kind.PullMessage? && answered {
          MessageSent(log, turn, replying, requested, false, serverState, false);
          ServerSend(PushMessage);
        } else {
          ReturnError();
        }
      case Shutdown =>
    }

    /** The client has cancelled the call, or the call has completed. */
    method Cancel()
      requires Inv() && cancelPending && (cancelAsked || doneRuns > 0)
      modifies this`cancelPending, this`rpc, this`serverState, this`serverPuller, this`serverPusher, this`ending,
               this`refcount, this`life
      ensures Inv() && !cancelPending && serverState.Shutdown? && refcount == old(refcount) - 1
    {
      ReturnError();
      cancelPending := false;
      Unref();
    }

    method StopReceiving()
      requires Inv() && ending.Stopping?
      modifies this`ending, this`refcount, this`life
      ensures Inv() && ending.Finishing? && refcount == old(refcount) - 1
    {
      ending := Finishing;
      Unref();
    }

    method RunDone()
      requires Inv() && ending.Finishing?
      modifies this`ending, this`doneRuns
      ensures Inv() && ending.Over? && doneRuns == old(doneRuns) + 1
    {
      ending, doneRuns := Over, doneRuns + 1;
    }

    method StartProcessing(valid: bool)
      requires Inv() && work.StartQueued?
      modifies this`serverPuller, this`work
      ensures Inv() && work == if valid then Evaluating else Invalid
    {
      if valid {
        serverPuller, work := Unmarshalling, Evaluating;
      } else {
        serverPuller := PullerFailed;
        serverPuller, work := PullerStandby, Invalid;
      }
    }

    /** Unmarshalling has failed.  The reference taken for processing is not dropped. */
    method ReportInvalid()
      requires Inv() && work.Invalid?
      modifies this`work, this`rpc, this`serverState, this`serverPuller, this`serverPusher, this`ending
      ensures Inv() && work.Lost? && serverState.Shutdown? && ending == if old(rpc) then Stopping else old(ending)
    {
      ReturnError();
      work := Lost;
    }

    method FinishEvaluation()
      requires Inv() && work.Evaluating?
      modifies this`work, this`serverPuller
      ensures Inv() && work.Finished?
    {
      serverPuller := PullerDone;
      serverPuller, work := PullerStandby, Finished;
    }

    /** The result is pushed if the call is still on; the reference for the work is dropped. */
    method SendResult()
      requires Inv() && work.Finished?
      modifies this`work, this`serverState, this`serverPusher, this`replying, this`toClient, this`log, this`turn, this`refcount, this`life
      ensures Inv() && work.Idle? && refcount == old(refcount) - 1
      ensures life == if refcount == 0 then DeleteQueued else Alive
      ensures if old(serverState).Processing? then
                serverState.Sending? && replying && log == old(log) + [Sent(false, PushMessage)] && toClient == [PushMessage]
              else
                serverState == old(serverState) && log == old(log) && toClient == old(toClient)
    {
      work := Idle;
      if serverState.Processing? {
        StartReply();
      } else {
        assert serverState.Shutdown?;
      }
      Unref();
    }

    method StartReply()
      requires rpc && StreamInv() && serverState.Processing? && !requested
      modifies this`serverState, this`serverPusher, this`replying, this`toClient, this`log, this`turn
      ensures StreamInv() && serverState.Sending? && serverPusher.SentInitialValue?
      ensures replying && log == old(log) + [Sent(false, PushMessage)] && toClient == [PushMessage]
    {
      MessageSent(log, turn, replying, requested, false, serverState, true);
      serverState := Sending;
      serverPusher := PusherStarted;
      serverPusher := SentInitialValue;
      replying := true;
      ServerSend(PushMessage);
    }

    method Delete()
      requires Inv() && life.DeleteQueued?
      modifies this`life, this`serverState
      ensures Inv() && life.Deleted? && Quiet()
    {
      assert refcount == 0 && !rpc;
      life, serverState := Deleted, ServerStandby;
    }

    // -------------------------------------------------------------------------
    // The client's session.

    method ClientSend(kind: Kind)
      modifies this`toServer, this`log, this`turn
      ensures log == old(log) + [Sent(true, kind)] && toServer == old(toServer) + [kind]
      ensures turn == if replying then old(turn) else |log|
    {
      toServer := toServer + [kind];
      log := log + [Sent(true, kind)];
      if !replying { turn := |log|; }
    }

    /** What a reaction of the client's session does: it sends exactly one message or none, takes
        the result or an error and asks for the call to be cancelled, or does nothing. */
    twostate predicate ClientReacted(r: Reaction)
      reads this
    {
      && log == old(log) + (if r.Send? then [Sent(true, r.kind)] else [])
      && toServer == (if r.Send? then [r.kind] else old(toServer))
      && clientState == (if r.Begin? then Done else if r.GiveUp? then Error else old(clientState))
      && cancelAsked == (old(cancelAsked) || r.Begin? || r.GiveUp?)
    }

    /** A message from the server arrives: a pull while the argument is being moved, a push after. */
    method ClientStream(pulled: Status, answered: bool)
      requires Inv() && toClient != []
      modifies this`toClient, this`toServer, this`log, this`turn, this`clientState, this`clientPuller, this`cancelAsked
      ensures Inv() && toClient == []
      ensures ClientReacted(if !old(clientState).Running? then Keep else if replying then OnPush(pulled) else OnPull(answered))
    {
      MessageExpected(log, turn, replying, toServer, toClient, requested, serverState);
      var kind := toClient[0];
      toClient := toClient[1..];
      ClientReceive(kind, pulled, answered);
    }

    method ClientReceive(kind: Kind, pulled: Status, answered: bool)
      requires StreamInv() && ClientInv() && !requested && !serverState.Processing?
      requires Turn(true, log, toServer, toClient) && kind == if replying then PushMessage else PullMessage
      modifies this`toServer, this`log, this`turn, this`clientState, this`clientPuller, this`cancelAsked
      ensures StreamInv() && ClientInv()
      ensures ClientReacted(if !old(clientState).Running? then Keep else if replying then OnPush(pulled) else OnPull(answered))
    {
      if !clientState.Running? { return; }
      if kind.PullMessage? { ClientPulled(answered); } else { ClientPushed(pulled); }
    }

    method ClientPulled(answered: bool)
      requires StreamInv() && ClientInv() && clientState.Running? && !requested
      requires Turn(true, log, toServer, toClient) && !replying && !serverState.Processing?
      modifies this`toServer, this`log, this`turn, this`clientState, this`cancelAsked
      ensures StreamInv() && ClientInv() && ClientReacted(OnPull(answered))
    {
      assert clientPusher.SentInitialValue?;
      if answered {
        MessageSent(log, turn, replying, requested, true, serverState, false);
        ClientSend(PushMessage);
      } else {
        clientState, cancelAsked := Error, true;
      }
    }

    method ClientPushed(pulled: Status)
      requires StreamInv() && ClientInv() && clientState.Running? && !requested
      requires Turn(true, log, toServer, toClient) && replying && !serverState.Processing?
      modifies this`toServer, this`log, this`turn, this`clientState, this`clientPuller, this`cancelAsked
      ensures StreamInv() && ClientInv() && ClientReacted(OnPush(pulled))
    {
      assert clientPuller.PullerStarted?;
      match pulled
      case Pull =>
        MessageSent(log, turn, replying, requested, true, serverState, false);
        ClientSend(PullMessage);
      case Waiting =>
      case Ready => clientPuller, clientState, cancelAsked := ReadyToUnmarshal, Done, true;
      case Failure => clientPuller, clientState, cancelAsked := PullerFailed, Error, true;
    }

    /** The call is over.  The caller's callback is scheduled with an error now, or, if there is a
        result that can be unmarshalled, after that; never both. */
    method ClientDone(valid: bool)
      requires Inv() && doneRuns > 0 && !clientTold
      modifies this`clientTold, this`clientPusher, this`clientState, this`clientPuller, this`clientUnmarshalling, this`callbacks
      ensures Inv() && clientTold && clientUnmarshalling == (old(clientState).Done? && valid)
      ensures old(callbacks) == 0 && callbacks == One(!clientUnmarshalling)
    {
      EndCall(valid);
    }

    /** The response always carries an error; it only matters if no result has been received. */
    method EndCall(valid: bool)
      requires ClientInv() && !clientTold
      modifies this`clientTold, this`clientPusher, this`clientState, this`clientPuller, this`clientUnmarshalling, this`callbacks
      ensures ClientInv() && clientTold && clientUnmarshalling == (old(clientState).Done? && valid)
      ensures callbacks == old(callbacks) + One(!clientUnmarshalling)
    {
      assert !clientState.ClientStandby? && clientPusher.SentInitialValue?;
      clientTold, clientPusher := true, PusherStandby;
      if clientState.Running? { clientState := Error; }
      if clientState.Done? && valid {
        assert clientPuller.ReadyToUnmarshal?;
        clientPuller, clientUnmarshalling := Unmarshalling, true;
        return;
      }
      if clientState.Done? { clientPuller, clientState := PullerFailed, Error; }
      ClientFail();
    }

    method ClientFail()
      requires clientState.Error? && !clientPuller.PullerStandby? && !clientPuller.Unmarshalling?
      modifies this`clientPuller, this`callbacks, this`clientState
      ensures clientPuller.PullerStandby? && clientState.ClientStandby? && callbacks == old(callbacks) + 1
    {
      clientPuller := PullerStandby;
      ScheduleCallback();
    }

    method ClientUnmarshalled()
      requires Inv() && clientUnmarshalling
      modifies this`clientUnmarshalling, this`clientPuller, this`callbacks, this`clientState
      ensures Inv() && !clientUnmarshalling && old(callbacks) == 0 && callbacks == 1
    {
      clientUnmarshalling := false;
      clientPuller := PullerDone;
      clientPuller := PullerStandby;
      ScheduleCallback();
    }

    /** Schedule the caller's callback and retire the session. */
    method ScheduleCallback()
      requires (clientState.Done? || clientState.Error?) && clientPuller.PullerStandby?
      modifies this`callbacks, this`clientState
      ensures callbacks == old(callbacks) + 1 && clientState.ClientStandby?
    {
      callbacks := callbacks + 1;
      clientState := ClientStandby;
    }

    // -------------------------------------------------------------------------
    // All interleavings.

    predicate Enabled(e: Event)
      reads this
    {
      match e
      case ServerStart(_) => requested
      case ServerStream(_, _) => toServer != [] && (rpc || ending.Stopping?)
      case Cancel => cancelPending && (cancelAsked || doneRuns > 0)
      case StopReceiving => ending.Stopping?
      case RunDone => ending.Finishing?
      case StartProcessing(_) => work.StartQueued?
      case ReportInvalid => work.Invalid?
      case FinishEvaluation => work.Evaluating?
      case SendResult => work.Finished?
      case Delete => life.DeleteQueued?
      case ClientStream(_, _) => toClient != []
      case ClientDone(_) => doneRuns > 0 && !clientTold
      case ClientUnmarshalled => clientUnmarshalling
    }

    /** The argument could not be unmarshalled. */
    predicate Failed()
      reads this`work
    {
      work.Invalid? || work.Lost?
    }

    /** The event makes a session that has received a push wait for another. */
    ghost predicate Waits(e: Event)
      reads this
    {
      match e
      case ServerStart(pulled) => pulled.Waiting?
      case ServerStream(pulled, _) => pulled.Waiting? && serverState.Receiving?
      case ClientStream(pulled, _) => pulled.Waiting? && clientState.Running? && replying
      case _ => false
    }

    method Happen(e: Event)
      requires Inv() && Flow() && Enabled(e)
      modifies this
      ensures Inv() && Flow() && (Failed() <==> old(Failed()) || e == Event.StartProcessing(false))
      ensures Stuck() <==> old(Waits(e))
    {
      match e
      case ServerStart(_) => ServerEvent(e);
      case ServerStream(_, _) => ServerEvent(e);
      case Cancel => EndingEvent(e);
      case StopReceiving => EndingEvent(e);
      case RunDone => EndingEvent(e);
      case ClientStream(_, _) => ClientEvent(e);
      case ClientDone(_) => ClientEvent(e);
      case ClientUnmarshalled => ClientEvent(e);
      case _ => ExecutorEvent(e);
    }

    /** What the RPC system delivers to the server's session. */
    method ServerEvent(e: Event)
      requires Inv() && Flow() && Enabled(e)
      requires e.ServerStart? || e.ServerStream?
      modifies this
      ensures Inv() && Flow() && (Failed() <==> old(Failed()))
      ensures Stuck() <==> old(Waits(e))
    {
      match e
      case ServerStart(pulled) => ServerStart(pulled);
      case ServerStream(pulled, answered) => ServerStream(pulled, answered);
    }

    /** How the RPC system ends a call. */
    method EndingEvent(e: Event)
      requires Inv() && Flow() && Enabled(e)
      requires e.Cancel? || e.StopReceiving? || e.RunDone?
      modifies this
      ensures Inv() && Flow() && (Failed() <==> old(Failed()))
      ensures !Stuck()
    {
      match e
      case Cancel => Cancel();
      case StopReceiving => StopReceiving();
      case RunDone => RunDone();
    }

    /** What the executor does for the server's session. */
    method ExecutorEvent(e: Event)
      requires Inv() && Flow() && Enabled(e)
      requires e.StartProcessing? || e.ReportInvalid? || e.FinishEvaluation? || e.SendResult? || e.Delete?
      modifies this
      ensures Inv() && Flow() && (Failed() <==> old(Failed()) || e == Event.StartProcessing(false))
      ensures !Stuck()
    {
      match e
      case StartProcessing(valid) => StartProcessing(valid);
      case ReportInvalid => ReportInvalid();
      case FinishEvaluation => FinishEvaluation();
      case SendResult => SendResult();
      case Delete => Delete();
    }

    /** What happens to the client's session. */
    method ClientEvent(e: Event)
      requires Inv() && Flow() && Enabled(e)
      requires e.ClientStream? || e.ClientDone? || e.ClientUnmarshalled?
      modifies this
      ensures Inv() && Flow() && (Failed() <==> old(Failed()))
      ensures Stuck() <==> old(Waits(e))
    {
      match e
      case ClientStream(pulled, answered) => ClientStream(pulled, answered);
      case ClientDone(valid) => ClientDone(valid);
      case ClientUnmarshalled => ClientUnmarshalled();
    }
  }

  /** How a session is lost: the argument arrives but cannot be unmarshalled.  Everything owed to
      the session is delivered, and it is still not deleted. */
  method InvalidArgumentLeaksSession() returns (call: RemoteCall)
    ensures call.Inv() && call.Quiet() && call.life.Alive?
  {
    call := new RemoteCall();
    call.ServerStart(Ready);
    call.StartProcessing(false);
    call.ReportInvalid();
    Settle(call);
  }

  /** Deliver what is owed to a session whose call has ended. */
  method Settle(call: RemoteCall)
    requires call.Inv() && call.ending.Stopping? && call.cancelPending && call.work.Lost?
    modifies call
    ensures call.Inv() && call.Quiet() && call.work.Lost? && call.life.Alive?
  {
    call.StopReceiving();
    call.RunDone();
    call.Cancel();
    call.DeletedUnlessLost();
  }

  /** Any sequence of events, each one taken if it can happen when its time comes; `taken` are
      those that were, and `waited` tells whether one of them made a session wait for a further push
      after one.  When nothing is outstanding, the session is gone exactly if unmarshalling the
      argument did not fail.  If no session ever waited, something can happen next, or the callback
      and `done` have run once and nothing is outstanding; otherwise nothing will ever happen. */
  method AnyInterleaving(events: seq<Event>) returns (call: RemoteCall, ghost taken: seq<Event>, ghost waited: bool)
    ensures call.Inv()
    ensures call.callbacks <= 1 && call.doneRuns <= 1
    ensures exists turn :: Alternates(call.log, turn)
    ensures !call.life.Alive? ==> call.Quiet()
    ensures call.Quiet() ==> (!call.life.Alive? <==> Event.StartProcessing(false) !in taken)
    ensures (forall e | e in taken :: !MentionsWaiting(e)) ==> !waited
    ensures !waited ==> call.Settled() || exists e :: call.Enabled(e)
    ensures waited ==> !call.Settled() && forall e :: !call.Enabled(e)
  {
    call := new RemoteCall();
    taken, waited := [], false;
    for i := 0 to |events|
      invariant call.Inv() && call.Flow() && fresh(call)
      invariant call.Failed() <==> Event.StartProcessing(false) in taken
      invariant waited <==> call.Stuck()
      invariant waited ==> exists e :: e in taken && MentionsWaiting(e)
    {
      if waited { call.StuckForever(events[i]); }
      if call.Enabled(events[i]) {
        waited := call.Waits(events[i]);
        call.Happen(events[i]);
        taken := taken + [events[i]];
        assert events[i] in taken;
      }
    }
    if waited {
      forall e ensures !call.Enabled(e) && !call.Settled() { call.StuckForever(e); }
    } else {
      call.Progress();
    }
  }

  predicate MentionsWaiting(e: Event) {
    (e.ServerStart? || e.ServerStream? || e.ClientStream?) && e.pulled.Waiting?
  }
}
