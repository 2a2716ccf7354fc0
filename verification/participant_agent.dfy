/**
 * The participant agent's main loop: `act` asks the discovery service for
 * what the game phase calls for, `react` handles a bounded number of
 * incoming messages, and `update` drops locked transactions that timed out.
 * Both `act` and `react` end by sending everything queued.
 *
 * The clock is not part of this model: whether it is time to update or to
 * search services, and which locked transactions have timed out, are inputs.
 */
module ParticipantAgent {
  import opened Wrappers
  import Ledger
  import opened Messages
  import opened Reactions

  /** Hands one dequeued item to the handler its class picks; an empty dequeue does nothing. */
  function Dispatch(a: Agent, b: Behaviour, decode: Decoder, msg: Option<Message>): Agent {
    match msg
    case None => a
    case Some(m) =>
      match Classify(m, decode)
      case OefKind => OnOefMessage(a, b, m)
      case ControllerKind => OnControllerResponse(a, ControllerResponse(m, decode))
      case DialogueKind => OnDialogueMessage(a, b, m.agentMessage)
  }

  /** Dispatches the items in order. */
  function DispatchAll(a: Agent, b: Behaviour, decode: Decoder, msgs: seq<Option<Message>>): Agent
    decreases |msgs|
  {
    if |msgs| == 0 then a else Dispatch(DispatchAll(a, b, decode, msgs[..|msgs| - 1]), b, decode, msgs[|msgs| - 1])
  }

  function Min(x: int, y: int): int {
    if x <= y then x else y
  }

  function Max(x: int, y: int): int {
    if x >= y then x else y
  }

  /**
   * Handles items from the inbox while it is not empty and fewer than
   * `maxReactions` have been taken, then sends everything queued. An empty
   * dequeue counts like a message. What was not reached stays in the inbox.
   */
  method React(a: Agent, b: Behaviour, decode: Decoder, inbox: seq<Option<Message>>, maxReactions: int)
    returns (r: Agent, rest: seq<Option<Message>>)
    ensures
      var handled := Min(|inbox|, Max(maxReactions, 0));
      && rest == inbox[handled..]
      && r == Flush(DispatchAll(a, b, decode, inbox[..handled]))
  {
    var counter := 0;
    var state := a;
    rest := inbox;
    while |rest| > 0 && counter < maxReactions
      invariant 0 <= counter <= |inbox|
      invariant counter <= Max(maxReactions, 0)
      invariant rest == inbox[counter..]
      invariant state == DispatchAll(a, b, decode, inbox[..counter])
      decreases |rest|
    {
      assert inbox[..counter + 1][..counter] == inbox[..counter];
      counter := counter + 1;
      var msg := rest[0];
      rest := rest[1..];
      state := Dispatch(state, b, decode, msg);
    }
    r := Flush(state);
  }

  /** The requests each phase makes of the discovery service. */
  function PhaseRequests(phase: GamePhase, timeToUpdateServices: bool, timeToSearchServices: bool): seq<OutMessage> {
    (if phase == PreGame then [ToOef(SearchForTac)] else [])
    + (if phase == Game && timeToUpdateServices then [ToOef(UpdateServices)] else [])
    + (if phase == Game && timeToSearchServices then [ToOef(SearchServices)] else [])
  }

  /**
   * Before the game the agent looks for the controller; during the game it
   * updates and searches services when each is due; then it sends everything
   * queued.
   */
  function Act(a: Agent, timeToUpdateServices: bool, timeToSearchServices: bool): (r: Agent)
    ensures r.outQueue == []
    ensures r.sent == a.sent + a.outQueue + PhaseRequests(a.phase, timeToUpdateServices, timeToSearchServices)
    ensures r.(sent := a.sent, outQueue := a.outQueue) == a
  {
    Flush(Enqueue(a, PhaseRequests(a.phase, timeToUpdateServices, timeToSearchServices)))
  }

  /** Before the game only the controller search is asked for; after setup or the game, nothing. */
  lemma ActByPhase(a: Agent, timeToUpdateServices: bool, timeToSearchServices: bool)
    ensures a.phase == PreGame ==>
      Act(a, timeToUpdateServices, timeToSearchServices).sent == a.sent + a.outQueue + [ToOef(SearchForTac)]
    ensures a.phase == GameSetup || a.phase == PostGame ==>
      Act(a, timeToUpdateServices, timeToSearchServices) == Flush(a)
    ensures a.phase == Game && !timeToUpdateServices && !timeToSearchServices ==>
      Act(a, timeToUpdateServices, timeToSearchServices) == Flush(a)
    ensures a.phase == Game && timeToUpdateServices && timeToSearchServices ==>
      Act(a, timeToUpdateServices, timeToSearchServices).sent == a.sent + a.outQueue + [ToOef(UpdateServices), ToOef(SearchServices)]
  {
  }

  /**
   * Pending-transaction cleanup: the locked transactions that timed out are
   * dropped without being applied.
   */
  function Update(a: Agent, timedOut: set<string>): (r: Agent)
    ensures forall id :: id in r.lockedTxs <==> id in a.lockedTxs && id !in timedOut
    ensures forall id :: id in r.lockedTxs ==> r.lockedTxs[id] == a.lockedTxs[id]
    ensures r == a.(lockedTxs := r.lockedTxs)
  {
    a.(lockedTxs := a.lockedTxs - timedOut)
  }

  /** Cleaning up twice with the same timeouts is cleaning up once. */
  lemma UpdateIdempotent(a: Agent, timedOut: set<string>)
    ensures Update(Update(a, timedOut), timedOut) == Update(a, timedOut)
  {
    assert Update(a, timedOut).lockedTxs - timedOut == Update(a, timedOut).lockedTxs;
  }

  /**
   * A confirmation that arrives after its transaction timed out is not
   * applied: the agent's state is unchanged and it asks the controller for
   * its state instead.
   */
  lemma TimedOutThenConfirmedResyncs(a: Agent, timedOut: set<string>, transactionId: string)
    requires transactionId in timedOut
    ensures
      var r := OnTransactionConfirmed(Update(a, timedOut), transactionId);
      && r.agentState == a.agentState
      && r.outQueue == a.outQueue + [ToController(a.controllerPbk, GetStateUpdate)]
  {
  }

  /** Each item is handled by the handler of its class: OEF first, then controller, then dialogue. */
  lemma DispatchFollowsClass(a: Agent, b: Behaviour, decode: Decoder, m: Message)
    ensures IsOefMessage(m) ==> Dispatch(a, b, decode, Some(m)) == OnOefMessage(a, b, m)
    ensures !IsOefMessage(m) && IsControllerMessage(m, decode) ==>
      Dispatch(a, b, decode, Some(m)) == OnControllerResponse(a, ControllerResponse(m, decode))
    ensures !IsOefMessage(m) && !IsControllerMessage(m, decode) ==>
      m.FromAgent? && Dispatch(a, b, decode, Some(m)) == OnDialogueMessage(a, b, m.agentMessage)
  {
  }

  /** Empty dequeues change nothing, so they only use up the reaction budget. */
  lemma {:induction false} EmptyDequeuesChangeNothing(a: Agent, b: Behaviour, decode: Decoder, msgs: seq<Option<Message>>)
    requires forall i :: 0 <= i < |msgs| ==> msgs[i].None?
    ensures DispatchAll(a, b, decode, msgs) == a
    decreases |msgs|
  {
    if |msgs| > 0 {
      EmptyDequeuesChangeNothing(a, b, decode, msgs[..|msgs| - 1]);
    }
  }

  /** A dequeued item that the controller sent to cancel the competition. */
  predicate IsCancellation(decode: Decoder, msg: Option<Message>) {
    && msg.Some?
    && Classify(msg.value, decode) == ControllerKind
    && ControllerResponse(msg.value, decode).Cancelled?
  }

  /**
   * Once in the game, the agent stays in the game phase through any items
   * it handles, unless one of them is a cancellation.
   */
  lemma {:induction false} GamePhaseLastsUntilCancelled(a: Agent, b: Behaviour, decode: Decoder, msgs: seq<Option<Message>>)
    requires a.phase == Game
    requires forall i :: 0 <= i < |msgs| ==> !IsCancellation(decode, msgs[i])
    ensures DispatchAll(a, b, decode, msgs).phase == Game
    decreases |msgs|
  {
    if |msgs| > 0 {
      var prefix := msgs[..|msgs| - 1];
      GamePhaseLastsUntilCancelled(a, b, decode, prefix);
      DispatchKeepsGamePhase(DispatchAll(a, b, decode, prefix), b, decode, msgs[|msgs| - 1]);
    }
  }

  lemma DispatchKeepsGamePhase(a: Agent, b: Behaviour, decode: Decoder, msg: Option<Message>)
    requires a.phase == Game && !IsCancellation(decode, msg)
    ensures Dispatch(a, b, decode, msg).phase == Game
  {
    if msg.Some? && Classify(msg.value, decode) == ControllerKind {
      Reactions.GamePhaseLastsUntilCancelled(a, ControllerResponse(msg.value, decode));
    } else if msg.Some? && Classify(msg.value, decode) == OefKind && msg.value.SearchResult? {
      SearchResultRouting(a, b, msg.value.searchId, msg.value.agents);
    }
  }

  /**
   * An agent that has stopped never resumes: handling items, acting and
   * cleaning up leave it stopped.
   */
  lemma {:induction false} StoppedIsPermanent(a: Agent, b: Behaviour, decode: Decoder, msgs: seq<Option<Message>>,
                                              timeToUpdateServices: bool, timeToSearchServices: bool, timedOut: set<string>)
    requires a.stopped
    ensures Flush(DispatchAll(a, b, decode, msgs)).stopped
    ensures Act(a, timeToUpdateServices, timeToSearchServices).stopped
    ensures Update(a, timedOut).stopped
    decreases |msgs|
  {
    if |msgs| > 0 {
      var prefix := msgs[..|msgs| - 1];
      StoppedIsPermanent(a, b, decode, prefix, timeToUpdateServices, timeToSearchServices, timedOut);
      DispatchKeepsStopped(DispatchAll(a, b, decode, prefix), b, decode, msgs[|msgs| - 1]);
    }
  }

  lemma DispatchKeepsStopped(a: Agent, b: Behaviour, decode: Decoder, msg: Option<Message>)
    requires a.stopped
    ensures Dispatch(a, b, decode, msg).stopped
  {
    if msg.Some? && Classify(msg.value, decode) == ControllerKind {
      StoppedStaysStoppedOnResponse(a, ControllerResponse(msg.value, decode));
    } else if msg.Some? && Classify(msg.value, decode) == OefKind && msg.value.SearchResult? {
      SearchResultRouting(a, b, msg.value.searchId, msg.value.agents);
    }
  }

  /** Handling a sequence is handling its first part and then the rest. */
  lemma {:induction false} DispatchAllAppend(a: Agent, b: Behaviour, decode: Decoder, xs: seq<Option<Message>>, ys: seq<Option<Message>>)
    ensures DispatchAll(a, b, decode, xs + ys) == DispatchAll(DispatchAll(a, b, decode, xs), b, decode, ys)
    decreases |ys|
  {
    if |ys| == 0 {
      assert xs + ys == xs;
    } else {
      assert (xs + ys)[..|xs + ys| - 1] == xs + ys[..|ys| - 1];
      DispatchAllAppend(a, b, decode, xs, ys[..|ys| - 1]);
    }
  }
}
