/**
 * How a participant agent of the first framework reacts to what it
 * receives: the controller's responses, the discovery service's search
 * results, and negotiation messages from other agents.
 *
 * The agent's mutable game instance becomes an immutable record and every
 * reaction a function from record to record. The transaction manager is the
 * map of locked transactions it is used as here. Messages the agent sends are
 * appended to an out queue; flushing moves them to `sent`.
 */
module Reactions {
  import opened Wrappers
  import Ledger
  import opened TransactionIds
  import Misc
  import opened Messages

  datatype GamePhase = PreGame | GameSetup | Game | PostGame

  /** Message id and target of the first message of a dialogue. */
  const StartingMessageId: int := 1
  const StartingMessageTarget: int := 0

  /** The controller's error message for a refused transaction is this prefix followed by the id. */
  const TxErrorPrefix: string := "Error in checking transaction: "

  const UnidentifiedDialogueReply: string := "This message belongs to an unidentified dialogue."

  /** A request to the controller. */
  datatype ControllerRequest = Register(agentName: string) | GetStateUpdate

  /** What the agent asks of the discovery service. */
  datatype OefRequest = SearchForTac | UpdateServices | SearchServices

  /** An entry of the out queue. `destination` is the controller's key as far as it is known. */
  datatype OutMessage =
    | ToController(destination: Option<string>, request: ControllerRequest)
    | ToAgent(message: AgentMessage)
    | ToOef(oefRequest: OefRequest)

  /** One negotiation, with the messages received and sent in it. */
  datatype Dialogue = Dialogue(dialogueLabel: DialogueLabel, isSeller: bool, incoming: seq<AgentMessage>, outgoing: seq<AgentMessage>)

  /**
   * The agent's dialogues by label. Dialogues the agent starts get the id
   * one above the last one it handed out.
   */
  datatype Dialogues = Dialogues(byLabel: map<DialogueLabel, Dialogue>, lastDialogueId: int)

  /** Ids of the searches in flight, by what they look for. */
  datatype SearchIds = SearchIds(forTac: set<int>, forSellers: set<int>, forBuyers: set<int>)

  datatype Agent = Agent(
    pbk: string,
    name: string,
    rejoin: bool,
    phase: GamePhase,
    stopped: bool,
    controllerPbk: Option<string>,
    lockedTxs: map<string, Ledger.Transaction>,
    agentState: Ledger.GameState,
    dialogues: Dialogues,
    search: SearchIds,
    outQueue: seq<OutMessage>,
    sent: seq<OutMessage>)

  /** Where a negotiation message belongs, as decided by the dialogue registry. */
  datatype Route = ExistingDialogue(existing: DialogueLabel) | NewDialogue | UnidentifiedDialogue

  /**
   * The collaborators whose code is not part of this model: the negotiation
   * behaviour, the services the agent currently supplies or demands (none
   * when it has nothing to offer or want), and the dialogue registry's
   * routing decision.
   */
  datatype Behaviour = Behaviour(
    onCfp: (AgentMessage, Dialogue) -> AgentMessage,
    onPropose: (AgentMessage, Dialogue) -> AgentMessage,
    onAccept: (AgentMessage, Dialogue) -> seq<AgentMessage>,
    servicesDict: (Ledger.GameState, bool) -> Option<Misc.ServicesDict>,
    route: (Dialogues, AgentMessage) -> Route)

  function Enqueue(a: Agent, out: seq<OutMessage>): Agent {
    a.(outQueue := a.outQueue + out)
  }

  /** Sends everything queued, in order. */
  function Flush(a: Agent): (r: Agent)
    ensures r.outQueue == [] && r.sent + r.outQueue == a.sent + a.outQueue
    ensures r.(outQueue := a.outQueue, sent := a.sent) == a
  {
    a.(sent := a.sent + a.outQueue, outQueue := [])
  }

  // ---------------------------------------------------------------------------
  // Controller reactions
  // ---------------------------------------------------------------------------

  /** Asks the controller for the agent's current state. */
  function RequestStateUpdate(a: Agent): Agent {
    Enqueue(a, [ToController(a.controllerPbk, GetStateUpdate)])
  }

  /** The game starts: the agent takes its opening state and enters the game phase, from any phase. */
  function OnStart(a: Agent, openingState: Ledger.GameState): (r: Agent)
    ensures r.phase == Game && r.agentState == openingState
    ensures r.(phase := a.phase, agentState := a.agentState) == a
  {
    a.(agentState := openingState, phase := Game)
  }

  /**
   * A transaction was settled. A locked transaction is unlocked and applied
   * to the agent's state; an unknown one means the agent's view is stale, so
   * it asks the controller for its state and changes nothing else.
   */
  function OnTransactionConfirmed(a: Agent, transactionId: string): (r: Agent)
    ensures transactionId !in a.lockedTxs ==>
      r == a.(outQueue := a.outQueue + [ToController(a.controllerPbk, GetStateUpdate)])
    ensures transactionId in a.lockedTxs ==>
      && transactionId !in r.lockedTxs
      && r.lockedTxs == a.lockedTxs - {transactionId}
      && r.agentState == Ledger.Update(a.agentState, a.lockedTxs[transactionId])
      && r == a.(lockedTxs := r.lockedTxs, agentState := r.agentState)
  {
    if transactionId !in a.lockedTxs then RequestStateUpdate(a)
    else
      var tx := a.lockedTxs[transactionId];
      a.(lockedTxs := a.lockedTxs - {transactionId}, agentState := Ledger.Update(a.agentState, tx))
  }

  /** The controller's view of the agent's state replaces the agent's own. */
  function OnStateUpdate(a: Agent, agentState: Ledger.GameState): (r: Agent)
    ensures r.agentState == agentState && r.(agentState := a.agentState) == a
  {
    a.(agentState := agentState)
  }

  /** The competition was cancelled: the agent stops and the game is over, from any phase. */
  function OnCancelled(a: Agent): (r: Agent)
    ensures r.stopped && r.phase == PostGame
    ensures r.(stopped := a.stopped, phase := a.phase) == a
  {
    a.(stopped := true, phase := PostGame)
  }

  /**
   * The transaction id in a refusal message: everything after the length of
   * the prefix. The prefix itself is not checked; a shorter message gives
   * the empty id.
   */
  function TxIdFromErrorMessage(errorMsg: string): (id: string)
    ensures |errorMsg| >= |TxErrorPrefix| ==> errorMsg == errorMsg[..|TxErrorPrefix|] + id
    ensures |errorMsg| < |TxErrorPrefix| ==> id == []
  {
    if |errorMsg| >= |TxErrorPrefix| then errorMsg[|TxErrorPrefix|..] else []
  }

  /** The id the controller wrote after the prefix is the id read back. */
  lemma TxIdFromErrorMessageRoundTrip(transactionId: string)
    ensures TxIdFromErrorMessage(TxErrorPrefix + transactionId) == transactionId
  {
    var msg := TxErrorPrefix + transactionId;
    assert msg[|TxErrorPrefix|..] == transactionId;
  }

  /** Identity errors end the agent's participation. */
  predicate IsRegistrationError(code: ErrorCode) {
    code == AgentPbkAlreadyRegistered || code == AgentNameAlreadyRegistered || code == AgentNotRegistered
  }

  /**
   * An error from the controller. A refused transaction is unlocked if it
   * was locked; identity errors stop the agent; every other code only gets
   * logged.
   */
  function OnTacError(a: Agent, errorCode: ErrorCode, errorMsg: string): (r: Agent)
    ensures errorCode == TransactionNotValid ==>
      r == a.(lockedTxs := a.lockedTxs - {TxIdFromErrorMessage(errorMsg)})
    ensures IsRegistrationError(errorCode) ==> r == a.(stopped := true)
    ensures errorCode in {TransactionNotMatching, RequestNotValid, GenericError} ==> r == a
  {
    match errorCode
    case TransactionNotValid =>
      var transactionId := TxIdFromErrorMessage(errorMsg);
      if transactionId in a.lockedTxs then a.(lockedTxs := a.lockedTxs - {transactionId}) else a
    case TransactionNotMatching => a
    case AgentPbkAlreadyRegistered => a.(stopped := true)
    case AgentNameAlreadyRegistered => a.(stopped := true)
    case AgentNotRegistered => a.(stopped := true)
    case RequestNotValid => a
    case GenericError => a
  }

  /** Each controller response goes to the reaction for its kind. */
  function OnControllerResponse(a: Agent, response: Response): Agent {
    match response
    case GameData(openingState) => OnStart(a, openingState)
    case TransactionConfirmation(transactionId) => OnTransactionConfirmed(a, transactionId)
    case StateUpdate(agentState) => OnStateUpdate(a, agentState)
    case Cancelled => OnCancelled(a)
    case Error(errorCode, errorMsg) => OnTacError(a, errorCode, errorMsg)
  }

  // ---------------------------------------------------------------------------
  // Reconciliation properties
  // ---------------------------------------------------------------------------

  /**
   * The controller's view always wins: a later state update overrides an
   * earlier one, and after a confirmation the agent could not match, the
   * state update it asked for puts the agent in the controller's state with
   * nothing else changed but the request.
   */
  lemma StateUpdateOverridesLocalView(a: Agent, transactionId: string, s1: Ledger.GameState, s2: Ledger.GameState)
    ensures OnStateUpdate(OnStateUpdate(a, s1), s2) == OnStateUpdate(a, s2)
    ensures transactionId !in a.lockedTxs ==>
      OnStateUpdate(OnTransactionConfirmed(a, transactionId), s2)
        == a.(agentState := s2, outQueue := a.outQueue + [ToController(a.controllerPbk, GetStateUpdate)])
  {
  }

  /**
   * Once in the game, the agent stays in the game phase under every
   * controller response except a cancellation.
   */
  lemma GamePhaseLastsUntilCancelled(a: Agent, response: Response)
    requires a.phase == Game
    ensures !response.Cancelled? ==> OnControllerResponse(a, response).phase == Game
    ensures response.Cancelled? ==> OnControllerResponse(a, response).phase == PostGame
  {
  }

  /** No controller response restarts an agent that has stopped. */
  lemma StoppedStaysStoppedOnResponse(a: Agent, response: Response)
    requires a.stopped
    ensures OnControllerResponse(a, response).stopped
  {
  }

  /**
   * A locked transaction is applied exactly once: a second confirmation of
   * the same id finds it unlocked and only asks for a state update.
   */
  lemma ConfirmationAppliesOnce(a: Agent, transactionId: string)
    requires transactionId in a.lockedTxs
    ensures
      var twice := OnTransactionConfirmed(OnTransactionConfirmed(a, transactionId), transactionId);
      && twice.agentState == Ledger.Update(a.agentState, a.lockedTxs[transactionId])
      && twice.lockedTxs == a.lockedTxs - {transactionId}
      && twice.outQueue == a.outQueue + [ToController(a.controllerPbk, GetStateUpdate)]
  {
  }

  /** Applying two transactions to an agent's state gives the same state in either order. */
  lemma UpdatesCommute(s: Ledger.GameState, t1: Ledger.Transaction, t2: Ledger.Transaction)
    ensures Ledger.Update(Ledger.Update(s, t1), t2) == Ledger.Update(Ledger.Update(s, t2), t1)
  {
    var l := Ledger.Update(Ledger.Update(s, t1), t2);
    var r := Ledger.Update(Ledger.Update(s, t2), t1);
    assert l.currentHoldings == r.currentHoldings by {
      forall g | 0 <= g < |l.currentHoldings|
        ensures l.currentHoldings[g] == r.currentHoldings[g]
      {
      }
    }
  }

  /** Confirmations of two different locked transactions may arrive in either order. */
  lemma ConfirmationsCommute(a: Agent, id1: string, id2: string)
    requires id1 in a.lockedTxs && id2 in a.lockedTxs && id1 != id2
    ensures OnTransactionConfirmed(OnTransactionConfirmed(a, id1), id2)
         == OnTransactionConfirmed(OnTransactionConfirmed(a, id2), id1)
  {
    UpdatesCommute(a.agentState, a.lockedTxs[id1], a.lockedTxs[id2]);
    assert a.lockedTxs - {id1} - {id2} == a.lockedTxs - {id2} - {id1};
  }

  /**
   * A transaction the controller refused is no longer locked, so a late
   * confirmation of it is not applied; the agent resynchronises instead.
   */
  lemma RefusedThenConfirmedResyncs(a: Agent, transactionId: string)
    ensures
      var refused := OnTacError(a, TransactionNotValid, TxErrorPrefix + transactionId);
      var r := OnTransactionConfirmed(refused, transactionId);
      && transactionId !in refused.lockedTxs
      && r.agentState == a.agentState
      && r.outQueue == a.outQueue + [ToController(a.controllerPbk, GetStateUpdate)]
  {
    TxIdFromErrorMessageRoundTrip(transactionId);
  }

  /** A refusal of a transaction the agent has not locked changes nothing. */
  lemma RefusalOfUnlockedIsNoop(a: Agent, errorMsg: string)
    requires TxIdFromErrorMessage(errorMsg) !in a.lockedTxs
    ensures OnTacError(a, TransactionNotValid, errorMsg) == a
  {
    assert a.lockedTxs - {TxIdFromErrorMessage(errorMsg)} == a.lockedTxs;
  }

  // ---------------------------------------------------------------------------
  // Discovery service reactions
  // ---------------------------------------------------------------------------

  /** Records the controller, enters game setup and sends it a registration. */
  function RegisterToTac(a: Agent, controllerPbk: string): Agent {
    Enqueue(a.(controllerPbk := Some(controllerPbk), phase := GameSetup),
            [ToController(Some(controllerPbk), Register(a.name))])
  }

  /** Records the controller, enters game setup and asks it for the agent's state. */
  function RejoinTac(a: Agent, controllerPbk: string): Agent {
    Enqueue(a.(controllerPbk := Some(controllerPbk), phase := GameSetup),
            [ToController(Some(controllerPbk), GetStateUpdate)])
  }

  /**
   * Result of the search for the controller. It only matters before the
   * game: no hit changes nothing (the search is retried), several hits stop
   * the agent, and exactly one is taken as the controller.
   */
  function OnControllerSearchResult(a: Agent, agentPbks: seq<string>): (r: Agent)
    ensures a.phase != PreGame || |agentPbks| == 0 ==> r == a
    ensures a.phase == PreGame && |agentPbks| > 1 ==> r == a.(stopped := true)
    ensures a.phase == PreGame && |agentPbks| == 1 ==>
      && r.controllerPbk == Some(agentPbks[0])
      && r.phase == GameSetup
      && r.outQueue == a.outQueue + [ToController(Some(agentPbks[0]), if a.rejoin then GetStateUpdate else Register(a.name))]
      && r == a.(controllerPbk := r.controllerPbk, phase := r.phase, outQueue := r.outQueue)
  {
    if a.phase != PreGame then a
    else if |agentPbks| == 0 then a
    else if |agentPbks| > 1 then a.(stopped := true)
    else if a.rejoin then RejoinTac(a, agentPbks[0])
    else RegisterToTac(a, agentPbks[0])
  }

  /** Once a controller is found, further controller search results are ignored. */
  lemma ControllerFoundOnce(a: Agent, first: seq<string>, later: seq<string>)
    requires a.phase == PreGame && |first| == 1
    ensures
      var found := OnControllerSearchResult(a, first);
      OnControllerSearchResult(found, later) == found
  {
  }

  /**
   * The agents found by a services search, without the agent itself and
   * without repetitions, in order of first appearance.
   */
  function Counterparts(agentPbks: seq<string>, ownPbk: string): (r: seq<string>)
    ensures Ledger.Distinct(r)
    ensures forall x :: x in r <==> x in agentPbks && x != ownPbk
    ensures |r| <= |agentPbks|
    decreases |agentPbks|
  {
    if |agentPbks| == 0 then []
    else
      var rest := Counterparts(agentPbks[..|agentPbks| - 1], ownPbk);
      var x := agentPbks[|agentPbks| - 1];
      assert agentPbks == agentPbks[..|agentPbks| - 1] + [x];
      if x == ownPbk || x in rest then rest else rest + [x]
  }

  /** The label of the i-th dialogue the agent starts from now on, with the given opponent. */
  function NextSelfLabel(a: Agent, i: nat, opponentPbk: string): DialogueLabel {
    DialogueLabel(a.dialogues.lastDialogueId + 1 + i, opponentPbk, a.pbk)
  }

  /** The call for proposals that opens a dialogue with the given id. */
  function OpeningCfp(dialogueId: int, opponentPbk: string, services: Misc.ServicesDict): AgentMessage {
    Cfp(StartingMessageId, dialogueId, opponentPbk, StartingMessageTarget, services)
  }

  /** Starts one dialogue with an opponent and sends it the opening call for proposals. */
  function SendCfp(a: Agent, opponentPbk: string, services: Misc.ServicesDict, isSeller: bool): Agent {
    var dialogueLabel := NextSelfLabel(a, 0, opponentPbk);
    var cfp := OpeningCfp(dialogueLabel.dialogueId, opponentPbk, services);
    var dialogue := Dialogue(dialogueLabel, isSeller, [], [cfp]);
    Enqueue(a.(dialogues := Dialogues(a.dialogues.byLabel[dialogueLabel := dialogue], dialogueLabel.dialogueId)), [ToAgent(cfp)])
  }

  /** The opening calls for proposals to the counterparts, numbered on from the given last dialogue id. */
  function OpeningCfps(lastDialogueId: int, counterparts: seq<string>, services: Misc.ServicesDict): (out: seq<OutMessage>)
    ensures |out| == |counterparts|
  {
    seq(|counterparts|, i requires 0 <= i < |counterparts| => ToAgent(OpeningCfp(lastDialogueId + 1 + i, counterparts[i], services)))
  }

  lemma OpeningCfpsCons(lastDialogueId: int, counterparts: seq<string>, services: Misc.ServicesDict)
    requires |counterparts| >= 1
    ensures OpeningCfps(lastDialogueId, counterparts, services)
         == [ToAgent(OpeningCfp(lastDialogueId + 1, counterparts[0], services))] + OpeningCfps(lastDialogueId + 1, counterparts[1..], services)
  {
    var l := OpeningCfps(lastDialogueId, counterparts, services);
    var r := [ToAgent(OpeningCfp(lastDialogueId + 1, counterparts[0], services))] + OpeningCfps(lastDialogueId + 1, counterparts[1..], services);
    forall i | 0 <= i < |l|
      ensures l[i] == r[i]
    {
      if i > 0 {
        assert r[i] == OpeningCfps(lastDialogueId + 1, counterparts[1..], services)[i - 1];
      }
    }
  }

  /**
   * Starts one dialogue per counterpart, each with the next dialogue id, and
   * queues one opening call for proposals per dialogue, in order.
   */
  function SendCfps(a: Agent, counterparts: seq<string>, services: Misc.ServicesDict, isSeller: bool): (r: Agent)
    ensures r.outQueue == a.outQueue + OpeningCfps(a.dialogues.lastDialogueId, counterparts, services)
    ensures r.dialogues.lastDialogueId == a.dialogues.lastDialogueId + |counterparts|
    ensures r == a.(dialogues := r.dialogues, outQueue := r.outQueue)
    decreases |counterparts|
  {
    if |counterparts| == 0 then a
    else
      var b := SendCfp(a, counterparts[0], services, isSeller);
      OpeningCfpsCons(a.dialogues.lastDialogueId, counterparts, services);
      SendCfps(b, counterparts[1..], services, isSeller)
  }

  /**
   * The i-th counterpart gets a dialogue with the i-th next id that holds
   * just its opening call, and dialogues with an id up to the last one handed
   * out stay as they were.
   */
  lemma {:induction false} SendCfpsDialogues(a: Agent, counterparts: seq<string>, services: Misc.ServicesDict, isSeller: bool)
    ensures
      var r := SendCfps(a, counterparts, services, isSeller);
      forall i :: 0 <= i < |counterparts| ==>
        var dialogueLabel := NextSelfLabel(a, i, counterparts[i]);
        && dialogueLabel in r.dialogues.byLabel
        && r.dialogues.byLabel[dialogueLabel] == Dialogue(dialogueLabel, isSeller, [], [OpeningCfp(dialogueLabel.dialogueId, counterparts[i], services)])
    ensures
      var r := SendCfps(a, counterparts, services, isSeller);
      forall l :: l in a.dialogues.byLabel && l.dialogueId <= a.dialogues.lastDialogueId ==>
        l in r.dialogues.byLabel && r.dialogues.byLabel[l] == a.dialogues.byLabel[l]
    decreases |counterparts|
  {
    if |counterparts| > 0 {
      var b := SendCfp(a, counterparts[0], services, isSeller);
      var r := SendCfps(a, counterparts, services, isSeller);
      assert r == SendCfps(b, counterparts[1..], services, isSeller);
      SendCfpsDialogues(b, counterparts[1..], services, isSeller);
      forall i | 0 <= i < |counterparts|
        ensures NextSelfLabel(a, i, counterparts[i]) in r.dialogues.byLabel
        ensures r.dialogues.byLabel[NextSelfLabel(a, i, counterparts[i])]
             == Dialogue(NextSelfLabel(a, i, counterparts[i]), isSeller, [], [OpeningCfp(NextSelfLabel(a, i, counterparts[i]).dialogueId, counterparts[i], services)])
      {
        if i > 0 {
          assert NextSelfLabel(a, i, counterparts[i]) == NextSelfLabel(b, i - 1, counterparts[1..][i - 1]);
        }
      }
    }
  }

  /**
   * Result of a search for sellers or buyers. Without services to offer or
   * ask for nothing happens; otherwise every counterpart other than the
   * agent itself gets its own new dialogue and opening call for proposals.
   * Searching for sellers means the agent is the buyer in those dialogues.
   */
  function OnServicesSearchResult(a: Agent, b: Behaviour, agentPbks: seq<string>, isSearchingForSellers: bool): (r: Agent)
    ensures b.servicesDict(a.agentState, !isSearchingForSellers).None? ==> r == a
    ensures b.servicesDict(a.agentState, !isSearchingForSellers).Some? ==>
      r == SendCfps(a, Counterparts(agentPbks, a.pbk), b.servicesDict(a.agentState, !isSearchingForSellers).value, !isSearchingForSellers)
    ensures r == a.(dialogues := r.dialogues, outQueue := r.outQueue)
    ensures r.dialogues.lastDialogueId - a.dialogues.lastDialogueId == |r.outQueue| - |a.outQueue|
    ensures b.servicesDict(a.agentState, !isSearchingForSellers).Some? ==>
      OneCfpPerCounterpart(a.outQueue, r.outQueue, a.dialogues.lastDialogueId, agentPbks, a.pbk,
                           b.servicesDict(a.agentState, !isSearchingForSellers).value)
  {
    match b.servicesDict(a.agentState, !isSearchingForSellers)
    case None => a
    case Some(services) =>
      var r := SendCfps(a, Counterparts(agentPbks, a.pbk), services, !isSearchingForSellers);
      CfpQueueShape(a.outQueue, a.dialogues.lastDialogueId, agentPbks, a.pbk, services, r.outQueue);
      r
  }

  /**
   * What a services search leaves in the queue `q` after `prefix`: only
   * opening calls for proposals with consecutive dialogue ids after `last`,
   * one to each agent found other than the agent itself, and no two to the
   * same agent.
   */
  predicate OneCfpPerCounterpart(prefix: seq<OutMessage>, q: seq<OutMessage>, last: int, agentPbks: seq<string>,
                                 ownPbk: string, services: Misc.ServicesDict) {
    && |q| >= |prefix| && q[..|prefix|] == prefix
    && OnlyOpeningCfps(prefix, q, last, agentPbks, ownPbk, services)
    && EveryCounterpartCalled(prefix, q, last, agentPbks, ownPbk, services)
    && DestinationsDistinct(prefix, q)
  }

  predicate OnlyOpeningCfps(prefix: seq<OutMessage>, q: seq<OutMessage>, last: int, agentPbks: seq<string>,
                            ownPbk: string, services: Misc.ServicesDict) {
    forall i :: |prefix| <= i < |q| ==>
      && q[i].ToAgent?
      && q[i].message == OpeningCfp(last + 1 + (i - |prefix|), q[i].message.destination, services)
      && q[i].message.destination in agentPbks
      && q[i].message.destination != ownPbk
  }

  predicate EveryCounterpartCalled(prefix: seq<OutMessage>, q: seq<OutMessage>, last: int, agentPbks: seq<string>,
                                   ownPbk: string, services: Misc.ServicesDict) {
    forall x :: x in agentPbks && x != ownPbk ==>
      exists i :: |prefix| <= i < |q| && q[i] == ToAgent(OpeningCfp(last + 1 + (i - |prefix|), x, services))
  }

  predicate DestinationsDistinct(prefix: seq<OutMessage>, q: seq<OutMessage>) {
    forall i, j :: |prefix| <= i < j < |q| && q[i].ToAgent? && q[j].ToAgent? ==>
      q[i].message.destination != q[j].message.destination
  }

  /** The queue shape a services search leaves, for any prefix and numbering. */
  lemma CfpQueueShape(prefix: seq<OutMessage>, last: int, agentPbks: seq<string>, ownPbk: string,
                      services: Misc.ServicesDict, q: seq<OutMessage>)
    requires q == prefix + OpeningCfps(last, Counterparts(agentPbks, ownPbk), services)
    ensures OneCfpPerCounterpart(prefix, q, last, agentPbks, ownPbk, services)
  {
    assert q[..|prefix|] == prefix;
    CfpQueueEntries(prefix, last, Counterparts(agentPbks, ownPbk), services, q);
    OnlyOpeningCfpsHolds(prefix, last, agentPbks, ownPbk, services, q);
    EveryCounterpartCalledHolds(prefix, last, agentPbks, ownPbk, services, q);
    DestinationsDistinctHolds(prefix, last, agentPbks, ownPbk, services, q);
  }

  /** Entry n + k of the queue is the opening call to the k-th counterpart. */
  lemma CfpQueueEntries(prefix: seq<OutMessage>, last: int, cps: seq<string>, services: Misc.ServicesDict, q: seq<OutMessage>)
    requires q == prefix + OpeningCfps(last, cps, services)
    ensures forall k :: 0 <= k < |cps| ==> q[|prefix| + k] == ToAgent(OpeningCfp(last + 1 + k, cps[k], services))
  {
    forall k | 0 <= k < |cps|
      ensures q[|prefix| + k] == ToAgent(OpeningCfp(last + 1 + k, cps[k], services))
    {
      assert q[|prefix| + k] == OpeningCfps(last, cps, services)[k];
    }
  }

  lemma OnlyOpeningCfpsHolds(prefix: seq<OutMessage>, last: int, agentPbks: seq<string>, ownPbk: string,
                             services: Misc.ServicesDict, q: seq<OutMessage>)
    requires q == prefix + OpeningCfps(last, Counterparts(agentPbks, ownPbk), services)
    requires forall k :: 0 <= k < |Counterparts(agentPbks, ownPbk)| ==>
      q[|prefix| + k] == ToAgent(OpeningCfp(last + 1 + k, Counterparts(agentPbks, ownPbk)[k], services))
    ensures OnlyOpeningCfps(prefix, q, last, agentPbks, ownPbk, services)
  {
    var cps := Counterparts(agentPbks, ownPbk);
    var n := |prefix|;
    forall i | n <= i < |q|
      ensures q[i].ToAgent? && q[i].message == OpeningCfp(last + 1 + (i - n), q[i].message.destination, services)
      ensures q[i].message.destination in agentPbks && q[i].message.destination != ownPbk
    {
      var k := i - n;
      assert q[n + k] == ToAgent(OpeningCfp(last + 1 + k, cps[k], services));
      assert cps[k] in cps;
    }
  }

  lemma EveryCounterpartCalledHolds(prefix: seq<OutMessage>, last: int, agentPbks: seq<string>, ownPbk: string,
                                    services: Misc.ServicesDict, q: seq<OutMessage>)
    requires q == prefix + OpeningCfps(last, Counterparts(agentPbks, ownPbk), services)
    requires forall k :: 0 <= k < |Counterparts(agentPbks, ownPbk)| ==>
      q[|prefix| + k] == ToAgent(OpeningCfp(last + 1 + k, Counterparts(agentPbks, ownPbk)[k], services))
    ensures EveryCounterpartCalled(prefix, q, last, agentPbks, ownPbk, services)
  {
    var cps := Counterparts(agentPbks, ownPbk);
    var n := |prefix|;
    forall x | x in agentPbks && x != ownPbk
      ensures exists i :: n <= i < |q| && q[i] == ToAgent(OpeningCfp(last + 1 + (i - n), x, services))
    {
      var k :| 0 <= k < |cps| && cps[k] == x;
      assert q[n + k] == ToAgent(OpeningCfp(last + 1 + k, x, services));
    }
  }

  lemma DestinationsDistinctHolds(prefix: seq<OutMessage>, last: int, agentPbks: seq<string>, ownPbk: string,
                                  services: Misc.ServicesDict, q: seq<OutMessage>)
    requires q == prefix + OpeningCfps(last, Counterparts(agentPbks, ownPbk), services)
    requires forall k :: 0 <= k < |Counterparts(agentPbks, ownPbk)| ==>
      q[|prefix| + k] == ToAgent(OpeningCfp(last + 1 + k, Counterparts(agentPbks, ownPbk)[k], services))
    ensures DestinationsDistinct(prefix, q)
  {
    var cps := Counterparts(agentPbks, ownPbk);
    var n := |prefix|;
    forall i, j | n <= i < j < |q| && q[i].ToAgent? && q[j].ToAgent?
      ensures q[i].message.destination != q[j].message.destination
    {
      assert q[n + (i - n)].message.destination == cps[i - n];
      assert q[n + (j - n)].message.destination == cps[j - n];
    }
  }

  /** Routes a search result by the search it answers; an unknown search id is ignored. */
  function OnSearchResult(a: Agent, b: Behaviour, searchId: int, agentPbks: seq<string>): (r: Agent)
    ensures searchId in a.search.forTac ==> r == OnControllerSearchResult(a, agentPbks)
    ensures searchId !in a.search.forTac && searchId in a.search.forSellers ==> r == OnServicesSearchResult(a, b, agentPbks, true)
    ensures searchId !in a.search.forTac && searchId !in a.search.forSellers && searchId in a.search.forBuyers ==>
      r == OnServicesSearchResult(a, b, agentPbks, false)
    ensures searchId !in a.search.forTac && searchId !in a.search.forSellers && searchId !in a.search.forBuyers ==> r == a
  {
    if searchId in a.search.forTac then OnControllerSearchResult(a, agentPbks)
    else if searchId in a.search.forSellers then OnServicesSearchResult(a, b, agentPbks, true)
    else if searchId in a.search.forBuyers then OnServicesSearchResult(a, b, agentPbks, false)
    else a
  }

  /**
   * What a search result can change. The agent's state, locked
   * transactions, searches and sent messages never change, and messages are
   * only ever added to the queue. A controller search never opens a
   * dialogue; a search for sellers or buyers never changes the phase, the
   * controller or whether the agent has stopped; an unknown search changes
   * nothing.
   */
  lemma SearchResultRouting(a: Agent, b: Behaviour, searchId: int, agentPbks: seq<string>)
    ensures
      var r := OnSearchResult(a, b, searchId, agentPbks);
      && r == a.(phase := r.phase, stopped := r.stopped, controllerPbk := r.controllerPbk,
                 dialogues := r.dialogues, outQueue := r.outQueue)
      && |a.outQueue| <= |r.outQueue| && r.outQueue[..|a.outQueue|] == a.outQueue
    ensures searchId in a.search.forTac ==> OnSearchResult(a, b, searchId, agentPbks).dialogues == a.dialogues
    ensures searchId !in a.search.forTac ==>
      var r := OnSearchResult(a, b, searchId, agentPbks);
      r.phase == a.phase && r.stopped == a.stopped && r.controllerPbk == a.controllerPbk
    ensures searchId !in a.search.forTac && searchId !in a.search.forSellers && searchId !in a.search.forBuyers ==>
      OnSearchResult(a, b, searchId, agentPbks) == a
  {
    var r := OnSearchResult(a, b, searchId, agentPbks);
    if searchId !in a.search.forTac && (searchId in a.search.forSellers || searchId in a.search.forBuyers) {
      var sellers := searchId in a.search.forSellers;
      assert r == OnServicesSearchResult(a, b, agentPbks, sellers);
      if b.servicesDict(a.agentState, !sellers).Some? {
        assert r.outQueue[..|a.outQueue|] == a.outQueue;
      }
    }
  }

  /** Search results are acted on; OEF and dialogue errors are only logged. */
  function OnOefMessage(a: Agent, b: Behaviour, msg: Message): Agent
    requires IsOefMessage(msg)
  {
    match msg
    case SearchResult(searchId, agents) => OnSearchResult(a, b, searchId, agents)
    case OefErrorMessage(_, _) => a
    case DialogueErrorMessage(_, _, _) => a
  }

  // ---------------------------------------------------------------------------
  // Dialogue reactions
  // ---------------------------------------------------------------------------

  /** A dialogue with one more incoming message, as the behaviour sees it when it replies. */
  function Received(dialogue: Dialogue, msg: AgentMessage): Dialogue {
    dialogue.(incoming := dialogue.incoming + [msg])
  }

  /**
   * The registry after a message is handled in one dialogue: the dialogue
   * counter and every dialogue under another label are as they were.
   */
  predicate OnlyDialogueChanged(before: Dialogues, after: Dialogues, dialogueLabel: DialogueLabel) {
    && after.lastDialogueId == before.lastDialogueId
    && after.byLabel - {dialogueLabel} == before.byLabel - {dialogueLabel}
  }

  /**
   * Records an incoming message in its dialogue and asks the negotiation
   * behaviour for the replies: one for a call for proposals or a proposal,
   * whatever the behaviour says for an accept, none for a decline or
   * anything else. The replies are recorded as outgoing.
   */
  function HandleInDialogue(b: Behaviour, msg: AgentMessage, dialogue: Dialogue): (r: (Dialogue, seq<AgentMessage>))
    ensures r.0.dialogueLabel == dialogue.dialogueLabel && r.0.isSeller == dialogue.isSeller
    ensures r.0.incoming == dialogue.incoming + [msg]
    ensures r.0.outgoing == dialogue.outgoing + r.1
    ensures msg.Cfp? ==> r.1 == [b.onCfp(msg, Received(dialogue, msg))]
    ensures msg.Propose? ==> r.1 == [b.onPropose(msg, Received(dialogue, msg))]
    ensures msg.Accept? ==> r.1 == b.onAccept(msg, Received(dialogue, msg))
    ensures msg.Decline? || msg.ByteMessage? ==> r.1 == []
  {
    var received := Received(dialogue, msg);
    var results :=
      match msg
      case Cfp(_, _, _, _, _) => [b.onCfp(msg, received)]
      case Propose(_, _, _, _, _) => [b.onPropose(msg, received)]
      case Accept(_, _, _, _) => b.onAccept(msg, received)
      case Decline(_, _, _, _) => []
      case ByteMessage(_, _, _, _) => [];
    (received.(outgoing := received.outgoing + results), results)
  }

  /** Out-queue entries for messages to other agents, in order. */
  function ToAgents(messages: seq<AgentMessage>): (out: seq<OutMessage>)
    ensures |out| == |messages|
    ensures forall i :: 0 <= i < |messages| ==> out[i] == ToAgent(messages[i])
  {
    seq(|messages|, i requires 0 <= i < |messages| => ToAgent(messages[i]))
  }

  /** Stores a dialogue under a label. */
  function StoreDialogue(a: Agent, dialogueLabel: DialogueLabel, dialogue: Dialogue): Agent {
    a.(dialogues := a.dialogues.(byLabel := a.dialogues.byLabel[dialogueLabel := dialogue]))
  }

  /**
   * A call for proposals opens a dialogue the opponent started. The agent is
   * the seller when the call asks for demand, i.e. the opponent wants to buy.
   * The call is recorded and the single reply is recorded and queued.
   */
  function OnNewDialogue(a: Agent, b: Behaviour, msg: AgentMessage): (r: Agent)
    requires msg.Cfp?
    ensures
      var dialogueLabel := DialogueLabel(msg.dialogueId, msg.destination, msg.destination);
      && dialogueLabel in r.dialogues.byLabel
      && r.dialogues.byLabel[dialogueLabel].isSeller == (msg.query.description == Misc.TacDemandDatamodelName)
      && r.dialogues.byLabel[dialogueLabel].incoming == [msg]
      && r.dialogues.byLabel[dialogueLabel].outgoing == [b.onCfp(msg, Dialogue(dialogueLabel, r.dialogues.byLabel[dialogueLabel].isSeller, [msg], []))]
      && r.outQueue == a.outQueue + [ToAgent(r.dialogues.byLabel[dialogueLabel].outgoing[0])]
      && OnlyDialogueChanged(a.dialogues, r.dialogues, dialogueLabel)
    ensures r == a.(dialogues := r.dialogues, outQueue := r.outQueue)
  {
    var isSeller := msg.query.description == Misc.TacDemandDatamodelName;
    var dialogueLabel := DialogueLabel(msg.dialogueId, msg.destination, msg.destination);
    var (dialogue, results) := HandleInDialogue(b, msg, Dialogue(dialogueLabel, isSeller, [], []));
    Enqueue(StoreDialogue(a, dialogueLabel, dialogue), ToAgents(results))
  }

  /**
   * A message of a known dialogue is recorded there; the replies are
   * appended to the dialogue's outgoing messages and queued in the same
   * order.
   */
  function OnExistingDialogue(a: Agent, b: Behaviour, msg: AgentMessage, dialogueLabel: DialogueLabel): (r: Agent)
    requires dialogueLabel in a.dialogues.byLabel
    ensures dialogueLabel in r.dialogues.byLabel
    ensures
      var before := a.dialogues.byLabel[dialogueLabel];
      var after := r.dialogues.byLabel[dialogueLabel];
      && after.incoming == before.incoming + [msg]
      && |before.outgoing| <= |after.outgoing|
      && after.outgoing[..|before.outgoing|] == before.outgoing
      && r.outQueue == a.outQueue + ToAgents(after.outgoing[|before.outgoing|..])
    ensures
      var received := Received(a.dialogues.byLabel[dialogueLabel], msg);
      && (msg.Cfp? ==> r.outQueue == a.outQueue + [ToAgent(b.onCfp(msg, received))])
      && (msg.Propose? ==> r.outQueue == a.outQueue + [ToAgent(b.onPropose(msg, received))])
      && (msg.Accept? ==> r.outQueue == a.outQueue + ToAgents(b.onAccept(msg, received)))
    ensures msg.Decline? || msg.ByteMessage? ==> r.outQueue == a.outQueue
    ensures OnlyDialogueChanged(a.dialogues, r.dialogues, dialogueLabel)
    ensures r == a.(dialogues := r.dialogues, outQueue := r.outQueue)
  {
    var before := a.dialogues.byLabel[dialogueLabel];
    var (dialogue, results) := HandleInDialogue(b, msg, before);
    assert dialogue.outgoing[|before.outgoing|..] == results;
    Enqueue(StoreDialogue(a, dialogueLabel, dialogue), ToAgents(results))
  }

  /** A message that belongs to no dialogue gets a byte message reply with the next message id. */
  function OnUnidentifiedDialogue(a: Agent, msg: AgentMessage): (r: Agent)
    ensures r.outQueue == a.outQueue + [ToAgent(ByteMessage(msg.msgId + 1, msg.dialogueId, msg.destination, UnidentifiedDialogueReply))]
    ensures r.(outQueue := a.outQueue) == a
  {
    Enqueue(a, [ToAgent(ByteMessage(msg.msgId + 1, msg.dialogueId, msg.destination, UnidentifiedDialogueReply))])
  }

  /**
   * A message the registry cannot place, including a known-label route to a
   * label the agent does not have and a new dialogue not opened by a call
   * for proposals, leaves every dialogue as it was and only queues the
   * byte message reply.
   */
  lemma UnidentifiedRouteLeavesDialogues(a: Agent, b: Behaviour, msg: AgentMessage)
    requires
      var route := b.route(a.dialogues, msg);
      || route.UnidentifiedDialogue?
      || (route.ExistingDialogue? && route.existing !in a.dialogues.byLabel)
      || (route.NewDialogue? && !msg.Cfp?)
    ensures OnDialogueMessage(a, b, msg).dialogues == a.dialogues
    ensures OnDialogueMessage(a, b, msg) == OnUnidentifiedDialogue(a, msg)
  {
  }

  /**
   * What handling a negotiation message can change, for every route. Only
   * the dialogues and the queue change, the dialogue counter stays, and the
   * queue only grows. A routed message changes one dialogue, the one it was
   * routed to, and a call for proposals that opens a dialogue changes only
   * the new one; either way the dialogue is what the behaviour made of it
   * and the queued messages are the behaviour's replies, in order. Any
   * other message leaves the dialogues alone.
   */
  lemma DialogueMessageRouting(a: Agent, b: Behaviour, msg: AgentMessage)
    ensures
      var r := OnDialogueMessage(a, b, msg);
      && r == a.(dialogues := r.dialogues, outQueue := r.outQueue)
      && r.dialogues.lastDialogueId == a.dialogues.lastDialogueId
      && |a.outQueue| <= |r.outQueue| && r.outQueue[..|a.outQueue|] == a.outQueue
    ensures
      var route := b.route(a.dialogues, msg);
      route.ExistingDialogue? && route.existing in a.dialogues.byLabel ==>
        var r := OnDialogueMessage(a, b, msg);
        var handled := HandleInDialogue(b, msg, a.dialogues.byLabel[route.existing]);
        && OnlyDialogueChanged(a.dialogues, r.dialogues, route.existing)
        && r.dialogues.byLabel[route.existing] == handled.0
        && r.outQueue == a.outQueue + ToAgents(handled.1)
    ensures
      b.route(a.dialogues, msg).NewDialogue? && msg.Cfp? ==>
        var r := OnDialogueMessage(a, b, msg);
        var dialogueLabel := DialogueLabel(msg.dialogueId, msg.destination, msg.destination);
        var isSeller := msg.query.description == Misc.TacDemandDatamodelName;
        var handled := HandleInDialogue(b, msg, Dialogue(dialogueLabel, isSeller, [], []));
        && OnlyDialogueChanged(a.dialogues, r.dialogues, dialogueLabel)
        && r.dialogues.byLabel[dialogueLabel] == handled.0
        && r.outQueue == a.outQueue + ToAgents(handled.1)
    ensures
      var route := b.route(a.dialogues, msg);
      !(route.ExistingDialogue? && route.existing in a.dialogues.byLabel) && !(route.NewDialogue? && msg.Cfp?) ==>
        OnDialogueMessage(a, b, msg).dialogues == a.dialogues
  {
  }

  /**
   * Sends a negotiation message where the dialogue registry routes it. A
   * route the registry cannot back (an unknown label, or a new dialogue not
   * opened by a call for proposals) is treated as unidentified.
   */
  function OnDialogueMessage(a: Agent, b: Behaviour, msg: AgentMessage): Agent {
    match b.route(a.dialogues, msg)
    case ExistingDialogue(l) =>
      if l in a.dialogues.byLabel then OnExistingDialogue(a, b, msg, l) else OnUnidentifiedDialogue(a, msg)
    case NewDialogue =>
      if msg.Cfp? then OnNewDialogue(a, b, msg) else OnUnidentifiedDialogue(a, msg)
    case UnidentifiedDialogue => OnUnidentifiedDialogue(a, msg)
  }
}
