/**
 * The messages an agent of the first framework receives: search results and
 * errors from the discovery service (OEF), negotiation messages from other
 * agents, and byte messages that may carry a controller response.
 *
 * Decoding a controller response (protobuf plus signature check) is not part
 * of this model: it is a function given from outside that either yields a
 * response or refuses the bytes.
 */
module Messages {
  import opened Wrappers
  import Ledger
  import Misc

  /** A message exchanged between agents; every kind names its dialogue and its peer. */
  datatype AgentMessage =
    | Cfp(msgId: int, dialogueId: int, destination: string, target: int, query: Misc.ServicesDict)
    | Propose(msgId: int, dialogueId: int, destination: string, target: int, proposal: string)
    | Accept(msgId: int, dialogueId: int, destination: string, target: int)
    | Decline(msgId: int, dialogueId: int, destination: string, target: int)
    | ByteMessage(msgId: int, dialogueId: int, destination: string, content: string)

  /** Anything the inbox can hand out. */
  datatype Message =
    | SearchResult(searchId: int, agents: seq<string>)
    | OefErrorMessage(answerId: int, operation: string)
    | DialogueErrorMessage(answerId: int, errorDialogueId: int, origin: string)
    | FromAgent(agentMessage: AgentMessage)

  /** The controller's error codes. */
  datatype ErrorCode =
    | TransactionNotValid
    | TransactionNotMatching
    | AgentPbkAlreadyRegistered
    | AgentNameAlreadyRegistered
    | AgentNotRegistered
    | RequestNotValid
    | GenericError

  /**
   * A response of the controller. The game data is reduced to the agent's
   * opening state, which is what the agent builds from it.
   */
  datatype Response =
    | GameData(openingState: Ledger.GameState)
    | TransactionConfirmation(transactionId: string)
    | StateUpdate(agentState: Ledger.GameState)
    | Cancelled
    | Error(errorCode: ErrorCode, errorMsg: string)

  /** Decodes the bytes of a message from the given sender into a controller response, or refuses them. */
  type Decoder = (string, string) -> Option<Response>

  /** A message from the discovery service is one of its three kinds. */
  predicate IsOefMessage(msg: Message) {
    msg.SearchResult? || msg.OefErrorMessage? || msg.DialogueErrorMessage?
  }

  /**
   * A controller message is a byte message whose content the decoder
   * accepts; the sender is the message's destination field.
   */
  predicate IsControllerMessage(msg: Message, decode: Decoder) {
    msg.FromAgent? && msg.agentMessage.ByteMessage?
      && decode(msg.agentMessage.content, msg.agentMessage.destination).Some?
  }

  /** The decoded response of a controller message. */
  function ControllerResponse(msg: Message, decode: Decoder): (r: Response)
    requires IsControllerMessage(msg, decode)
    ensures Some(r) == decode(msg.agentMessage.content, msg.agentMessage.destination)
  {
    decode(msg.agentMessage.content, msg.agentMessage.destination).value
  }

  /** The three ways a message can be handled. */
  datatype Kind = OefKind | ControllerKind | DialogueKind

  /** OEF first, then controller, and everything else belongs to a dialogue. */
  function Classify(msg: Message, decode: Decoder): (k: Kind)
    ensures k == OefKind <==> IsOefMessage(msg)
    ensures k == ControllerKind <==> IsControllerMessage(msg, decode)
    ensures k == DialogueKind <==> !IsOefMessage(msg) && !IsControllerMessage(msg, decode)
    ensures k == DialogueKind ==> msg.FromAgent?
  {
    if IsOefMessage(msg) then OefKind
    else if IsControllerMessage(msg, decode) then ControllerKind
    else DialogueKind
  }

  /** Negotiation messages other than byte messages never reach the controller, whatever the decoder. */
  lemma NegotiationNeverController(m: AgentMessage, decode: Decoder)
    requires !m.ByteMessage?
    ensures Classify(FromAgent(m), decode) == DialogueKind
  {
  }
}
