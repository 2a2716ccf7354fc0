/**
 * Classification of the envelopes an agent of the newer framework receives:
 * messages of the discovery service ("oef"), negotiation messages ("fipa")
 * and messages of the controller ("bytes").
 *
 * The enumerations of OEF message types and FIPA performatives are not part
 * of this model; they are given as sets of tags.
 */
module Envelopes {
  import opened Wrappers

  /** An envelope: addressee, sender, protocol id and the message body as named fields. */
  datatype Envelope = Envelope(to: string, sender: string, protocolId: string, message: map<string, string>)

  /** The tags that count as OEF message types and as FIPA performatives. */
  datatype ProtocolTags = ProtocolTags(oefTypes: set<string>, fipaPerformatives: set<string>)

  /** `dict.get`: the field's value, or nothing when it is absent. */
  function Get(message: map<string, string>, key: string): (r: Option<string>)
    ensures r.Some? <==> key in message
  {
    if key in message then Some(message[key]) else None
  }

  /** From the discovery service: protocol "oef" and a type tag that is an OEF type. */
  function IsOefMessage(e: Envelope, tags: ProtocolTags): (r: bool)
    ensures r <==> e.protocolId == "oef" && "type" in e.message && e.message["type"] in tags.oefTypes
  {
    e.protocolId == "oef" && match Get(e.message, "type") {
      case None => false
      case Some(t) => t in tags.oefTypes
    }
  }

  /** A negotiation message: protocol "fipa" and a performative that is a FIPA performative. */
  function IsFipaMessage(e: Envelope, tags: ProtocolTags): (r: bool)
    ensures r <==> e.protocolId == "fipa" && "performative" in e.message && e.message["performative"] in tags.fipaPerformatives
  {
    e.protocolId == "fipa" && match Get(e.message, "performative") {
      case None => false
      case Some(p) => p in tags.fipaPerformatives
    }
  }

  /**
   * Whether the controller protocol accepts a content field (absent or
   * present) as a response signed for the given sender. Decoding is not part
   * of this model, so this is an input.
   */
  type ContentDecodes = (Option<string>, string) -> bool

  /** From the controller: protocol "bytes" and a content the controller protocol decodes for the sender. */
  function IsControllerMessage(e: Envelope, decodes: ContentDecodes): (r: bool)
    ensures e.protocolId != "bytes" ==> !r
    ensures e.protocolId == "bytes" ==> (r <==> decodes(Get(e.message, "content"), e.sender))
  {
    if e.protocolId != "bytes" then false else decodes(Get(e.message, "content"), e.sender)
  }

  /**
   * Only the protocol and the type field decide whether an envelope comes
   * from the discovery service; accepting more OEF types never loses one.
   */
  lemma OefClassReadsOnlyTypeTag(e1: Envelope, e2: Envelope, tags: ProtocolTags, wider: ProtocolTags)
    requires e1.protocolId == e2.protocolId && Get(e1.message, "type") == Get(e2.message, "type")
    requires tags.oefTypes <= wider.oefTypes
    ensures IsOefMessage(e1, tags) == IsOefMessage(e2, tags)
    ensures IsOefMessage(e1, tags) ==> IsOefMessage(e1, wider)
  {
  }

  /**
   * Only the protocol and the performative decide whether an envelope is a
   * negotiation message; accepting more performatives never loses one.
   */
  lemma FipaClassReadsOnlyPerformative(e1: Envelope, e2: Envelope, tags: ProtocolTags, wider: ProtocolTags)
    requires e1.protocolId == e2.protocolId && Get(e1.message, "performative") == Get(e2.message, "performative")
    requires tags.fipaPerformatives <= wider.fipaPerformatives
    ensures IsFipaMessage(e1, tags) == IsFipaMessage(e2, tags)
    ensures IsFipaMessage(e1, tags) ==> IsFipaMessage(e1, wider)
  {
  }

  /**
   * Only the protocol, the content field and the sender decide whether an
   * envelope comes from the controller: the addressee and every other field
   * are irrelevant.
   */
  lemma ControllerClassReadsOnlyContent(e1: Envelope, e2: Envelope, decodes: ContentDecodes)
    requires e1.protocolId == e2.protocolId && e1.sender == e2.sender
    requires Get(e1.message, "content") == Get(e2.message, "content")
    ensures IsControllerMessage(e1, decodes) == IsControllerMessage(e2, decodes)
  {
  }

  /** No envelope falls into two of the three classes. */
  lemma ClassesDisjoint(e: Envelope, tags: ProtocolTags, decodes: ContentDecodes)
    ensures !(IsOefMessage(e, tags) && IsFipaMessage(e, tags))
    ensures !(IsOefMessage(e, tags) && IsControllerMessage(e, decodes))
    ensures !(IsFipaMessage(e, tags) && IsControllerMessage(e, decodes))
  {
  }

  /** A tag outside the known set, or a missing one, classifies an envelope as neither OEF nor FIPA. */
  lemma UnknownTagsNotClassified(e: Envelope, tags: ProtocolTags)
    requires "type" !in e.message || e.message["type"] !in tags.oefTypes
    requires "performative" !in e.message || e.message["performative"] !in tags.fipaPerformatives
    ensures !IsOefMessage(e, tags) && !IsFipaMessage(e, tags)
  {
  }
}
