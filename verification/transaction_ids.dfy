/**
 * Transaction identifiers shared by the two parties of a negotiation.
 *
 * The four-field form `buyer_seller_dialogueId_starter` is what both agent
 * frameworks use; each party computes it on its own from its key, the
 * opponent's key, the dialogue label and its role, and the id can be split
 * back into a dialogue label. The older three-field form
 * `buyer_seller_dialogueId` has no decoder.
 */
module TransactionIds {
  import opened Wrappers
  import opened Strings

  /** Identifies a dialogue from one agent's point of view. */
  datatype DialogueLabel = DialogueLabel(dialogueId: int, dialogueOpponentPbk: string, dialogueStarterPbk: string)

  const Sep: char := '_'

  /** The buyer and the seller, given who the agent is and which role it plays. */
  function Parties(agentPbk: string, opponentPbk: string, agentIsSeller: bool): (string, string) {
    if agentIsSeller then (opponentPbk, agentPbk) else (agentPbk, opponentPbk)
  }

  /** `buyer_seller_dialogueId_starter`, for an opponent that is the label's opponent. */
  function GenerateTransactionId(agentPbk: string, opponentPbk: string, dialogueLabel: DialogueLabel, agentIsSeller: bool): (id: string)
    requires opponentPbk == dialogueLabel.dialogueOpponentPbk
    ensures StartsWith(id, (if agentIsSeller then opponentPbk else agentPbk) + [Sep])
    ensures EndsWith(id, [Sep] + dialogueLabel.dialogueStarterPbk)
  {
    var (buyer, seller) := Parties(agentPbk, opponentPbk, agentIsSeller);
    var id := Join([buyer, seller, IntToDecimal(dialogueLabel.dialogueId), dialogueLabel.dialogueStarterPbk], Sep);
    JoinFour(buyer, seller, IntToDecimal(dialogueLabel.dialogueId), dialogueLabel.dialogueStarterPbk, Sep);
    assert id[..|buyer| + 1] == buyer + [Sep];
    assert id[|id| - |dialogueLabel.dialogueStarterPbk| - 1..] == [Sep] + dialogueLabel.dialogueStarterPbk;
    id
  }

  /** Why an id could not be read back. */
  datatype DecodeError = WrongFieldCount(count: nat) | DialogueIdNotInteger

  /**
   * Splits an id into its four fields; the opponent is the seller field when
   * the agent is the buyer and the buyer field otherwise, and the starter is
   * taken as written. Not exactly four fields, or a dialogue id that is not
   * an integer, is an error.
   */
  function DialogueLabelFromTransactionId(agentPbk: string, transactionId: string): (r: Result<DialogueLabel, DecodeError>)
    ensures r.Success? <==> |Split(transactionId, Sep)| == 4 && ParseInt(Split(transactionId, Sep)[2]).Some?
    ensures r.Success? ==>
      var fields := Split(transactionId, Sep);
      && Some(r.value.dialogueId) == ParseInt(fields[2])
      && r.value.dialogueStarterPbk == fields[3]
      && (agentPbk == fields[0] ==> r.value.dialogueOpponentPbk == fields[1])
      && (agentPbk != fields[0] ==> r.value.dialogueOpponentPbk == fields[0])
    ensures multiset(transactionId)[Sep] != 3 ==> r.Failure?
    ensures r.Success? ==> Sep !in r.value.dialogueOpponentPbk && Sep !in r.value.dialogueStarterPbk
  {
    var fields := Split(transactionId, Sep);
    if |fields| != 4 then Failure(WrongFieldCount(|fields|))
    else
      match ParseInt(fields[2])
      case None => Failure(DialogueIdNotInteger)
      case Some(dialogueId) =>
        var opponent := if agentPbk == fields[0] then fields[1] else fields[0];
        Success(DialogueLabel(dialogueId, opponent, fields[3]))
  }

  /** The decimal text of an integer has no separator in it. */
  lemma IntToDecimalHasNoSep(i: int)
    ensures Sep !in IntToDecimal(i)
  {
    var s := IntToDecimal(i);
    if i < 0 {
      assert s == "-" + NatToDecimal(-i);
      assert AllDigits(s[1..]);
    } else {
      assert AllDigits(s);
    }
  }

  /**
   * Decoding what an agent encoded returns the dialogue label it started
   * from, provided no public key contains the separator and the agent is not
   * its own opponent.
   */
  lemma DecodeEncodeRoundTrip(agentPbk: string, dialogueLabel: DialogueLabel, agentIsSeller: bool)
    requires Sep !in agentPbk && Sep !in dialogueLabel.dialogueOpponentPbk && Sep !in dialogueLabel.dialogueStarterPbk
    requires agentPbk != dialogueLabel.dialogueOpponentPbk
    ensures DialogueLabelFromTransactionId(agentPbk,
              GenerateTransactionId(agentPbk, dialogueLabel.dialogueOpponentPbk, dialogueLabel, agentIsSeller)) == Success(dialogueLabel)
  {
    var (buyer, seller) := Parties(agentPbk, dialogueLabel.dialogueOpponentPbk, agentIsSeller);
    var parts := [buyer, seller, IntToDecimal(dialogueLabel.dialogueId), dialogueLabel.dialogueStarterPbk];
    IntToDecimalHasNoSep(dialogueLabel.dialogueId);
    SplitJoin(parts, Sep);
    ParseIntRoundTrip(dialogueLabel.dialogueId);
  }

  /**
   * As with Python's `int`, white space around the dialogue id field does
   * not change the label read back.
   */
  lemma DecodeIgnoresSpaceAroundDialogueId(agentPbk: string, dialogueLabel: DialogueLabel, agentIsSeller: bool,
                                           before: string, after: string)
    requires Sep !in agentPbk && Sep !in dialogueLabel.dialogueOpponentPbk && Sep !in dialogueLabel.dialogueStarterPbk
    requires agentPbk != dialogueLabel.dialogueOpponentPbk
    requires AllSpaces(before) && AllSpaces(after)
    ensures
      var (buyer, seller) := Parties(agentPbk, dialogueLabel.dialogueOpponentPbk, agentIsSeller);
      var paddedId := before + IntToDecimal(dialogueLabel.dialogueId) + after;
      DialogueLabelFromTransactionId(agentPbk, Join([buyer, seller, paddedId, dialogueLabel.dialogueStarterPbk], Sep))
        == Success(dialogueLabel)
  {
    var (buyer, seller) := Parties(agentPbk, dialogueLabel.dialogueOpponentPbk, agentIsSeller);
    var digits := IntToDecimal(dialogueLabel.dialogueId);
    var paddedId := before + digits + after;
    IntToDecimalHasNoSep(dialogueLabel.dialogueId);
    assert Sep !in paddedId by {
      assert !IsSpace(Sep);
      assert forall k :: 0 <= k < |paddedId| ==> paddedId[k] in before || paddedId[k] in digits || paddedId[k] in after;
    }
    SplitJoin([buyer, seller, paddedId, dialogueLabel.dialogueStarterPbk], Sep);
    ParseIntIgnoresSurroundingSpace(before, digits, after);
    ParseIntRoundTrip(dialogueLabel.dialogueId);
  }

  /**
   * Reading an id back and encoding the label again reproduces the id, for
   * the buyer or the seller it names, when the two keys differ and the
   * dialogue id is written the way integers are printed.
   */
  lemma EncodeDecodeRoundTrip(agentPbk: string, transactionId: string)
    requires DialogueLabelFromTransactionId(agentPbk, transactionId).Success?
    requires
      var fields := Split(transactionId, Sep);
      && (agentPbk == fields[0] || agentPbk == fields[1])
      && fields[0] != fields[1]
      && ParseInt(fields[2]).Some? && IntToDecimal(ParseInt(fields[2]).value) == fields[2]
    ensures
      var dialogueLabel := DialogueLabelFromTransactionId(agentPbk, transactionId).value;
      var fields := Split(transactionId, Sep);
      GenerateTransactionId(agentPbk, dialogueLabel.dialogueOpponentPbk, dialogueLabel, agentPbk == fields[1]) == transactionId
  {
    var fields := Split(transactionId, Sep);
    var dialogueLabel := DialogueLabelFromTransactionId(agentPbk, transactionId).value;
    ReencodeFields(agentPbk, fields, dialogueLabel);
    JoinSplit(transactionId, Sep);
  }

  /** Encoding a label read from four fields, from the role the agent has in them, joins the fields again. */
  lemma ReencodeFields(agentPbk: string, fields: seq<string>, dialogueLabel: DialogueLabel)
    requires |fields| == 4
    requires agentPbk == fields[0] || agentPbk == fields[1]
    requires fields[0] != fields[1]
    requires dialogueLabel.dialogueOpponentPbk == (if agentPbk == fields[0] then fields[1] else fields[0])
    requires dialogueLabel.dialogueStarterPbk == fields[3]
    requires IntToDecimal(dialogueLabel.dialogueId) == fields[2]
    ensures GenerateTransactionId(agentPbk, dialogueLabel.dialogueOpponentPbk, dialogueLabel, agentPbk == fields[1]) == Join(fields, Sep)
  {
    assert Parties(agentPbk, dialogueLabel.dialogueOpponentPbk, agentPbk == fields[1]) == (fields[0], fields[1]);
    assert fields == [fields[0], fields[1], fields[2], fields[3]];
  }

  /**
   * The buyer and the seller of a dialogue compute the same id: each names
   * the other as opponent and they play opposite roles.
   */
  lemma BothPartiesSameId(agentPbk: string, opponentPbk: string, dialogueId: int, starterPbk: string, agentIsSeller: bool)
    ensures GenerateTransactionId(agentPbk, opponentPbk, DialogueLabel(dialogueId, opponentPbk, starterPbk), agentIsSeller)
         == GenerateTransactionId(opponentPbk, agentPbk, DialogueLabel(dialogueId, agentPbk, starterPbk), !agentIsSeller)
  {
  }

  /** A key containing the separator makes the id impossible to read back. */
  lemma UnderscoreKeyBreaksDecoding(agentPbk: string, opponentPbk: string, dialogueLabel: DialogueLabel, agentIsSeller: bool, reader: string)
    requires opponentPbk == dialogueLabel.dialogueOpponentPbk
    requires Sep in agentPbk || Sep in opponentPbk || Sep in dialogueLabel.dialogueStarterPbk
    ensures DialogueLabelFromTransactionId(reader, GenerateTransactionId(agentPbk, opponentPbk, dialogueLabel, agentIsSeller)).Failure?
  {
    var (buyer, seller) := Parties(agentPbk, opponentPbk, agentIsSeller);
    var d := IntToDecimal(dialogueLabel.dialogueId);
    var st := dialogueLabel.dialogueStarterPbk;
    var id := GenerateTransactionId(agentPbk, opponentPbk, dialogueLabel, agentIsSeller);
    JoinFour(buyer, seller, d, st, Sep);
    assert multiset(id)[Sep] == multiset(buyer)[Sep] + multiset(seller)[Sep] + multiset(d)[Sep] + multiset(st)[Sep] + 3;
    if Sep in buyer {
      assert multiset(buyer)[Sep] > 0;
    } else if Sep in seller {
      assert multiset(seller)[Sep] > 0;
    } else {
      assert multiset(st)[Sep] > 0;
    }
  }

  // ---------------------------------------------------------------------------
  // The older three-field form
  // ---------------------------------------------------------------------------

  /** `buyer_seller_dialogueId`, where `origin` is the other party. */
  function GenerateTransactionId3(agentPbk: string, origin: string, dialogueId: int, agentIsSeller: bool): (id: string)
    ensures StartsWith(id, (if agentIsSeller then origin else agentPbk) + [Sep])
  {
    var (buyer, seller) := Parties(agentPbk, origin, agentIsSeller);
    var id := Join([buyer, seller, IntToDecimal(dialogueId)], Sep);
    JoinThree(buyer, seller, IntToDecimal(dialogueId), Sep);
    assert id[..|buyer| + 1] == buyer + [Sep];
    id
  }

  /** Both parties of a dialogue compute the same three-field id. */
  lemma BothPartiesSameId3(agentPbk: string, origin: string, dialogueId: int, agentIsSeller: bool)
    ensures GenerateTransactionId3(agentPbk, origin, dialogueId, agentIsSeller)
         == GenerateTransactionId3(origin, agentPbk, dialogueId, !agentIsSeller)
  {
  }

  /** The three fields can be recovered from a three-field id whose keys are separator-free. */
  lemma FieldsOfId3(agentPbk: string, origin: string, dialogueId: int, agentIsSeller: bool)
    requires Sep !in agentPbk && Sep !in origin
    ensures
      var (buyer, seller) := Parties(agentPbk, origin, agentIsSeller);
      Split(GenerateTransactionId3(agentPbk, origin, dialogueId, agentIsSeller), Sep)
        == [buyer, seller, IntToDecimal(dialogueId)]
    ensures ParseInt(Split(GenerateTransactionId3(agentPbk, origin, dialogueId, agentIsSeller), Sep)[2]) == Some(dialogueId)
  {
    var (buyer, seller) := Parties(agentPbk, origin, agentIsSeller);
    IntToDecimalHasNoSep(dialogueId);
    SplitJoin([buyer, seller, IntToDecimal(dialogueId)], Sep);
    ParseIntRoundTrip(dialogueId);
  }

  /** A three-field id is never mistaken for a four-field one. */
  lemma Id3NeverDecodes(agentPbk: string, origin: string, dialogueId: int, agentIsSeller: bool, reader: string)
    requires Sep !in agentPbk && Sep !in origin
    ensures DialogueLabelFromTransactionId(reader, GenerateTransactionId3(agentPbk, origin, dialogueId, agentIsSeller)).Failure?
  {
    FieldsOfId3(agentPbk, origin, dialogueId, agentIsSeller);
  }
}
